/** `SendOTPServiceImpl`: a six-digit code is drawn, stored in Redis under
    the address, then mailed to it; a code is checked against the store.
    The random draw is a parameter in `[0, 999999]`; SMTP is an outbox of
    sent messages with a flag saying whether sending fails. */
module SendOtpService {
  import opened Wrappers
  import opened Text
  import opened Redis

  const CodeSpace := 1000000

  /** `fmt.Sprintf("%06d", n)` for `0 <= n < 1000000`. */
  function GenerateOTP(n: int): (code: string)
    requires 0 <= n < CodeSpace
    ensures |code| == 6 && AllDigits(code)
  {
    PadDigits(n, 6)
  }

  /** The last `width` decimal digits of `n`, leading zeros included. */
  function PadDigits(n: nat, width: nat): (s: string)
    ensures |s| == width && AllDigits(s)
  {
    if width == 0 then "" else PadDigits(n / 10, width - 1) + [DigitChar(n % 10)]
  }

  function DigitChar(d: nat): (c: char)
    requires d < 10
    ensures IsDigit(c)
  {
    ('0' as int + d) as char
  }

  /** The number a string of decimal digits denotes. */
  function DecimalValue(s: string): nat
    requires AllDigits(s)
  {
    if s == [] then 0 else 10 * DecimalValue(s[..|s| - 1]) + (s[|s| - 1] as int - '0' as int)
  }

  function Pow10(k: nat): (p: nat)
    ensures p >= 1
  {
    if k == 0 then 1 else 10 * Pow10(k - 1)
  }

  lemma {:induction false} PadDigitsValue(n: nat, width: nat)
    ensures DecimalValue(PadDigits(n, width)) == n % Pow10(width)
  {
    if width > 0 {
      var s := PadDigits(n, width);
      assert s[..|s| - 1] == PadDigits(n / 10, width - 1);
      PadDigitsValue(n / 10, width - 1);
      ModOfTen(n, Pow10(width - 1));
    }
  }

  lemma ModOfTen(n: nat, p: nat)
    requires p >= 1
    ensures 10 * ((n / 10) % p) + n % 10 == n % (10 * p)
  {
    var q, r := n / 10, n % 10;
    var a, b := q / p, q % p;
    assert n == 10 * q + r;
    assert q == p * a + b;
    assert 10 * q == (10 * p) * a + 10 * b by {
      assert 10 * (p * a) == (10 * p) * a;
    }
    ModUnique(n, 10 * p, a, 10 * b + r);
  }

  /** The remainder is determined by any quotient-remainder split. */
  lemma ModUnique(n: int, d: int, a: int, c: int)
    requires d > 0 && 0 <= c < d && n == d * a + c
    ensures n % d == c
  {
    var q, r := n / d, n % d;
    assert n == d * q + r && 0 <= r < d;
    assert d * (a - q) == r - c by {
      assert d * (a - q) == d * a - d * q;
    }
    if a - q >= 1 {
      MulAtLeast(d, a - q);
    } else if a - q <= -1 {
      MulAtLeast(d, q - a);
    }
  }

  lemma MulAtLeast(d: int, k: int)
    requires d > 0 && k >= 1
    ensures d * k >= d
  {
    assert d * k == d * (k - 1) + d;
    assert d * (k - 1) >= 0;
  }

  /** The code is the draw written in decimal: its six digits denote `n`. */
  lemma GeneratedCodeValue(n: int)
    requires 0 <= n < CodeSpace
    ensures DecimalValue(GenerateOTP(n)) == n
  {
    Pow10Six();
    PadDigitsBelow(n, 6);
  }

  lemma Pow10Six()
    ensures Pow10(6) == CodeSpace
  {
    assert Pow10(1) == 10;
    assert Pow10(3) == 1000;
  }

  /** A number with at most `width` digits is written out exactly. */
  lemma PadDigitsBelow(n: nat, width: nat)
    requires n < Pow10(width)
    ensures DecimalValue(PadDigits(n, width)) == n
  {
    PadDigitsValue(n, width);
    ModUnique(n, Pow10(width), 0, n);
  }

  /** Different draws give different codes. */
  lemma GenerateOTPInjective(n: int, m: int)
    requires 0 <= n < CodeSpace && 0 <= m < CodeSpace
    ensures GenerateOTP(n) == GenerateOTP(m) <==> n == m
  {
    GeneratedCodeValue(n);
    GeneratedCodeValue(m);
  }

  /** A message handed to the SMTP server. */
  datatype Mail = Mail(to: string, otp: string)

  class Mailer {
    var outbox: seq<Mail>

    constructor ()
      ensures outbox == []
    {
      outbox := [];
    }

    /** `sendOTP`: sends the code to the address, or fails and sends
        nothing. */
    method SendOTP(toEmail: string, otp: string, fails: bool) returns (err: Option<Error>)
      modifies this
      ensures fails ==> err == Some(SmtpError) && outbox == old(outbox)
      ensures !fails ==> err == None && outbox == old(outbox) + [Mail(toEmail, otp)]
    {
      if fails {
        return Some(SmtpError);
      }
      outbox := outbox + [Mail(toEmail, otp)];
      return None;
    }
  }

  class SendOTPService {
    const redisStore: RedisStore
    const mailer: Mailer

    constructor (redisStore: RedisStore, mailer: Mailer)
      ensures this.redisStore == redisStore && this.mailer == mailer
    {
      this.redisStore := redisStore;
      this.mailer := mailer;
    }

    /** Stores first, then sends. A failed store sends nothing; a failed
        send leaves the code stored. */
    method SendOTPAndStore(email: string, draw: int, storeFails: bool, sendFails: bool) returns (err: Option<Error>)
      requires 0 <= draw < CodeSpace
      modifies redisStore, mailer
      ensures storeFails ==> err == Some(OtpStoreFailed) && redisStore.kv == old(redisStore.kv) && mailer.outbox == old(mailer.outbox)
      ensures !storeFails ==> redisStore.kv == old(redisStore.kv)[OtpKey(email) := GenerateOTP(draw)]
      ensures !storeFails && sendFails ==> err == Some(OtpSendFailed) && mailer.outbox == old(mailer.outbox)
      ensures !storeFails && !sendFails ==> err == None && mailer.outbox == old(mailer.outbox) + [Mail(email, GenerateOTP(draw))]
    {
      var otp := GenerateOTP(draw);
      var storeErr := redisStore.StoreOTP(email, otp, storeFails);
      if storeErr.Some? {
        return Some(OtpStoreFailed);
      }
      var sendErr := mailer.SendOTP(email, otp, sendFails);
      if sendErr.Some? {
        return Some(OtpSendFailed);
      }
      return None;
    }

    /** `(true, nil)` exactly when the stored code matches; a wrong or
        missing code and a failing store are both `false` with an error. */
    method VerifyOTPInRedis(email: string, otp: string, fails: bool) returns (ok: bool, err: Option<Error>)
      ensures ok <==> !fails && Matches(redisStore.kv, email, otp)
      ensures err == VerifyError(redisStore.kv, email, otp, fails)
      ensures ok <==> err.None?
    {
      var isValid, verr := redisStore.VerifyOTP(email, otp, fails);
      if verr.Some? {
        return false, Some(OtpVerifyFailed);
      }
      if !isValid {
        return false, Some(OtpInvalid);
      }
      return true, None;
    }
  }

  /** The error `VerifyOTPInRedis` reports. */
  function VerifyError(kv: map<string, string>, email: string, otp: string, fails: bool): (e: Option<Error>)
    ensures e.None? <==> !fails && Matches(kv, email, otp)
  {
    if fails then Some(OtpVerifyFailed)
    else if !Matches(kv, email, otp) then Some(OtpInvalid)
    else None
  }
}
