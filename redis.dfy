/** `RedisStoreImpl`: one-time codes kept under the key `otp:<email>`.
    The Redis server is a map from keys to values; a failing command is a
    flag of the call. The ten-minute expiry of `SetEX` is not modelled. */
module Redis {
  import opened Wrappers

  const KeyPrefix := "otp:"

  /** The key a code for `email` is stored under. */
  function OtpKey(email: string): (k: string)
    ensures |k| == |KeyPrefix| + |email| && k[..|KeyPrefix|] == KeyPrefix && k[|KeyPrefix|..] == email
  {
    KeyPrefix + email
  }

  /** Distinct e-mail addresses never share a key. */
  lemma OtpKeyInjective(a: string, b: string)
    ensures OtpKey(a) == OtpKey(b) <==> a == b
  {
    if OtpKey(a) == OtpKey(b) {
      assert a == OtpKey(a)[|KeyPrefix|..];
    }
  }

  /** The code stored for `email` is `otp`. */
  predicate Matches(kv: map<string, string>, email: string, otp: string) {
    OtpKey(email) in kv && kv[OtpKey(email)] == otp
  }

  class RedisStore {
    var kv: map<string, string>

    constructor ()
      ensures kv == map[]
    {
      kv := map[];
    }

    /** `SetEX(otp:<email>, otp)`: overwrites any earlier code. */
    method StoreOTP(email: string, otp: string, fails: bool) returns (err: Option<Error>)
      modifies this
      ensures fails ==> err == Some(RedisError) && kv == old(kv)
      ensures !fails ==> err == None && kv == old(kv)[OtpKey(email) := otp]
    {
      if fails {
        return Some(RedisError);
      }
      kv := kv[OtpKey(email) := otp];
      return None;
    }

    /** `Get(otp:<email>)` compared with `otp`. A missing key is a plain
        `false`; only a failing command is an error. Nothing is removed. */
    method VerifyOTP(email: string, otp: string, fails: bool) returns (ok: bool, err: Option<Error>)
      ensures ok <==> !fails && Matches(kv, email, otp)
      ensures err.Some? <==> fails
      ensures err.Some? ==> err == Some(RedisError)
    {
      if fails {
        return false, Some(RedisError);
      }
      var key := OtpKey(email);
      if key !in kv {
        return false, None;
      }
      return kv[key] == otp, None;
    }
  }

  /** After storing `o` for `e`, exactly `o` verifies for `e`. */
  lemma StoreThenVerify(kv: map<string, string>, e: string, o: string, o': string)
    ensures Matches(kv[OtpKey(e) := o], e, o') <==> o' == o
  {
  }

  /** Storing for one address leaves every other address's code as it was. */
  lemma StoreKeepsOthers(kv: map<string, string>, e: string, o: string, e': string, o': string)
    requires e' != e
    ensures Matches(kv[OtpKey(e) := o], e', o') == Matches(kv, e', o')
  {
    OtpKeyInjective(e, e');
  }

  /** A second store for the same address replaces the first. */
  lemma StoreOverwrites(kv: map<string, string>, e: string, o1: string, o2: string)
    ensures kv[OtpKey(e) := o1][OtpKey(e) := o2] == kv[OtpKey(e) := o2]
  {
  }

  /** An address for which nothing was stored verifies nothing. */
  lemma MissingKeyNeverMatches(kv: map<string, string>, e: string, o: string)
    requires OtpKey(e) !in kv
    ensures !Matches(kv, e, o)
  {
  }
}
