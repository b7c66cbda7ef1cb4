/** `IsValidVietnamesePhoneNumber`: a match of the anchored regular
    expression `^((\+84|84|0)[3|5|7|8|9])+([0-9]{8})$`, written as a
    recogniser. A group is a prefix (`+84`, `84` or `0`) followed by one
    character of the class `[3|5|7|8|9]`, which holds the five digits and,
    literally, `|`. One or more groups are followed by exactly eight digits
    and nothing else. */
module PhoneValidator {
  import opened Text

  const Prefixes: seq<string> := ["+84", "84", "0"]

  /** The bracket class `[3|5|7|8|9]`. */
  predicate InClass(c: char) {
    c == '3' || c == '5' || c == '7' || c == '8' || c == '9' || c == '|'
  }

  /** One group `p c` at the head of `s`, where `p` is the given prefix. */
  predicate GroupAt(s: string, p: string) {
    |s| > |p| && s[..|p|] == p && InClass(s[|p|])
  }

  /** `s` is a concatenation of zero or more groups. */
  predicate Groups(s: string)
    decreases |s|
  {
    s == []
    || (GroupAt(s, "+84") && Groups(s[4..]))
    || (GroupAt(s, "84") && Groups(s[3..]))
    || (GroupAt(s, "0") && Groups(s[2..]))
  }

  /** Since the last part is exactly eight digits and the match is anchored
      at the end, the groups are everything before the last eight
      characters. */
  predicate IsValidVietnamesePhoneNumber(phone: string) {
    |phone| >= 8
    && AllDigits(phone[|phone| - 8..])
    && phone[..|phone| - 8] != []
    && Groups(phone[..|phone| - 8])
  }

  // The language of the regular expression, stated directly.

  datatype Group = Group(prefix: string, digit: char)

  predicate ValidGroup(g: Group) {
    g.prefix in Prefixes && InClass(g.digit)
  }

  function Render(gs: seq<Group>): string {
    if gs == [] then [] else gs[0].prefix + [gs[0].digit] + Render(gs[1..])
  }

  /** `phone` is one or more valid groups followed by eight digits. */
  ghost predicate InLanguage(phone: string) {
    exists gs: seq<Group>, tail: string ::
      |gs| >= 1 && (forall i :: 0 <= i < |gs| ==> ValidGroup(gs[i]))
      && |tail| == 8 && AllDigits(tail) && phone == Render(gs) + tail
  }

  lemma {:induction false} GroupsOfRender(gs: seq<Group>)
    requires forall i :: 0 <= i < |gs| ==> ValidGroup(gs[i])
    ensures Groups(Render(gs))
    decreases |gs|
  {
    if gs != [] {
      var g := gs[0];
      var s := Render(gs);
      assert s == g.prefix + [g.digit] + Render(gs[1..]);
      assert forall i :: 0 <= i < |gs[1..]| ==> ValidGroup(gs[1..][i]) by {
        forall i | 0 <= i < |gs[1..]| ensures ValidGroup(gs[1..][i]) {
          assert gs[1..][i] == gs[i + 1];
        }
      }
      GroupsOfRender(gs[1..]);
      var n := |g.prefix|;
      assert s[..n] == g.prefix && s[n] == g.digit && s[n + 1..] == Render(gs[1..]);
      assert g.prefix == "+84" || g.prefix == "84" || g.prefix == "0";
    }
  }

  /** A string of groups can be read back as a list of valid groups. */
  lemma {:induction false} RenderOfGroups(s: string) returns (gs: seq<Group>)
    requires Groups(s)
    ensures forall i :: 0 <= i < |gs| ==> ValidGroup(gs[i])
    ensures Render(gs) == s
    ensures s != [] ==> |gs| >= 1
    decreases |s|
  {
    if s == [] {
      gs := [];
      return;
    }
    var p: string;
    if GroupAt(s, "+84") && Groups(s[4..]) {
      p := "+84";
    } else if GroupAt(s, "84") && Groups(s[3..]) {
      p := "84";
    } else {
      p := "0";
    }
    var rest := RenderOfGroups(s[|p| + 1..]);
    gs := [Group(p, s[|p|])] + rest;
    assert gs[1..] == rest;
    assert s == s[..|p|] + [s[|p|]] + s[|p| + 1..];
  }

  /** The recogniser accepts exactly the language of the expression. */
  lemma RecogniserMatchesLanguage(phone: string)
    ensures IsValidVietnamesePhoneNumber(phone) <==> InLanguage(phone)
  {
    if IsValidVietnamesePhoneNumber(phone) {
      var head, tail := phone[..|phone| - 8], phone[|phone| - 8..];
      var gs := RenderOfGroups(head);
      assert phone == Render(gs) + tail;
    }
    if InLanguage(phone) {
      var gs: seq<Group>, tail: string :| |gs| >= 1 && (forall i :: 0 <= i < |gs| ==> ValidGroup(gs[i]))
        && |tail| == 8 && AllDigits(tail) && phone == Render(gs) + tail;
      GroupsOfRender(gs);
      var head := Render(gs);
      assert head != [] by {
        assert head == gs[0].prefix + [gs[0].digit] + Render(gs[1..]);
      }
      assert phone[..|phone| - 8] == head && phone[|phone| - 8..] == tail;
    }
  }

  /** A national number: `0`, a digit of the class, eight digits. */
  lemma AcceptsNational()
    ensures IsValidVietnamesePhoneNumber("0912345678")
  {
    var s := "0912345678";
    assert s[..2] == "09" && s[2..] == "12345678";
    assert Groups("09") by {
      assert GroupAt("09", "0") && "09"[2..] == [];
    }
  }

  /** `+84` and `84` stand in for the leading `0`. */
  lemma AcceptsCountryCode()
    ensures IsValidVietnamesePhoneNumber("+84912345678")
    ensures IsValidVietnamesePhoneNumber("84912345678")
  {
    var s, t := "+84912345678", "84912345678";
    assert s[..4] == "+849" && s[4..] == "12345678";
    assert Groups("+849") by {
      assert GroupAt("+849", "+84") && "+849"[4..] == [];
    }
    assert t[..3] == "849" && t[3..] == "12345678";
    assert Groups("849") by {
      assert GroupAt("849", "84") && "849"[3..] == [];
    }
  }

  /** A second digit outside the class is refused. */
  lemma RefusesSecondDigitTwo()
    ensures !IsValidVietnamesePhoneNumber("0212345678")
  {
    var h := "0212345678"[..2];
    assert h == "02";
    assert !GroupAt(h, "+84") && !GroupAt(h, "84");
    assert !InClass(h[1]);
  }

  /** The group may repeat. */
  lemma AcceptsRepeatedGroup()
    ensures IsValidVietnamesePhoneNumber("090912345678")
  {
    var s := "090912345678";
    assert s[..4] == "0909" && s[4..] == "12345678";
    assert Groups("09") by {
      assert GroupAt("09", "0") && "09"[2..] == [];
    }
    assert Groups("0909") by {
      assert GroupAt("0909", "0") && "0909"[2..] == "09";
    }
  }

  /** The `|` inside the brackets is a member of the class. */
  lemma AcceptsBar()
    ensures IsValidVietnamesePhoneNumber("0|12345678")
  {
    var s := "0|12345678";
    assert s[..2] == "0|" && s[2..] == "12345678";
    assert Groups("0|") by {
      assert GroupAt("0|", "0") && "0|"[2..] == [];
    }
  }

  /** The match is anchored at both ends. */
  lemma RefusesEmptyShortAndTrailing()
    ensures !IsValidVietnamesePhoneNumber("")
    ensures !IsValidVietnamesePhoneNumber("091234567")
    ensures !IsValidVietnamesePhoneNumber("0912345678x")
  {
    var short := "091234567";
    assert short[..|short| - 8] == "0";
    assert !Groups("0") by {
      assert !GroupAt("0", "0") && !GroupAt("0", "84") && !GroupAt("0", "+84");
    }
    var trailing := "0912345678x";
    assert !IsDigit(trailing[|trailing| - 8..][7]);
  }
}
