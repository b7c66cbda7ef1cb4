/** `enum.WeekDay`: the seven lower-case day names. Parsing trims the input
    and lower-cases it, so it folds case. */
module WeekDayEnum {
  import opened Wrappers
  import opened Text
  import EnumCodec

  /** Go's `type WeekDay string`: any string, of which seven are valid. */
  type WeekDay = string

  const Monday: WeekDay := "monday"
  const Tuesday: WeekDay := "tuesday"
  const Wednesday: WeekDay := "wednesday"
  const Thursday: WeekDay := "thursday"
  const Friday: WeekDay := "friday"
  const Saturday: WeekDay := "saturday"
  const Sunday: WeekDay := "sunday"

  const Days: seq<WeekDay> := [Monday, Tuesday, Wednesday, Thursday, Friday, Saturday, Sunday]

  const Codec: EnumCodec.Codec := EnumCodec.Codec("WeekDay", Days, EnumCodec.TrimThenLower, "unknown", Monday)

  function String(w: WeekDay): string { EnumCodec.String(Codec, w) }
  function ParseStr2WeekDay(s: string): Ret<WeekDay> { EnumCodec.Parse(Codec, s) }
  function Scan(current: WeekDay, value: EnumCodec.DbValue): Ret<WeekDay> { EnumCodec.Scan(Codec, current, value) }
  function Value(w: WeekDay): string { EnumCodec.Value(Codec, w) }
  function MarshalJSON(w: WeekDay): string { EnumCodec.MarshalJSON(Codec, w) }
  function UnmarshalJSON(current: WeekDay, data: string): Ret<WeekDay> { EnumCodec.UnmarshalJSON(Codec, current, data) }

  lemma CodecWellFormed()
    ensures EnumCodec.WellFormed(Codec)
  {
    NamesSurviveNormalize();
  }

  /** The fallback word is its own normal form... */
  lemma UnknownIsNormal()
    ensures EnumCodec.Normalize(Codec, Codec.unknown) == "unknown"
  {
    var u := Codec.unknown;
    assert Trimmed(u) && NoUpper(u);
    TrimSpaceKeepsTrimmed(u);
    ToLowerKeepsLower(u);
  }

  /** ... and is not a day. */
  lemma UnknownIsNoDay()
    ensures "unknown" !in Days
  {
    var u := "unknown";
    assert |u| == 7 && u[0] == 'u';
    assert forall d :: d in Days ==> |d| != 7 || d[0] == 't';
  }

  lemma NamesSurviveNormalize()
    ensures forall n :: n in Days ==> Trimmed(n) && NoUpper(n)
  {
    assert Trimmed(Monday) && NoUpper(Monday);
    assert Trimmed(Tuesday) && NoUpper(Tuesday);
    assert Trimmed(Wednesday) && NoUpper(Wednesday);
    assert Trimmed(Thursday) && NoUpper(Thursday);
    assert Trimmed(Friday) && NoUpper(Friday);
    assert Trimmed(Saturday) && NoUpper(Saturday);
    assert Trimmed(Sunday) && NoUpper(Sunday);
  }

  /** Each of the seven days parses back from its `String()`. */
  lemma ParseOfString(w: WeekDay)
    requires w in Days
    ensures ParseStr2WeekDay(String(w)) == Ok(w)
  {
    CodecWellFormed();
    EnumCodec.ParseOfString(Codec, w);
  }

  lemma UpperMonday()
    ensures Trimmed("MONDAY") && ToLower("MONDAY") == "monday"
  {
    var l := ToLower("MONDAY");
    assert l[0] == 'm' && l[1] == 'o' && l[2] == 'n' && l[3] == 'd' && l[4] == 'a' && l[5] == 'y';
  }

  /** The input is trimmed and lower-cased before the lookup. */
  lemma ParseFoldsCaseAndSpace()
    ensures ParseStr2WeekDay(" MONDAY ") == Ok(Monday)
  {
    UpperMonday();
    assert " MONDAY " == [' '] + "MONDAY" + [' '];
    TrimSpacePadded("MONDAY");
    assert Monday in Days;
  }

  lemma DottedCapitalFriday()
    ensures Trimmed("FR\U{0130}DAY") && ToLower("FR\U{0130}DAY") == "friday"
  {
    var l := ToLower("FR\U{0130}DAY");
    assert l[0] == 'f' && l[1] == 'r' && l[2] == 'i' && l[3] == 'd' && l[4] == 'a' && l[5] == 'y';
  }

  /** A trimmed input whose lower-case form is a day's name parses as
      that day. */
  lemma ParseOfFolded(s: string, w: WeekDay)
    requires w in Days && Trimmed(s) && ToLower(s) == w
    ensures ParseStr2WeekDay(s) == Ok(w)
  {
    TrimSpaceKeepsTrimmed(s);
    ParseCharacterization(s);
  }

  /** The fold is Unicode's and not only ASCII's: the dotted capital I
      lower-cases to `i`, so `FRİDAY` is Friday. */
  lemma ParseFoldsDottedCapitalI()
    ensures ParseStr2WeekDay("FR\U{0130}DAY") == Ok(Friday)
  {
    DottedCapitalFriday();
    assert Days[4] == Friday;
    ParseOfFolded("FR\U{0130}DAY", Friday);
  }

  /** Parsing succeeds exactly when the trimmed, lower-cased input is one of
      the seven names; otherwise it yields the empty WeekDay and an error. */
  lemma ParseCharacterization(s: string)
    ensures ParseStr2WeekDay(s).IsOk() <==> ToLower(TrimSpace(s)) in Days
    ensures ParseStr2WeekDay(s).IsOk() ==> ParseStr2WeekDay(s).value == ToLower(TrimSpace(s))
    ensures !ParseStr2WeekDay(s).IsOk() ==> ParseStr2WeekDay(s) == Fail("", InvalidValue("WeekDay", ToLower(TrimSpace(s))))
  {
    EnumCodec.ParseCharacterization(Codec, s);
  }

  /** `String()` of a value outside the seven is "unknown"; `Value()` is
      always `String()`. */
  lemma StringAndValue(w: WeekDay)
    ensures w !in Days ==> String(w) == "unknown"
    ensures w in Days ==> String(w) == w
    ensures Value(w) == String(w)
  {
  }

  /** A NULL column scans as Monday; a driver value that is neither bytes
      nor a string is refused and the receiver keeps its value. */
  lemma ScanNullAndOtherTypes(current: WeekDay)
    ensures Scan(current, EnumCodec.Null) == Ok(Monday)
    ensures Scan(current, EnumCodec.OtherType) == Fail(current, InvalidScanType("WeekDay"))
  {
  }

  /** A text column scans exactly as `ParseStr2WeekDay` parses it; on a
      failure the receiver keeps its value. */
  lemma ScanOfText(current: WeekDay, s: string)
    ensures Scan(current, EnumCodec.Str(s)) == Scan(current, EnumCodec.Bytes(s))
    ensures Scan(current, EnumCodec.Str(s)).IsOk() <==> ParseStr2WeekDay(s).IsOk()
    ensures Scan(current, EnumCodec.Str(s)).value == if ParseStr2WeekDay(s).IsOk() then ParseStr2WeekDay(s).value else current
  {
  }

  /** JSON input shorter than two characters is refused. */
  lemma UnmarshalJSONShort(current: WeekDay, data: string)
    requires |data| < 2
    ensures UnmarshalJSON(current, data) == Fail(current, InvalidJson("WeekDay"))
  {
  }

  /** The first and last characters are dropped unchecked: `xmondayx`
      decodes to Monday. */
  lemma UnmarshalJSONIgnoresQuotes(current: WeekDay)
    ensures UnmarshalJSON(current, "xmondayx") == Ok(Monday)
  {
    assert "xmondayx" == ['x'] + Monday + ['x'];
    EnumCodec.UnmarshalIgnoresDelimiters(Codec, current, 'x', Monday, 'x');
    ParseOfString(Monday);
  }

  /** A value outside the seven marshals as "unknown", which does not
      unmarshal: the round trip leaves the receiver as it was. */
  lemma UnmarshalOfMarshalOutside(current: WeekDay, w: WeekDay)
    requires w !in Days
    ensures UnmarshalJSON(current, MarshalJSON(w)) == Fail(current, InvalidValue("WeekDay", "unknown"))
  {
    UnknownIsNormal();
    UnknownIsNoDay();
    EnumCodec.UnmarshalOfMarshalOutside(Codec, current, w);
  }

  /** What `Value` writes to the database scans back exactly for the seven
      days; anything else was written as "unknown", which `Scan` refuses. */
  lemma ScanOfValue(current: WeekDay, w: WeekDay)
    ensures Scan(current, EnumCodec.Str(Value(w))).IsOk() <==> w in Days
    ensures w in Days ==> Scan(current, EnumCodec.Str(Value(w))) == Ok(w)
  {
    CodecWellFormed();
    UnknownIsNormal();
    UnknownIsNoDay();
    EnumCodec.ScanOfValue(Codec, current, w);
  }

  lemma UnmarshalOfMarshal(current: WeekDay, w: WeekDay)
    requires w in Days
    ensures UnmarshalJSON(current, MarshalJSON(w)) == Ok(w)
  {
    CodecWellFormed();
    EnumCodec.UnmarshalOfMarshal(Codec, current, w);
  }
}
