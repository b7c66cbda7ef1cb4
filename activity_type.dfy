/** `enum.ActivityType`: three capitalised names. Parsing only trims the
    input, so it is case-sensitive. */
module ActivityTypeEnum {
  import opened Wrappers
  import opened Text
  import EnumCodec

  type ActivityType = string

  const TypeActivity: ActivityType := "Activity"
  const TypeMiniGame: ActivityType := "MiniGame"
  const TypeChallenge: ActivityType := "Challenge"

  const Types: seq<ActivityType> := [TypeActivity, TypeMiniGame, TypeChallenge]

  const Codec: EnumCodec.Codec := EnumCodec.Codec("ActivityType", Types, EnumCodec.TrimOnly, "Unknown", TypeActivity)

  function String(t: ActivityType): string { EnumCodec.String(Codec, t) }
  function ParseStr2ActivityType(s: string): Ret<ActivityType> { EnumCodec.Parse(Codec, s) }
  function Scan(current: ActivityType, value: EnumCodec.DbValue): Ret<ActivityType> { EnumCodec.Scan(Codec, current, value) }
  function Value(t: ActivityType): string { EnumCodec.Value(Codec, t) }
  function MarshalJSON(t: ActivityType): string { EnumCodec.MarshalJSON(Codec, t) }
  function UnmarshalJSON(current: ActivityType, data: string): Ret<ActivityType> { EnumCodec.UnmarshalJSON(Codec, current, data) }

  lemma CodecWellFormed()
    ensures EnumCodec.WellFormed(Codec)
  {
    assert Trimmed(TypeActivity) && Trimmed(TypeMiniGame) && Trimmed(TypeChallenge);
  }

  /** The fallback word is its own normal form... */
  lemma UnknownIsNormal()
    ensures EnumCodec.Normalize(Codec, Codec.unknown) == "Unknown"
  {
    var u := Codec.unknown;
    assert Trimmed(u);
    TrimSpaceKeepsTrimmed(u);
  }

  /** ... and is not a type. */
  lemma UnknownIsNoType()
    ensures "Unknown" !in Types
  {
    var u := "Unknown";
    assert u[0] == 'U';
    assert forall t :: t in Types ==> t[0] != 'U';
  }

  lemma ParseOfString(t: ActivityType)
    requires t in Types
    ensures ParseStr2ActivityType(String(t)) == Ok(t)
  {
    CodecWellFormed();
    EnumCodec.ParseOfString(Codec, t);
  }

  /** Parsing succeeds exactly when the trimmed input is one of the three
      names, spelled with their capitals; otherwise it yields the empty
      ActivityType and an error. */
  lemma ParseCharacterization(s: string)
    ensures ParseStr2ActivityType(s).IsOk() <==> TrimSpace(s) in Types
    ensures ParseStr2ActivityType(s).IsOk() ==> ParseStr2ActivityType(s).value == TrimSpace(s)
    ensures !ParseStr2ActivityType(s).IsOk() ==> ParseStr2ActivityType(s) == Fail("", InvalidValue("ActivityType", TrimSpace(s)))
  {
    EnumCodec.ParseCharacterization(Codec, s);
  }

  lemma OtherSpellings()
    ensures "activity" !in Types && "MINIGAME" !in Types
  {
    assert forall t :: t in Types ==> t[0] != 'a';
    assert forall t :: t in Types ==> |t| != 8 || t[1] != 'I';
  }

  /** The parser does not fold case: "activity" and "MINIGAME" are refused. */
  lemma ParseIsCaseSensitive()
    ensures !ParseStr2ActivityType("activity").IsOk()
    ensures !ParseStr2ActivityType("MINIGAME").IsOk()
  {
    assert Trimmed("activity") && Trimmed("MINIGAME");
    TrimSpaceKeepsTrimmed("activity");
    TrimSpaceKeepsTrimmed("MINIGAME");
    OtherSpellings();
  }

  lemma StringAndValue(t: ActivityType)
    ensures t !in Types ==> String(t) == "Unknown"
    ensures t in Types ==> String(t) == t
    ensures Value(t) == String(t)
  {
  }

  /** A NULL column scans as `Activity`; any driver value that is neither
      bytes nor a string is refused and the receiver keeps its value. */
  lemma ScanNullAndOtherTypes(current: ActivityType)
    ensures Scan(current, EnumCodec.Null) == Ok(TypeActivity)
    ensures Scan(current, EnumCodec.OtherType) == Fail(current, InvalidScanType("ActivityType"))
  {
  }

  lemma ScanOfText(current: ActivityType, s: string)
    ensures Scan(current, EnumCodec.Str(s)) == Scan(current, EnumCodec.Bytes(s))
    ensures Scan(current, EnumCodec.Str(s)).IsOk() <==> ParseStr2ActivityType(s).IsOk()
    ensures Scan(current, EnumCodec.Str(s)).value == if ParseStr2ActivityType(s).IsOk() then ParseStr2ActivityType(s).value else current
  {
  }

  lemma UnmarshalJSONShort(current: ActivityType, data: string)
    requires |data| < 2
    ensures UnmarshalJSON(current, data) == Fail(current, InvalidJson("ActivityType"))
  {
  }

  /** What `Value` writes to the database scans back exactly for the three
      types; anything else was written as "Unknown", which `Scan` refuses. */
  lemma ScanOfValue(current: ActivityType, t: ActivityType)
    ensures Scan(current, EnumCodec.Str(Value(t))).IsOk() <==> t in Types
    ensures t in Types ==> Scan(current, EnumCodec.Str(Value(t))) == Ok(t)
  {
    CodecWellFormed();
    UnknownIsNormal();
    UnknownIsNoType();
    EnumCodec.ScanOfValue(Codec, current, t);
  }

  lemma UnmarshalOfMarshal(current: ActivityType, t: ActivityType)
    requires t in Types
    ensures UnmarshalJSON(current, MarshalJSON(t)) == Ok(t)
  {
    CodecWellFormed();
    EnumCodec.UnmarshalOfMarshal(Codec, current, t);
  }

  /** A value outside the three marshals as "Unknown", which does not
      unmarshal: the round trip leaves the receiver as it was. */
  lemma UnmarshalOfMarshalOutside(current: ActivityType, t: ActivityType)
    requires t !in Types
    ensures UnmarshalJSON(current, MarshalJSON(t)) == Fail(current, InvalidValue("ActivityType", "Unknown"))
  {
    UnknownIsNormal();
    UnknownIsNoType();
    EnumCodec.UnmarshalOfMarshalOutside(Codec, current, t);
  }
}
