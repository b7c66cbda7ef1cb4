/** `enum.Status`, the state of a user's activity. Parsing lower-cases the
    input and then trims it. */
module StatusEnum {
  import opened Wrappers
  import opened Text
  import EnumCodec

  type Status = string

  const PendingStatus: Status := "pending"
  const CompleteStatus: Status := "complete"
  const SkipStatus: Status := "skip"

  const Statuses: seq<Status> := [PendingStatus, CompleteStatus, SkipStatus]

  const Codec: EnumCodec.Codec := EnumCodec.Codec("Status", Statuses, EnumCodec.LowerThenTrim, "Unknown", PendingStatus)

  function String(s: Status): string { EnumCodec.String(Codec, s) }
  function ParseStr2Status(str: string): Ret<Status> { EnumCodec.Parse(Codec, str) }
  function Scan(current: Status, value: EnumCodec.DbValue): Ret<Status> { EnumCodec.Scan(Codec, current, value) }
  function Value(s: Status): string { EnumCodec.Value(Codec, s) }
  function MarshalJSON(s: Status): string { EnumCodec.MarshalJSON(Codec, s) }
  function UnmarshalJSON(current: Status, data: string): Ret<Status> { EnumCodec.UnmarshalJSON(Codec, current, data) }

  lemma CodecWellFormed()
    ensures EnumCodec.WellFormed(Codec)
  {
    assert Trimmed(PendingStatus) && NoUpper(PendingStatus);
    assert Trimmed(CompleteStatus) && NoUpper(CompleteStatus);
    assert Trimmed(SkipStatus) && NoUpper(SkipStatus);
  }

  lemma ParseOfString(s: Status)
    requires s in Statuses
    ensures ParseStr2Status(String(s)) == Ok(s)
  {
    CodecWellFormed();
    EnumCodec.ParseOfString(Codec, s);
  }

  /** Parsing succeeds exactly when the lower-cased, trimmed input is one of
      the three names; the order of the two steps does not matter. */
  lemma ParseCharacterization(str: string)
    ensures ParseStr2Status(str).IsOk() <==> TrimSpace(ToLower(str)) in Statuses
    ensures ParseStr2Status(str).IsOk() ==> ParseStr2Status(str).value == ToLower(TrimSpace(str))
    ensures !ParseStr2Status(str).IsOk() ==> ParseStr2Status(str) == Fail("", InvalidValue("Status", TrimSpace(ToLower(str))))
  {
    EnumCodec.ParseCharacterization(Codec, str);
    LowerTrimCommute(str);
  }

  lemma KelvinSkip()
    ensures ToLower("S\U{212A}IP") == "skip" && Trimmed("skip")
  {
    var l := ToLower("S\U{212A}IP");
    assert l[0] == 's' && l[1] == 'k' && l[2] == 'i' && l[3] == 'p';
  }

  /** The Kelvin sign lower-cases to `k`, so `SKIP` spelt with it is skip. */
  lemma ParseFoldsKelvinSign()
    ensures ParseStr2Status("S\U{212A}IP") == Ok(SkipStatus)
  {
    KelvinSkip();
    TrimSpaceKeepsTrimmed("skip");
    assert SkipStatus in Statuses;
  }

  lemma StringAndValue(s: Status)
    ensures s !in Statuses ==> String(s) == "Unknown"
    ensures s in Statuses ==> String(s) == s
    ensures Value(s) == String(s)
  {
  }

  /** A NULL column scans as pending. */
  lemma ScanNullAndOtherTypes(current: Status)
    ensures Scan(current, EnumCodec.Null) == Ok(PendingStatus)
    ensures Scan(current, EnumCodec.OtherType) == Fail(current, InvalidScanType("Status"))
  {
  }

  lemma ScanOfText(current: Status, str: string)
    ensures Scan(current, EnumCodec.Str(str)) == Scan(current, EnumCodec.Bytes(str))
    ensures Scan(current, EnumCodec.Str(str)).IsOk() <==> ParseStr2Status(str).IsOk()
    ensures Scan(current, EnumCodec.Str(str)).value == if ParseStr2Status(str).IsOk() then ParseStr2Status(str).value else current
  {
  }

  lemma UnmarshalJSONShort(current: Status, data: string)
    requires |data| < 2
    ensures UnmarshalJSON(current, data) == Fail(current, InvalidJson("Status"))
  {
  }

  lemma UnmarshalOfMarshal(current: Status, s: Status)
    requires s in Statuses
    ensures UnmarshalJSON(current, MarshalJSON(s)) == Ok(s)
  {
    CodecWellFormed();
    EnumCodec.UnmarshalOfMarshal(Codec, current, s);
  }
}
