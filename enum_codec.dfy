/** The shape shared by the three closed string enums of the application
    (`WeekDay`, `ActivityType`, `Status`): a table of names, a parser that
    normalises its input and looks it up, `String` with a fallback word,
    the SQL `Scan`/`Value` pair and the JSON `MarshalJSON`/`UnmarshalJSON`
    pair. Each enum module instantiates a `Codec` with its own table. */
module EnumCodec {
  import opened Wrappers
  import opened Text

  /** How the parser normalises its input before the lookup. */
  datatype Fold =
    | TrimOnly         // strings.TrimSpace(s)
    | TrimThenLower    // strings.ToLower(strings.TrimSpace(s))
    | LowerThenTrim    // strings.TrimSpace(strings.ToLower(s))

  /** A closed enum: its name for errors, the valid names (each value's
      `String()` is the value itself), the normalisation, the word `String`
      returns for a value outside the table, and the value `Scan(nil)` stores. */
  datatype Codec = Codec(kind: string, names: seq<string>, fold: Fold, unknown: string, nullDefault: string)

  /** A value handed to `Scan` by the SQL driver. `Bytes` carries the bytes
      already read as text. */
  datatype DbValue = Null | Bytes(data: string) | Str(s: string) | OtherType

  function Normalize(c: Codec, s: string): string {
    match c.fold
    case TrimOnly => TrimSpace(s)
    case TrimThenLower => ToLower(TrimSpace(s))
    case LowerThenTrim => TrimSpace(ToLower(s))
  }

  /** What makes a table usable: every name survives normalisation and the
      `Scan(nil)` default is one of the names. */
  ghost predicate WellFormed(c: Codec) {
    && (forall n :: n in c.names ==> Trimmed(n) && (c.fold != TrimOnly ==> NoUpper(n)))
    && c.nullDefault in c.names
  }

  function String(c: Codec, v: string): string {
    if v in c.names then v else c.unknown
  }

  /** `ParseStr2X`: the value, or the empty value with an error. */
  function Parse(c: Codec, s: string): Ret<string> {
    var n := Normalize(c, s);
    if n in c.names then Ok(n) else Fail("", InvalidValue(c.kind, n))
  }

  /** `Value()` always returns `String()` and no error. */
  function Value(c: Codec, v: string): string {
    String(c, v)
  }

  /** `(*X).Scan`: the receiver's value after the call, and the error. On an
      error the receiver keeps its value `current`. */
  function Scan(c: Codec, current: string, value: DbValue): Ret<string> {
    match value
    case Null => Ok(c.nullDefault)
    case OtherType => Fail(current, InvalidScanType(c.kind))
    case Bytes(s) => Assign(current, Parse(c, s))
    case Str(s) => Assign(current, Parse(c, s))
  }

  function MarshalJSON(c: Codec, v: string): string {
    "\"" + String(c, v) + "\""
  }

  /** `(*X).UnmarshalJSON`: drops the first and the last character of the
      input without looking at them, then parses the rest. */
  function UnmarshalJSON(c: Codec, current: string, data: string): Ret<string> {
    if |data| < 2 then Fail(current, InvalidJson(c.kind))
    else Assign(current, Parse(c, data[1..|data| - 1]))
  }

  /** `*w = v` happens only when the parse succeeded. */
  function Assign(current: string, parsed: Ret<string>): Ret<string> {
    if parsed.IsOk() then parsed else Ret(current, parsed.err)
  }

  lemma NormalizeKeepsNames(c: Codec, n: string)
    requires WellFormed(c) && n in c.names
    ensures Normalize(c, n) == n
  {
    TrimSpaceKeepsTrimmed(n);
    if c.fold != TrimOnly {
      ToLowerKeepsLower(n);
    }
  }

  /** The database round trip: `Scan` of what `Value` writes succeeds
      exactly for a valid value, and gives that value back. */
  lemma ScanOfValue(c: Codec, current: string, v: string)
    requires WellFormed(c) && Normalize(c, c.unknown) == c.unknown && c.unknown !in c.names
    ensures Scan(c, current, Str(Value(c, v))).IsOk() <==> v in c.names
    ensures v in c.names ==> Scan(c, current, Str(Value(c, v))) == Ok(v)
  {
    if v in c.names {
      NormalizeKeepsNames(c, v);
    }
  }

  /** Parsing the `String()` of a valid value gives the value back. */
  lemma ParseOfString(c: Codec, v: string)
    requires WellFormed(c) && v in c.names
    ensures Parse(c, String(c, v)) == Ok(v)
  {
    NormalizeKeepsNames(c, v);
  }

  /** The parser succeeds exactly on inputs whose normal form is a name; it
      then returns that name, and otherwise the empty value. */
  lemma ParseCharacterization(c: Codec, s: string)
    ensures Parse(c, s).IsOk() <==> Normalize(c, s) in c.names
    ensures Parse(c, s).IsOk() ==> Parse(c, s).value == Normalize(c, s)
    ensures !Parse(c, s).IsOk() ==> Parse(c, s).value == "" && Parse(c, s).err == Some(InvalidValue(c.kind, Normalize(c, s)))
  {
  }

  /** Printing a parsed value gives the normal form of the input. */
  lemma StringOfParse(c: Codec, s: string)
    requires Parse(c, s).IsOk()
    ensures String(c, Parse(c, s).value) == Normalize(c, s)
  {
  }

  lemma UnmarshalOfMarshal(c: Codec, current: string, v: string)
    requires WellFormed(c) && v in c.names
    ensures UnmarshalJSON(c, current, MarshalJSON(c, v)) == Ok(v)
  {
    var data := MarshalJSON(c, v);
    assert data[1..|data| - 1] == v;
    ParseOfString(c, v);
  }

  /** A value outside the table is marshalled as the fallback word; when
      that word does not parse, the receiver keeps its value. */
  lemma UnmarshalOfMarshalOutside(c: Codec, current: string, v: string)
    requires Normalize(c, c.unknown) !in c.names && v !in c.names
    ensures UnmarshalJSON(c, current, MarshalJSON(c, v)) == Fail(current, InvalidValue(c.kind, Normalize(c, c.unknown)))
  {
    var data := MarshalJSON(c, v);
    assert data[1..|data| - 1] == c.unknown;
  }

  /** Only the middle of the JSON input matters: any first and last
      character, quote or not, is dropped. */
  lemma UnmarshalIgnoresDelimiters(c: Codec, current: string, open: char, body: string, close: char)
    ensures UnmarshalJSON(c, current, [open] + body + [close]) == Assign(current, Parse(c, body))
  {
    var data := [open] + body + [close];
    assert data[1..|data| - 1] == body;
  }
}
