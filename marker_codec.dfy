/**
 * The tab-separated marker format: `Marker.to_string_headers`, `Marker.to_string`,
 * `Marker.from_string`, and the two-line preamble `OnSaveMarkers` writes and
 * `OnLoadMarkers` checks.
 *
 * A marker line is the 17 dataclass fields, each followed by a tab (strings quoted,
 * booleans as True/False, an unset float as None), then six world-space columns
 * joined by tabs. The world columns come from a foreign coordinate conversion, which
 * is a parameter here; the reader never looks at them.
 */
module MarkerCodec {
  import opened Wrappers
  import opened Text
  import opened Markers

  /** The magic prefix of the first line of a marker file (`const.MARKER_FILE_MAGICK_STRING`). */
  const MagicString: string := "##INVESALIUS3_MARKER_FILE_"

  /** The file version `OnSaveMarkers` writes and `OnLoadMarkers` accepts. */
  const CurrentVersion: int := 0

  /** Names of the six derived world-space columns. */
  const WorldNames: seq<string> :=
    ["x_world", "y_world", "z_world", "alpha_world", "beta_world", "gamma_world"]

  /** The foreign conversion `convert_invesalius_to_world(position, orientation)`, as a parameter. */
  type WorldConversion = (seq<Scalar>, seq<Scalar>) -> seq<Scalar>

  /** Why reading a marker file or a marker line fails. */
  datatype FormatError =
    | NotAMarkerFile            // the first line lacks the magic prefix
    | BadNumber(token: string)  // `float(...)` or `int(...)` raised

  function Quote(s: string): string { "\"" + s + "\"" }

  const HeaderNames: seq<string> := FieldNames + WorldNames

  /** `Marker.to_string_headers()`. */
  function HeaderLine(): string
  {
    Join(seq(|HeaderNames|, k requires 0 <= k < |HeaderNames| => Quote(HeaderNames[k])), '\t')
  }

  /** The header line holds the quoted field names, then the quoted world-column names, one per column. */
  lemma HeaderColumns()
    ensures Split(HeaderLine(), '\t') == seq(|HeaderNames|, k requires 0 <= k < |HeaderNames| => Quote(HeaderNames[k]))
  {
    HeaderNamesPlain();
    SplitJoin(seq(|HeaderNames|, k requires 0 <= k < |HeaderNames| => Quote(HeaderNames[k])), '\t');
  }

  lemma HeaderNamesPlain()
    ensures forall k :: 0 <= k < |HeaderNames| ==> '\t' !in Quote(HeaderNames[k])
  {
  }

  /** `str(v)` of a float field. */
  function ShowScalar(s: Scalar): string
  {
    match s
    case Unset => "None"
    case Num(n) => ShowInt(n)
  }

  /** How `to_string` writes one field: a quoted string, or `str()` of the value. */
  function ShowField(f: Field): string
  {
    match f
    case FloatVal(s) => ShowScalar(s)
    case StrVal(s) => Quote(s)
    case BoolVal(v) => if v then "True" else "False"
    case IntVal(i) => ShowInt(i)
  }

  /** The 17 field columns, in field order, as `to_string` shows them. */
  function Cells(m: Marker): (cells: seq<string>)
    ensures |cells| == FieldCount
    ensures forall j :: 0 <= j < FieldCount ==> cells[j] == ShowField(GetField(m, j))
  {
    seq(FieldCount, j requires 0 <= j < FieldCount => ShowField(GetField(m, j)))
  }

  /** The world columns: `N/A` for a missing value. */
  function WorldColumns(world: seq<Scalar>): string
  {
    Join(seq(|world|, k requires 0 <= k < |world| => if world[k].Unset? then "N/A" else ShowInt(world[k].n)), '\t')
  }

  /** The orientation `to_string` converts with: the marker's when all three angles are set, else zeros. */
  function ConvertedOrientation(m: Marker): seq<Scalar>
  {
    if m.OrientationSet() then m.Orientation() else [Num(0), Num(0), Num(0)]
  }

  /** `Marker.to_string()`: the shown fields, then the world columns. */
  function ToString(m: Marker, toWorld: WorldConversion): string
  {
    Terminated(Cells(m), '\t') + WorldColumns(toWorld(m.Position(), ConvertedOrientation(m)))
  }

  /** `float(tok)` as `from_string` applies it, with "None" read as `None`. */
  function ParseScalar(tok: string): Result<Scalar, FormatError>
  {
    if tok == "None" then Ok(Unset)
    else match ParseInt(tok)
      case Some(n) => Ok(Num(n))
      case None => Err(BadNumber(tok))
  }

  /** `tok[1:-1]`: drops the first and last character, empty for shorter tokens. */
  function Unquote(tok: string): string
  {
    if |tok| >= 2 then tok[1..|tok| - 1] else ""
  }

  /** How one column is read back into a field of type `t`, with an `int` branch for `session_id`. */
  function ParseField(t: FieldType, tok: string): (r: Result<Field, FormatError>)
    ensures r.Ok? ==> r.value.Type() == t
    ensures r.Err? ==> t in {FloatType, IntType}
  {
    match t
    case FloatType =>
      (match ParseScalar(tok)
       case Ok(s) => Ok(FloatVal(s))
       case Err(e) => Err(e))
    case StrType => Ok(StrVal(Unquote(tok)))
    case BoolType => Ok(BoolVal(tok == "True"))
    case IntType =>
      (match ParseInt(tok)
       case Some(i) => Ok(IntVal(i))
       case None => Err(BadNumber(tok)))
  }

  /** One column as the source's `from_string` reads it: no branch for `int`, so `None` (left untouched). */
  function ParseFieldAsWritten(t: FieldType, tok: string): (r: Result<Option<Field>, FormatError>)
    ensures r.Ok? && r.value.Some? ==> r.value.value.Type() == t
    ensures t == IntType ==> r == Ok(None)
  {
    if t == IntType then Ok(None)
    else match ParseField(t, tok)
      case Ok(f) => Ok(Some(f))
      case Err(e) => Err(e)
  }

  /**
   * The `zip(fields, tokens)` loop of `from_string` from field `k` on, applied to `acc`.
   * It stops at the shorter of the two lists, so fields without a column keep their value.
   */
  function DecodeFrom(acc: Marker, toks: seq<string>, k: nat): (r: Result<Marker, FormatError>)
    requires k <= FieldCount
    ensures r.Ok? ==> forall j :: 0 <= j < FieldCount && (j < k || j >= |toks|) ==>
                        GetField(r.value, j) == GetField(acc, j)
    decreases FieldCount - k
  {
    if k == FieldCount || k >= |toks| then Ok(acc)
    else match ParseField(FieldTypes[k], toks[k])
      case Err(e) => Err(e)
      case Ok(f) => DecodeFrom(SetField(acc, k, f), toks, k + 1)
  }

  /** The same loop with the source's field reader, which never assigns `session_id`. */
  function DecodeAsWrittenFrom(acc: Marker, toks: seq<string>, k: nat): (r: Result<Marker, FormatError>)
    requires k <= FieldCount
    ensures r.Ok? ==> r.value.sessionId == acc.sessionId
    decreases FieldCount - k
  {
    if k == FieldCount || k >= |toks| then Ok(acc)
    else match ParseFieldAsWritten(FieldTypes[k], toks[k])
      case Err(e) => Err(e)
      case Ok(None) => DecodeAsWrittenFrom(acc, toks, k + 1)
      case Ok(Some(f)) => DecodeAsWrittenFrom(SetField(acc, k, f), toks, k + 1)
  }

  /** `Marker().from_string(line)` as the source writes it. */
  function DecodeAsWritten(line: string): Result<Marker, FormatError>
  {
    DecodeAsWrittenFrom(DefaultMarker, Split(line, '\t'), 0)
  }

  /** Which `from_string` a loader uses: the source's, or one with an `int` branch for `session_id`. */
  datatype Reader = AsWritten | Corrected

  /** The `zip` loop of the chosen reader over the columns `toks`, applied to `acc`. */
  function ReadFrom(reader: Reader, acc: Marker, toks: seq<string>): Result<Marker, FormatError>
  {
    match reader
    case AsWritten => DecodeAsWrittenFrom(acc, toks, 0)
    case Corrected => DecodeFrom(acc, toks, 0)
  }

  /** `Marker().from_string(line)` with the chosen reader. */
  function ReadLine(reader: Reader, line: string): Result<Marker, FormatError>
  {
    ReadFrom(reader, DefaultMarker, Split(line, '\t'))
  }

  /** `m.from_string(line)`: assigns field after field until a column fails to parse. */
  method FromString(reader: Reader, m: Marker, line: string) returns (r: Result<Marker, FormatError>)
    ensures r == ReadFrom(reader, m, Split(line, '\t'))
  {
    var tokens := Split(line, '\t');
    var acc := m;
    var k := 0;
    while k < FieldCount && k < |tokens|
      invariant 0 <= k <= FieldCount
      invariant reader == Corrected ==> DecodeFrom(acc, tokens, k) == DecodeFrom(m, tokens, 0)
      invariant reader == AsWritten ==> DecodeAsWrittenFrom(acc, tokens, k) == DecodeAsWrittenFrom(m, tokens, 0)
    {
      if reader == AsWritten {
        var f := ParseFieldAsWritten(FieldTypes[k], tokens[k]);
        if f.Err? {
          return Err(f.error);
        }
        if f.value.Some? {
          acc := SetField(acc, k, f.value.value);
        }
      } else {
        var f := ParseField(FieldTypes[k], tokens[k]);
        if f.Err? {
          return Err(f.error);
        }
        acc := SetField(acc, k, f.value);
      }
      k := k + 1;
    }
    return Ok(acc);
  }

  /**
   * A marker whose line survives the tab split and the line structure of the file:
   * `readlines()` in text mode ends a line at `\n` and at `\r`.
   */
  predicate Serializable(m: Marker)
  {
    '\t' !in m.labelText && '\n' !in m.labelText && '\r' !in m.labelText
  }

  lemma ShowScalarPlain(s: Scalar)
    ensures '\t' !in ShowScalar(s)
  {
    if s.Num? {
      ShowIntPlain(s.n);
    }
  }

  /** Every column `to_string` writes for a field reads back as that field. */
  lemma FieldRoundTrip(f: Field)
    ensures f.StrVal? ==> ParseField(StrType, ShowField(f)) == Ok(f)
    ensures !f.StrVal? ==> ParseField(f.Type(), ShowField(f)) == Ok(f)
  {
    match f
    case FloatVal(s) =>
      if s.Num? {
        ParseShowInt(s.n);
        assert ShowInt(s.n) != "None" by {
          var t := ShowInt(s.n);
          assert t[0] == '-' || IsDigit(t[0]);
        }
      }
    case StrVal(s) =>
      assert Quote(s)[1..|Quote(s)| - 1] == s;
    case BoolVal(_) =>
    case IntVal(i) =>
      ParseShowInt(i);
  }

  lemma ShowFieldPlain(f: Field)
    requires f.StrVal? ==> '\t' !in f.s
    ensures '\t' !in ShowField(f)
  {
    match f
    case FloatVal(s) => ShowScalarPlain(s);
    case StrVal(s) =>
    case BoolVal(_) =>
    case IntVal(i) => ShowIntPlain(i);
  }

  lemma {:induction false} DecodeShownFields(acc: Marker, toks: seq<string>, k: nat, m: Marker)
    requires k <= FieldCount && |toks| >= FieldCount
    requires forall j :: k <= j < FieldCount ==> toks[j] == ShowField(GetField(m, j))
    requires forall j :: 0 <= j < k ==> GetField(acc, j) == GetField(m, j)
    ensures DecodeFrom(acc, toks, k) == Ok(m)
    decreases FieldCount - k
  {
    if k == FieldCount {
      FieldsDetermineMarker(acc, m);
    } else {
      var f := GetField(m, k);
      FieldRoundTrip(f);
      DecodeShownFields(SetField(acc, k, f), toks, k + 1, m);
    }
  }

  /** Two markers that agree on every field but `session_id` differ at most in it. */
  lemma AllButSessionDetermine(acc: Marker, m: Marker)
    requires forall j :: 0 <= j < FieldCount && j != 15 ==> GetField(acc, j) == GetField(m, j)
    ensures acc == m.(sessionId := acc.sessionId)
  {
    var want := SetField(m, 15, IntVal(acc.sessionId));
    assert GetField(acc, 15) == IntVal(acc.sessionId);
    FieldsDetermineMarker(acc, want);
  }

  /** The source's reader takes a shown column of any field but `session_id` as that field. */
  lemma AsWrittenShownStep(acc: Marker, toks: seq<string>, k: nat, f: Field)
    requires k < FieldCount && k != 15 && k < |toks| && f.Type() == FieldTypes[k]
    requires toks[k] == ShowField(f)
    ensures SetField(acc, k, f).sessionId == acc.sessionId
    ensures DecodeAsWrittenFrom(acc, toks, k) == DecodeAsWrittenFrom(SetField(acc, k, f), toks, k + 1)
  {
    FieldRoundTrip(f);
    assert GetField(SetField(acc, k, f), 15) == GetField(acc, 15);
  }

  lemma {:induction false} DecodeAsWrittenShownFields(acc: Marker, toks: seq<string>, k: nat, m: Marker)
    requires k <= FieldCount && |toks| >= FieldCount
    requires forall j :: k <= j < FieldCount ==> toks[j] == ShowField(GetField(m, j))
    requires forall j :: 0 <= j < k && j != 15 ==> GetField(acc, j) == GetField(m, j)
    ensures DecodeAsWrittenFrom(acc, toks, k) == Ok(m.(sessionId := acc.sessionId))
    decreases FieldCount - k
  {
    if k == FieldCount {
      AllButSessionDetermine(acc, m);
    } else if k == 15 {
      DecodeAsWrittenShownFields(acc, toks, k + 1, m);
    } else {
      var f := GetField(m, k);
      AsWrittenShownStep(acc, toks, k, f);
      DecodeAsWrittenShownFields(SetField(acc, k, f), toks, k + 1, m);
    }
  }

  /**
   * Reading back what `to_string` wrote restores every field, including an unset
   * orientation and `session_id`, whatever marker the reader starts from; the world
   * columns are never read.
   */
  lemma RoundTrip(m: Marker, toWorld: WorldConversion, start: Marker)
    requires '\t' !in m.labelText
    ensures DecodeFrom(start, Split(ToString(m, toWorld), '\t'), 0) == Ok(m)
  {
    var toks := ShownColumns(m, toWorld);
    DecodeShownFields(start, toks, 0, m);
  }

  /**
   * With the source's reader every field comes back except `session_id`, which keeps
   * the dataclass default 1: a marker from any other session is not restored.
   */
  lemma SessionIdNotRestored(m: Marker, toWorld: WorldConversion)
    requires '\t' !in m.labelText
    ensures DecodeAsWritten(ToString(m, toWorld)) == Ok(m.(sessionId := 1))
    ensures m.sessionId != 1 ==> DecodeAsWritten(ToString(m, toWorld)) != Ok(m)
  {
    var toks := ShownColumns(m, toWorld);
    DecodeAsWrittenShownFields(DefaultMarker, toks, 0, m);
  }

  /** The marker a reader gives back for `m`'s line: `m` itself, except that the source's reader leaves `session_id` at 1. */
  function Reread(reader: Reader, m: Marker): Marker
  {
    if reader == AsWritten then m.(sessionId := 1) else m
  }

  /** Each reader gives back what `Reread` says for a line `to_string` wrote. */
  lemma ReadBack(reader: Reader, m: Marker, toWorld: WorldConversion)
    requires '\t' !in m.labelText
    ensures ReadLine(reader, ToString(m, toWorld)) == Ok(Reread(reader, m))
    ensures reader == AsWritten && m.sessionId != 1 ==> ReadLine(reader, ToString(m, toWorld)) != Ok(m)
  {
    match reader
    case AsWritten => SessionIdNotRestored(m, toWorld);
    case Corrected => RoundTrip(m, toWorld, DefaultMarker);
  }

  /** The columns of a marker line: the 17 shown fields, then the world columns. */
  lemma ShownColumns(m: Marker, toWorld: WorldConversion) returns (toks: seq<string>)
    requires '\t' !in m.labelText
    ensures toks == Split(ToString(m, toWorld), '\t')
    ensures |toks| > FieldCount
    ensures forall j :: 0 <= j < FieldCount ==> toks[j] == ShowField(GetField(m, j))
    ensures toks[FieldCount..] == Split(WorldColumns(toWorld(m.Position(), ConvertedOrientation(m))), '\t')
  {
    var world := WorldColumns(toWorld(m.Position(), ConvertedOrientation(m)));
    var cells := Cells(m);
    forall j | 0 <= j < |cells|
      ensures '\t' !in cells[j]
    {
      ShowFieldPlain(GetField(m, j));
    }
    SplitTerminated(cells, world, '\t');
    toks := Split(ToString(m, toWorld), '\t');
  }

  /** The first line `OnSaveMarkers` writes: the magic prefix and the version number. */
  function MagicLine(): string
  {
    MagicString + ShowInt(CurrentVersion)
  }

  /** The lines `to_string` produces for a marker list, one per marker. */
  function MarkerLines(ms: seq<Marker>, toWorld: WorldConversion): (lines: seq<string>)
    ensures |lines| == |ms|
  {
    seq(|ms|, k requires 0 <= k < |ms| => ToString(ms[k], toWorld))
  }

  /** One marker more adds its line at the end. */
  lemma MarkerLinesSnoc(ms: seq<Marker>, m: Marker, toWorld: WorldConversion)
    ensures MarkerLines(ms + [m], toWorld) == MarkerLines(ms, toWorld) + [ToString(m, toWorld)]
  {
    var a, b := MarkerLines(ms + [m], toWorld), MarkerLines(ms, toWorld) + [ToString(m, toWorld)];
    assert forall k :: 0 <= k < |ms| ==> a[k] == b[k];
  }

  /** The lines `OnSaveMarkers` writes: the magic line, the header line, then one line per marker. */
  function SaveLines(ms: seq<Marker>, toWorld: WorldConversion): (lines: seq<string>)
    ensures |lines| == |ms| + 2
  {
    [MagicLine(), HeaderLine()] + MarkerLines(ms, toWorld)
  }

  /**
   * The check `OnLoadMarkers` makes of the first line: it must start with the magic
   * prefix (an assertion), and its last `_`-separated part must be an integer.
   */
  function FileVersion(firstLine: string): (r: Result<int, FormatError>)
    ensures r.Ok? ==> MagicString <= firstLine
  {
    if !(MagicString <= firstLine) then Err(NotAMarkerFile)
    else
      var parts := Split(firstLine, '_');
      match ParseInt(parts[|parts| - 1])
      case Some(v) => Ok(v)
      case None => Err(BadNumber(parts[|parts| - 1]))
  }

  /** A magic line written for version `v` reads back as version `v`. */
  lemma VersionLine(v: int)
    ensures FileVersion(MagicString + ShowInt(v)) == Ok(v)
  {
    var stem := "##INVESALIUS3_MARKER_FILE";
    assert MagicString == stem + ['_'];
    ShowIntPlain(v);
    LastPiece(stem, ShowInt(v), '_');
    ParseShowInt(v);
  }

  /** The first line of a saved file announces the version the reader accepts. */
  lemma SavedFileVersion()
    ensures FileVersion(MagicLine()) == Ok(CurrentVersion)
  {
    VersionLine(CurrentVersion);
  }

  lemma LastPiece(stem: string, tail: string, sep: char)
    requires sep !in tail
    ensures var parts := Split(stem + [sep] + tail, sep); parts[|parts| - 1] == tail
  {
    SplitAppend(stem, tail, sep);
    SplitNoSeparator(tail, sep);
  }
}
