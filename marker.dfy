/**
 * The `MarkersPanel.Marker` dataclass: 17 fields in declaration order, the grouped
 * accessors (position, orientation, colour, seed, coordinate) and `to_dict`.
 *
 * Python does not enforce the `float` annotations, and `from_string` stores `None`
 * into any float field that reads "None", so every float field is a `Scalar`:
 * Python's `None` or a number. Numbers are integers here (see README).
 */
module Markers {

  datatype Scalar = Unset | Num(n: int)

  /** Python truthiness of a float field: `None` and zero are false. */
  predicate Truthy(s: Scalar) { s.Num? && s.n != 0 }

  datatype Marker = Marker(
    x: Scalar, y: Scalar, z: Scalar,
    alpha: Scalar, beta: Scalar, gamma: Scalar,
    r: Scalar, g: Scalar, b: Scalar,
    size: Scalar,
    labelText: string,
    xSeed: Scalar, ySeed: Scalar, zSeed: Scalar,
    isTarget: bool,
    sessionId: int,
    isBrainTarget: bool)
  {
    function Position(): seq<Scalar> { [x, y, z] }
    function Orientation(): seq<Scalar> { [alpha, beta, gamma] }
    function Coordinate(): seq<Scalar> { Position() + Orientation() }
    function Colour(): seq<Scalar> { [r, g, b] }
    function Seed(): seq<Scalar> { [xSeed, ySeed, zSeed] }

    /** All three orientation angles are set (the source's `arrow_flag`). */
    predicate OrientationSet() { alpha.Num? && beta.Num? && gamma.Num? }
  }

  /** A marker built with no arguments: the dataclass defaults. */
  const DefaultMarker: Marker :=
    Marker(Num(0), Num(0), Num(0), Unset, Unset, Unset, Num(0), Num(1), Num(0), Num(2),
           "*", Num(0), Num(0), Num(0), false, 1, false)

  /** The declared type of a dataclass field, as `from_string` tests it. */
  datatype FieldType = FloatType | StrType | BoolType | IntType

  /** The value of one field, tagged with its type. */
  datatype Field = FloatVal(f: Scalar) | StrVal(s: string) | BoolVal(v: bool) | IntVal(i: int)
  {
    function Type(): FieldType
    {
      match this
      case FloatVal(_) => FloatType
      case StrVal(_) => StrType
      case BoolVal(_) => BoolType
      case IntVal(_) => IntType
    }
  }

  const FieldCount := 17

  /** `dataclasses.fields(Marker)`, names in declaration order. */
  const FieldNames: seq<string> :=
    ["x", "y", "z", "alpha", "beta", "gamma", "r", "g", "b", "size", "label",
     "x_seed", "y_seed", "z_seed", "is_target", "session_id", "is_brain_target"]

  /** `dataclasses.fields(Marker)`, annotated types in declaration order. */
  const FieldTypes: seq<FieldType> :=
    [FloatType, FloatType, FloatType, FloatType, FloatType, FloatType,
     FloatType, FloatType, FloatType, FloatType, StrType,
     FloatType, FloatType, FloatType, BoolType, IntType, BoolType]

  /** `getattr(m, fields[k].name)`. */
  function GetField(m: Marker, k: nat): (f: Field)
    requires k < FieldCount
    ensures f.Type() == FieldTypes[k]
    ensures f.StrVal? ==> f.s == m.labelText
  {
    match k
    case 0 => FloatVal(m.x)
    case 1 => FloatVal(m.y)
    case 2 => FloatVal(m.z)
    case 3 => FloatVal(m.alpha)
    case 4 => FloatVal(m.beta)
    case 5 => FloatVal(m.gamma)
    case 6 => FloatVal(m.r)
    case 7 => FloatVal(m.g)
    case 8 => FloatVal(m.b)
    case 9 => FloatVal(m.size)
    case 10 => StrVal(m.labelText)
    case 11 => FloatVal(m.xSeed)
    case 12 => FloatVal(m.ySeed)
    case 13 => FloatVal(m.zSeed)
    case 14 => BoolVal(m.isTarget)
    case 15 => IntVal(m.sessionId)
    case 16 => BoolVal(m.isBrainTarget)
  }

  /** `setattr(m, fields[k].name, f)` with a value of the field's own type. */
  function SetField(m: Marker, k: nat, f: Field): (r: Marker)
    requires k < FieldCount && f.Type() == FieldTypes[k]
    ensures GetField(r, k) == f
    ensures forall j :: 0 <= j < FieldCount && j != k ==> GetField(r, j) == GetField(m, j)
  {
    match k
    case 0 => m.(x := f.f)
    case 1 => m.(y := f.f)
    case 2 => m.(z := f.f)
    case 3 => m.(alpha := f.f)
    case 4 => m.(beta := f.f)
    case 5 => m.(gamma := f.f)
    case 6 => m.(r := f.f)
    case 7 => m.(g := f.f)
    case 8 => m.(b := f.f)
    case 9 => m.(size := f.f)
    case 10 => m.(labelText := f.s)
    case 11 => m.(xSeed := f.f)
    case 12 => m.(ySeed := f.f)
    case 13 => m.(zSeed := f.f)
    case 14 => m.(isTarget := f.v)
    case 15 => m.(sessionId := f.i)
    case 16 => m.(isBrainTarget := f.v)
  }

  /** Two markers that agree on all 17 fields are the same marker. */
  lemma FieldsDetermineMarker(a: Marker, c: Marker)
    requires forall k :: 0 <= k < FieldCount ==> GetField(a, k) == GetField(c, k)
    ensures a == c
  {
    assert GetField(a, 0) == GetField(c, 0) && GetField(a, 1) == GetField(c, 1);
    assert GetField(a, 2) == GetField(c, 2) && GetField(a, 3) == GetField(c, 3);
    assert GetField(a, 4) == GetField(c, 4) && GetField(a, 5) == GetField(c, 5);
    assert GetField(a, 6) == GetField(c, 6) && GetField(a, 7) == GetField(c, 7);
    assert GetField(a, 8) == GetField(c, 8) && GetField(a, 9) == GetField(c, 9);
    assert GetField(a, 10) == GetField(c, 10) && GetField(a, 11) == GetField(c, 11);
    assert GetField(a, 12) == GetField(c, 12) && GetField(a, 13) == GetField(c, 13);
    assert GetField(a, 14) == GetField(c, 14) && GetField(a, 15) == GetField(c, 15);
    assert GetField(a, 16) == GetField(c, 16);
  }

  /** The dictionary `Marker.to_dict` builds for the session file; it has no `is_brain_target` key. */
  datatype MarkerDict = MarkerDict(
    position: seq<Scalar>,
    orientation: seq<Scalar>,
    colour: seq<Scalar>,
    size: Scalar,
    labelText: string,
    isTarget: bool,
    seed: seq<Scalar>,
    sessionId: int)

  function ToDict(m: Marker): (d: MarkerDict)
    ensures |d.position| == 3 && |d.orientation| == 3 && |d.colour| == 3 && |d.seed| == 3
    ensures d.position + d.orientation == m.Coordinate()
    ensures d.colour == m.Colour() && d.seed == m.Seed() && d.size == m.size
    ensures d.isTarget == m.isTarget && d.labelText == m.labelText && d.sessionId == m.sessionId
  {
    MarkerDict(m.Position(), m.Orientation(), m.Colour(), m.size, m.labelText, m.isTarget, m.Seed(), m.sessionId)
  }
}
