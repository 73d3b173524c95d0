/**
 * Cell values of the working table and the conversions pandas applies to
 * them. Whatever pandas or the clock decides on its own (how a missing value,
 * a float or a timestamp is rendered as text, how dates and times are parsed,
 * which weekday a date falls on, the current year) is a parameter: `Env`.
 */
module Values {
  import opened Wrappers
  import opened Text

  datatype CalDate = CalDate(year: int, month: int, day: int)
  datatype ClockTime = ClockTime(hour: int, minute: int, second: int)
  datatype Timestamp = Timestamp(date: CalDate, time: ClockTime)

  /**
   * One cell. `Null` is every missing marker (NA, NaN, NaT, None); `Float`
   * carries a Float64 or float64 number exactly. Which marker a missing cell
   * holds is fixed by the stage that reads it, not by the cell: see
   * `MissingAs`.
   */
  datatype Value =
    | Null
    | Int(i: int)
    | Float(x: real)
    | Str(s: string)
    | Date(d: CalDate)
    | Time(t: ClockTime)
    | Stamp(ts: Timestamp)

  /** Behaviour that belongs to pandas and the host, not to the transformation. */
  datatype Env = Env(
    /**
     * `str(v)` of a cell that is not text or an integer (missing, float, date,
     * time, timestamp); a missing cell here is the raw input's marker (NaN)
     */
    text: Value -> string,
    /** `str(pd.NA)`, the text of a missing cell that the transformation wrote itself */
    naText: string,
    /** `str(pd.NaT)`, the text of a date or time that failed to parse */
    natText: string,
    /** `pd.to_datetime(s, format="%Y-%m-%d", errors="coerce")` */
    parseDate: string -> Option<CalDate>,
    /** `pd.to_datetime(s, format="%H:%M:%S", errors="coerce").dt.time` */
    parseTime: string -> Option<ClockTime>,
    /** `pd.to_datetime(s, errors="coerce")` with no format */
    parseStamp: string -> Option<Timestamp>,
    /** `.dt.weekday` (Monday is 0) */
    weekday: CalDate -> int,
    /** `datetime.now().year` */
    currentYear: int)

  /** `str(v)`, as `Series.astype(str)` applies it to each cell. */
  function Render(env: Env, v: Value): string {
    match v
    case Str(s) => s
    case Int(i) => IntText(i)
    case _ => env.text(v)
  }

  /** `env` as seen by a stage whose missing cells all hold the marker whose text is `missing`. */
  function MissingAs(env: Env, missing: string): (w: Env)
    ensures w.text(Null) == missing
    ensures forall v: Value :: !v.Null? ==> w.text(v) == env.text(v)
    ensures w.(text := env.text) == env
  {
    env.(text := (v: Value) => if v.Null? then missing else env.text(v))
  }

  /**
   * The behaviour seen by a stage whose missing cells were all written by
   * the transformation as `pd.NA` (the pre-clean's `replace("", pd.NA)` and
   * every `astype("string")`): a missing cell renders as `naText`.
   */
  function Written(env: Env): Env {
    MissingAs(env, env.naText)
  }

  /**
   * The behaviour seen by a stage that reads the parsed `data` and `horario`
   * columns, whose missing cells are `NaT`: a missing cell renders as `natText`.
   */
  function Parsed(env: Env): Env {
    MissingAs(env, env.natText)
  }

  /** `Series.astype("string")`: missing stays missing, everything else becomes its text. */
  function AsString(env: Env, v: Value): (r: Value)
    ensures r.Null? <==> v.Null?
    ensures v.Str? ==> r == v
    ensures r.Null? || r.Str?
    ensures !v.Null? ==> r == Str(Render(env, v))
  {
    if v.Null? then Null else Str(Render(env, v))
  }

  /** `pd.to_numeric(v, errors="coerce")`; `None` is NaN. */
  function ToNumeric(v: Value): Option<real> {
    match v
    case Int(i) => Some(i as real)
    case Float(x) => Some(x)
    case Str(s) => ParseNumber(s)
    case _ => None
  }

  /** `pd.to_numeric(v, errors="coerce").fillna(0)`. */
  function NumericOrZero(v: Value): real {
    match ToNumeric(v)
    case Some(x) => x
    case None => 0.0
  }

  /** Python's `int(x)` on a float: truncation toward zero. */
  function Truncate(x: real): (r: int)
    ensures x >= 0.0 ==> r as real <= x < r as real + 1.0
    ensures x < 0.0 ==> r as real - 1.0 < x <= r as real
  {
    if x >= 0.0 then x.Floor else -((-x).Floor)
  }

  /** A whole number survives truncation exactly. */
  lemma TruncateOfWhole(x: real)
    requires IsIntegral(x)
    ensures Truncate(x) as real == x
  {
    var n := x.Floor;
    assert x == n as real;
    if x < 0.0 {
      assert -x == (-n) as real;
      assert ((-n) as real).Floor == -n;
    }
  }

  /** Python's `int(v)` on a cell that is not missing; `None` is a raised error. */
  function PyInt(v: Value): Option<int> {
    match v
    case Int(i) => Some(i)
    case Float(x) => Some(Truncate(x))
    case Str(s) => ParseInt(s)
    case _ => None
  }

  /** What `Series.astype("Float64")` does with one cell. */
  datatype FloatCast = Missing | Number(x: real) | Invalid

  function CastToFloat(v: Value): FloatCast {
    match v
    case Null => Missing
    case Int(i) => Number(i as real)
    case Float(x) => Number(x)
    case Str(s) => if ParseNumber(s).Some? then Number(ParseNumber(s).value) else Invalid
    case _ => Invalid
  }

  /**
   * A cell as the left operand of `>` or `<` against an integer: missing
   * compares false, numbers compare, anything else raises (`Invalid`).
   */
  function CompareView(v: Value): FloatCast {
    match v
    case Null => Missing
    case Int(i) => Number(i as real)
    case Float(x) => Number(x)
    case _ => Invalid
  }

  function IsIntegral(x: real): bool {
    x.Floor as real == x
  }
}
