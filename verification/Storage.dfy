/** Values, their equality and partial order, and stored rows (src/storage.rs). */
module Storage {
  import opened Wrappers

  datatype Ordering = Less | Equal | Greater {
    function Reverse(): Ordering {
      match this
      case Less => Greater
      case Equal => Equal
      case Greater => Less
    }
  }

  const TWO63: int := 0x8000_0000_0000_0000

  /** A 64-bit integer. */
  type i64 = x: int | -TWO63 <= x < TWO63

  predicate InI64(x: int) {
    -TWO63 <= x < TWO63
  }

  /** Two's complement: what 64 bits keep of an integer. */
  function Wrap64(x: int): i64 {
    var low: int := (x + TWO63) % (2 * TWO63);
    low - TWO63
  }

  /** A 64-bit float, known only by its bit pattern. */
  datatype F64 = F64(bits: int)

  /** Float arithmetic. `rank` is None on NaN and otherwise places a float on the number line, with
      one rank for both zeros; nothing else is assumed about any of these operations. */
  datatype FloatArithmetic = FloatArithmetic(
    rank: F64 -> Option<int>,
    ofInt: int -> F64,
    add: (F64, F64) -> F64,
    sub: (F64, F64) -> F64,
    mul: (F64, F64) -> F64,
    div: (F64, F64) -> F64,
    show: F64 -> string)

  // Left without a value: every theorem holds for every float arithmetic.
  const IEEE754: FloatArithmetic

  function CompareInts(a: int, b: int): Ordering {
    if a < b then Less else if a == b then Equal else Greater
  }

  function CompareFloats(a: F64, b: F64): Option<Ordering> {
    match (IEEE754.rank(a), IEEE754.rank(b))
    case (Some(x), Some(y)) => Some(CompareInts(x, y))
    case _ => None
  }

  /** Lexicographic order by code point, the order of UTF-8 bytes. */
  function CompareStrings(a: string, b: string): Ordering {
    if a == "" then (if b == "" then Equal else Less)
    else if b == "" then Greater
    else if a[0] == b[0] then CompareStrings(a[1..], b[1..])
    else CompareInts(a[0] as int, b[0] as int)
  }

  function CompareBools(a: bool, b: bool): Ordering {
    if a == b then Equal else if b then Less else Greater
  }

  function ShowNat(n: nat): (s: string) {
    if n < 10 then [Digit(n)] else ShowNat(n / 10) + [Digit(n % 10)]
  }

  function Digit(d: nat): char
    requires d < 10
  {
    ('0' as int + d) as char
  }

  function ShowInt(i: int): string {
    if i < 0 then "-" + ShowNat(-i) else ShowNat(i)
  }

  function ShowBool(b: bool): string {
    if b then "true" else "false"
  }

  datatype Value = Null | Int(i: i64) | Float(f: F64) | Varchar(s: string) | Bool(b: bool) {

    predicate IsTruthy() {
      match this
      case Bool(v) => v
      case Null => false
      case _ => true
    }

    /** `==` of the engine: Int and Float compare as floats, other mixed kinds are unequal. */
    predicate Equals(other: Value) {
      match (this, other)
      case (Null, Null) => true
      case (Int(a), Int(b)) => a == b
      case (Float(a), Float(b)) => CompareFloats(a, b) == Some(Equal)
      case (Int(a), Float(b)) => CompareFloats(IEEE754.ofInt(a), b) == Some(Equal)
      case (Float(a), Int(b)) => CompareFloats(a, IEEE754.ofInt(b)) == Some(Equal)
      case (Varchar(a), Varchar(b)) => a == b
      case (Bool(a), Bool(b)) => a == b
      case _ => false
    }

    function PartialCmp(other: Value): Option<Ordering> {
      match (this, other)
      case (Null, Null) => Some(Equal)
      case (Int(a), Int(b)) => Some(CompareInts(a, b))
      case (Float(a), Float(b)) => CompareFloats(a, b)
      case (Int(a), Float(b)) => CompareFloats(IEEE754.ofInt(a), b)
      case (Float(a), Int(b)) => CompareFloats(a, IEEE754.ofInt(b))
      case (Varchar(a), Varchar(b)) => Some(CompareStrings(a, b))
      case (Bool(a), Bool(b)) => Some(CompareBools(a, b))
      case _ => None
    }

    function Display(): string {
      match this
      case Null => "NULL"
      case Int(v) => ShowInt(v)
      case Float(v) => IEEE754.show(v)
      case Varchar(v) => v
      case Bool(v) => ShowBool(v)
    }
  }

  /** A row: column values, the transaction that wrote it (None: system data) and the SCN then. */
  datatype Tuple = Tuple(values: seq<Value>, txId: Option<nat>, scn: nat)

  function Plain(values: seq<Value>): Tuple {
    Tuple(values, None, 0)
  }

  // Strings are totally ordered.

  lemma {:induction false} CompareStringsEqual(a: string, b: string)
    ensures CompareStrings(a, b) == Equal <==> a == b
  {
    if a != "" && b != "" {
      CompareStringsEqual(a[1..], b[1..]);
      assert a == [a[0]] + a[1..] && b == [b[0]] + b[1..];
    }
  }

  lemma {:induction false} CompareStringsReverse(a: string, b: string)
    ensures CompareStrings(b, a) == CompareStrings(a, b).Reverse()
  {
    if a != "" && b != "" {
      CompareStringsReverse(a[1..], b[1..]);
    }
  }

  lemma {:induction false} CompareStringsTransitive(a: string, b: string, c: string)
    requires CompareStrings(a, b) != Greater && CompareStrings(b, c) != Greater
    ensures CompareStrings(a, c) != Greater
  {
    if a != "" && b != "" && c != "" && a[0] == b[0] == c[0] {
      CompareStringsTransitive(a[1..], b[1..], c[1..]);
    }
  }

  /** `==` is exactly the Equal case of the partial order. */
  lemma EqualsIsCmpEqual(a: Value, b: Value)
    ensures a.Equals(b) <==> a.PartialCmp(b) == Some(Equal)
  {
    if a.Varchar? && b.Varchar? {
      CompareStringsEqual(a.s, b.s);
    }
  }
}
