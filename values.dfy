/** The scalar cells of an extracted table, tagged with their Python runtime
    type, and the Python operations the checks apply to them: truthiness,
    `+`, `-`, `abs`, comparison with a number, `int()` and `sum()`.
    Floating-point cells carry a `real`; rounding is not modelled. */
module Values {
  import opened Wrappers
  import opened Exceptions
  import opened Strings

  datatype Value = Int(i: int) | Float(r: real) | Str(s: string) | NoneValue

  predicate IsNumeric(v: Value) { v.Int? || v.Float? }

  function AsReal(v: Value): real
    requires IsNumeric(v)
  {
    if v.Int? then v.i as real else v.r
  }

  /** Python's `bool(v)`. */
  predicate Truthy(v: Value) {
    match v
    case Int(i) => i != 0
    case Float(r) => r != 0.0
    case Str(s) => s != ""
    case NoneValue => false
  }

  /** `v == 0`: only numeric zeros compare equal to the integer zero. */
  predicate EqualsZero(v: Value) {
    IsNumeric(v) && AsReal(v) == 0.0
  }

  /** `a + b`: numbers add (an int result only for two ints), strings
      concatenate, anything else raises TypeError. */
  function Add(a: Value, b: Value): (r: Result<Value, Exc>)
    ensures r.Ok? <==> (IsNumeric(a) && IsNumeric(b)) || (a.Str? && b.Str?)
    ensures r.Ok? && IsNumeric(a) ==>
      IsNumeric(r.value) && AsReal(r.value) == AsReal(a) + AsReal(b) && (r.value.Int? <==> a.Int? && b.Int?)
  {
    match (a, b)
    case (Int(x), Int(y)) => Ok(Int(x + y))
    case (Int(x), Float(y)) => Ok(Float(x as real + y))
    case (Float(x), Int(y)) => Ok(Float(x + y as real))
    case (Float(x), Float(y)) => Ok(Float(x + y))
    case (Str(x), Str(y)) => Ok(Str(x + y))
    case _ => Err(TypeError)
  }

  /** `a - b`: defined on numbers only. */
  function Sub(a: Value, b: Value): (r: Result<Value, Exc>)
    ensures r.Ok? <==> IsNumeric(a) && IsNumeric(b)
    ensures r.Ok? ==>
      IsNumeric(r.value) && AsReal(r.value) == AsReal(a) - AsReal(b) && (r.value.Int? <==> a.Int? && b.Int?)
  {
    match (a, b)
    case (Int(x), Int(y)) => Ok(Int(x - y))
    case (Int(x), Float(y)) => Ok(Float(x as real - y))
    case (Float(x), Int(y)) => Ok(Float(x - y as real))
    case (Float(x), Float(y)) => Ok(Float(x - y))
    case _ => Err(TypeError)
  }

  /** `abs(v)` of a number. */
  function Abs(v: Value): (r: Value)
    requires IsNumeric(v)
    ensures IsNumeric(r) && r.Int? == v.Int?
    ensures AsReal(r) >= 0.0 && (AsReal(r) == AsReal(v) || AsReal(r) == -AsReal(v))
  {
    match v
    case Int(i) => Int(if i < 0 then -i else i)
    case Float(x) => Float(if x < 0.0 then -x else x)
  }

  /** `int(r)` of a float: rounds toward zero. */
  function Truncate(r: real): (n: int)
    ensures r >= 0.0 ==> n as real <= r < n as real + 1.0
    ensures r < 0.0 ==> n as real - 1.0 < r <= n as real
  {
    if r >= 0.0 then r.Floor else -((-r).Floor)
  }

  /** `int(v)`: ints unchanged, floats truncated, text parsed. */
  function IntOf(v: Value): Result<int, Exc> {
    match v
    case Int(i) => Ok(i)
    case Float(r) => Ok(Truncate(r))
    case Str(s) => if ParseInt(s).Some? then Ok(ParseInt(s).value) else Err(ValueError)
    case NoneValue => Err(TypeError)
  }

  /** `sum(vs)`: adds from the left, starting with the integer 0. */
  function Sum(vs: seq<Value>): Result<Value, Exc> {
    if vs == [] then Ok(Int(0))
    else
      var init :- Sum(vs[..|vs| - 1]);
      Add(init, vs[|vs| - 1])
  }

  predicate AllNumeric(vs: seq<Value>) { forall i :: 0 <= i < |vs| ==> IsNumeric(vs[i]) }

  /** The exact sum of a numeric column, in the other order. */
  function RealSum(vs: seq<Value>): real
    requires AllNumeric(vs)
  {
    if vs == [] then 0.0 else AsReal(vs[0]) + RealSum(vs[1..])
  }

  lemma {:induction false} RealSumSnoc(vs: seq<Value>, v: Value)
    requires AllNumeric(vs) && IsNumeric(v)
    ensures AllNumeric(vs + [v]) && RealSum(vs + [v]) == RealSum(vs) + AsReal(v)
    decreases |vs|
  {
    if vs != [] {
      RealSumSnoc(vs[1..], v);
      assert (vs + [v])[1..] == vs[1..] + [v];
    }
  }

  /** `sum()` of a numeric column succeeds with the exact sum of its values;
      the result is an int exactly when every value is an int, and otherwise
      a float. A column holding a string or None makes it raise TypeError. */
  lemma {:induction false} SumOfNumbers(vs: seq<Value>)
    ensures Sum(vs).Ok? <==> AllNumeric(vs)
    ensures Sum(vs).Ok? ==>
      IsNumeric(Sum(vs).value) && AsReal(Sum(vs).value) == RealSum(vs)
      && (Sum(vs).value.Int? <==> forall i :: 0 <= i < |vs| ==> vs[i].Int?)
    ensures Sum(vs).Err? ==> Sum(vs).error == TypeError
    decreases |vs|
  {
    if vs != [] {
      var init := vs[..|vs| - 1];
      var last := vs[|vs| - 1];
      SumOfNumbers(init);
      assert vs == init + [last];
      if AllNumeric(init) && IsNumeric(last) {
        RealSumSnoc(init, last);
      }
    }
  }
}
