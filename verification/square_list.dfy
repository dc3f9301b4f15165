/** `process_numbers` of the number-squaring command-line program: validate
    the argument (a list, non-empty, every element numeric, checked in that
    order) and only then square every element.  Python values are a tagged
    union; the exceptions it raises become `ProcessError`. */
module SquareList {
  import opened Wrappers

  /** The Python values the function can be handed.  Floats are modelled as
      exact reals. */
  datatype PyValue =
    | PyNone
    | PyBool(b: bool)
    | PyInt(i: int)
    | PyFloat(f: real)
    | PyStr(s: string)
    | PyList(items: seq<PyValue>)
    | PyOther(typeName: string)

  /** `isinstance(value, (int, float))`; `bool` is a subclass of `int`, so it passes. */
  function IsNumeric(v: PyValue): (numeric: bool)
    ensures v.PyBool? ==> numeric
    ensures v.PyInt? || v.PyFloat? ==> numeric
    ensures numeric <==> !(v.PyNone? || v.PyStr? || v.PyList? || v.PyOther?)
  {
    v.PyBool? || v.PyInt? || v.PyFloat?
  }

  predicate AllNumeric(items: seq<PyValue>) {
    forall i :: 0 <= i < |items| ==> IsNumeric(items[i])
  }

  predicate IsNonNegative(v: PyValue) {
    match v
    case PyInt(i) => i >= 0
    case PyFloat(f) => f >= 0.0
    case _ => false
  }

  /** `square_number(x)`, taken as `x * x` (with `True`/`False` as 1/0): a
      float squares to a float, an int or bool to an int, never negative,
      and 0 and 1 are their own squares. */
  function Square(v: PyValue): (sq: PyValue)
    requires IsNumeric(v)
    ensures IsNonNegative(sq)
    ensures sq.PyFloat? <==> v.PyFloat?
    ensures v == PyInt(0) || v == PyInt(1) ==> sq == v
  {
    match v
    case PyBool(b) => PyInt(if b then 1 else 0)
    case PyInt(i) => PyInt(i * i)
    case PyFloat(f) => PyFloat(f * f)
  }

  /** The exceptions, in the order they are checked. */
  datatype ProcessError =
    | NotAList                                 // TypeError
    | EmptyList                                // ValueError
    | NonNumeric(index: nat, value: PyValue)   // ValueError naming the index and value

  datatype ExceptionKind = TypeError | ValueError

  function KindOf(e: ProcessError): ExceptionKind {
    match e
    case NotAList => TypeError
    case _ => ValueError
  }

  /** `process_numbers(data)`.  Success exactly when `data` is a non-empty list
      of numbers, and then the result squares it element by element; otherwise
      the first failing check is reported, and a non-numeric element is
      reported at its first occurrence. */
  method ProcessNumbers(data: PyValue) returns (r: Result<seq<PyValue>, ProcessError>)
    ensures !data.PyList? ==> r == Failure(NotAList)
    ensures data.PyList? && |data.items| == 0 ==> r == Failure(EmptyList)
    ensures r.Failure? ==> (KindOf(r.error) == TypeError <==> !data.PyList?)
    ensures r.Success? <==> data.PyList? && |data.items| > 0 && AllNumeric(data.items)
    ensures data.PyList? && |data.items| > 0 && !AllNumeric(data.items) ==> r.Failure? && r.error.NonNumeric?
    ensures r.Success? ==> |r.value| == |data.items|
    ensures r.Success? ==> forall i :: 0 <= i < |r.value| ==> IsNumeric(data.items[i]) && r.value[i] == Square(data.items[i])
    ensures r.Success? ==> forall i :: 0 <= i < |r.value| ==> IsNonNegative(r.value[i])
    ensures r.Failure? && r.error.NonNumeric? ==>
              && data.PyList?
              && r.error.index < |data.items|
              && r.error.value == data.items[r.error.index]
              && !IsNumeric(data.items[r.error.index])
              && AllNumeric(data.items[..r.error.index])
  {
    if !data.PyList? {
      return Failure(NotAList);
    }
    var items := data.items;
    if |items| == 0 {
      return Failure(EmptyList);
    }
    var i := 0;
    while i < |items|
      invariant 0 <= i <= |items|
      invariant AllNumeric(items[..i])
    {
      if !IsNumeric(items[i]) {
        return Failure(NonNumeric(i, items[i]));
      }
      assert items[..i + 1] == items[..i] + [items[i]];
      i := i + 1;
    }
    assert items[..i] == items;
    var squares: seq<PyValue> := [];
    var j := 0;
    while j < |items|
      invariant 0 <= j <= |items|
      invariant |squares| == j
      invariant forall k :: 0 <= k < j ==> squares[k] == Square(items[k])
      invariant forall k :: 0 <= k < j ==> IsNonNegative(squares[k])
    {
      squares := squares + [Square(items[j])];
      j := j + 1;
    }
    return Success(squares);
  }

  /** The documented example `[1, 2, 3]` gives `[1, 4, 9]`. */
  method SquaresOfOneTwoThree() returns (r: Result<seq<PyValue>, ProcessError>)
    ensures r == Success([PyInt(1), PyInt(4), PyInt(9)])
  {
    var data := [PyInt(1), PyInt(2), PyInt(3)];
    assert AllNumeric(data);
    r := ProcessNumbers(PyList(data));
    assert r.Success? && |r.value| == 3;
    assert r.value[0] == PyInt(1) && r.value[1] == PyInt(4) && r.value[2] == PyInt(9);
    assert r.value == [PyInt(1), PyInt(4), PyInt(9)];
  }

  /** The documented example `[2.5, 3.5]` gives `[6.25, 12.25]`. */
  method SquaresOfTwoFloats() returns (r: Result<seq<PyValue>, ProcessError>)
    ensures r == Success([PyFloat(6.25), PyFloat(12.25)])
  {
    var data := [PyFloat(2.5), PyFloat(3.5)];
    assert AllNumeric(data);
    r := ProcessNumbers(PyList(data));
    assert r.Success? && |r.value| == 2;
    assert r.value[0] == PyFloat(6.25) && r.value[1] == PyFloat(12.25);
    assert r.value == [PyFloat(6.25), PyFloat(12.25)];
  }
}
