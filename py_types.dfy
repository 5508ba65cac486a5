/** Python values as the storage layer sees them: dynamically typed keys,
    the exceptions it raises, and numpy arrays reduced to a shape and cells. */
module PyTypes {

  datatype Option<+T> = None | Some(value: T)

  /** The Python exception classes raised by the modelled code. */
  datatype PyError =
    | ValueError
    | KeyError
    | IndexError
    | AssertionError
    | AttributeError
    | TypeError
    | NotImplementedError
    | UnicodeEncodeError
    | SyntaxError
    | GenericException   // a bare `raise Exception(...)`

  datatype Result<+T> = Ok(value: T) | Err(error: PyError)

  /** A key as a Python caller may pass it. Tuples are tuples of ints;
      `KOther` is any other object, carrying the text `str()` gives for it. */
  datatype Key =
    | KStr(s: string)
    | KTuple(t: seq<int>)
    | KInt(i: int)
    | KBool(b: bool)
    | KOther(repr: string)
  {
    predicate IsStrOrTuple() { KStr? || KTuple? }

    /** `isinstance(k, int)`: in Python a bool is an int. */
    predicate IsInt() { KInt? || KBool? }

    function IntValue(): int
      requires IsInt()
    {
      if KInt? then i else if b then 1 else 0
    }
  }

  /** A numpy array: its shape and its cells in row-major order. */
  datatype NdArray = NdArray(shape: seq<nat>, cells: seq<int>)

  /** A scalar stored as an HDF5 attribute: a str, an int, or a byte
      string (given by the text it decodes to). */
  datatype Scalar = SStr(s: string) | SInt(i: int) | SBytes(b: string)

  /** `dict(items)`: a later item with the same key replaces an earlier one. */
  function DictOf<V>(items: seq<(string, V)>): (m: map<string, V>)
    ensures forall k :: k in m <==> exists i :: 0 <= i < |items| && items[i].0 == k
    ensures items != [] ==> m[items[|items| - 1].0] == items[|items| - 1].1
    decreases |items|
  {
    if items == [] then map[]
    else DictOf(items[..|items| - 1])[items[|items| - 1].0 := items[|items| - 1].1]
  }

  /** In `dict(items)` every key holds the value of its last occurrence. */
  lemma {:induction false} DictOfLastWins<V>(items: seq<(string, V)>, i: int)
    requires 0 <= i < |items|
    requires forall j :: i < j < |items| ==> items[j].0 != items[i].0
    ensures items[i].0 in DictOf(items) && DictOf(items)[items[i].0] == items[i].1
    decreases |items|
  {
    if i < |items| - 1 {
      var init := items[..|items| - 1];
      assert init[i] == items[i];
      DictOfLastWins(init, i);
    }
  }

  /** `d[key]` for a dict given by its items, which have distinct keys. */
  function Lookup<K(==), V>(items: seq<(K, V)>, key: K): (r: Option<V>)
    ensures r.None? <==> forall i :: 0 <= i < |items| ==> items[i].0 != key
    ensures r.Some? ==> exists i :: 0 <= i < |items| && items[i] == (key, r.value)
    decreases |items|
  {
    if items == [] then None
    else if items[0].0 == key then Some(items[0].1)
    else
      assert forall i :: 1 <= i < |items| ==> items[i] == items[1..][i - 1];
      Lookup(items[1..], key)
  }

  /** A value passed where an `np.ndarray` is expected. */
  datatype ArrayArg = Array(arr: NdArray) | NotArray

  /** Python's `list(xs)[i]` for an int `i`: negative indices count from the end. */
  function ListIndex<T>(xs: seq<T>, i: int): (r: Result<T>)
    ensures 0 <= i < |xs| ==> r == Ok(xs[i])
    ensures -|xs| <= i < 0 ==> r == Ok(xs[|xs| + i])
    ensures r.Err? <==> (i >= |xs| || i < -|xs|)
    ensures r.Err? ==> r.error == IndexError
  {
    if 0 <= i < |xs| then Ok(xs[i])
    else if -|xs| <= i < 0 then Ok(xs[|xs| + i])
    else Err(IndexError)
  }

  /** Python `s.isascii()`: `np.string_` of a str encodes it as ASCII. */
  predicate IsAscii(s: string) {
    forall i :: 0 <= i < |s| ==> s[i] as int < 128
  }
}
