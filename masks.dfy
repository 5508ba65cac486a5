/** The in-memory mask collection (`pathml.preprocessing.masks.Masks`): an
    OrderedDict from str name to ndarray. Names keep their insertion order;
    adding under an existing name replaces the mask in place; every mask
    added must have the shape of the first mask. */
module MaskCollection {
  import opened PyTypes
  import opened NameOrder

  /** The OrderedDict: names in insertion order and their masks. */
  datatype MaskDict = MaskDict(keys: seq<string>, vals: map<string, NdArray>)

  ghost predicate ValidState(st: MaskDict) {
    Distinct(st.keys) && (forall k :: k in st.keys <==> k in st.vals)
  }

  /** The argument of `Masks(masks)`: nothing, a dict (its items in order),
      or some other object, truthy or not. */
  datatype InitArg = NoArg | DictArg(items: seq<(Key, ArrayArg)>) | OtherArg(truthy: bool)

  /** `od[k] = v`: a new name goes last; an existing one keeps its place. */
  function Put(st: MaskDict, k: string, v: NdArray): MaskDict {
    if k in st.vals then MaskDict(st.keys, st.vals[k := v])
    else MaskDict(st.keys + [k], st.vals[k := v])
  }

  /** `OrderedDict(items)`. */
  function FromItems(items: seq<(string, NdArray)>): MaskDict
    decreases |items|
  {
    if items == [] then MaskDict([], map[])
    else Put(FromItems(items[..|items| - 1]), items[|items| - 1].0, items[|items| - 1].1)
  }

  function StrItems(items: seq<(Key, ArrayArg)>): (r: seq<(string, NdArray)>)
    requires forall i :: 0 <= i < |items| ==> items[i].0.KStr? && items[i].1.Array?
    ensures |r| == |items|
    ensures forall i :: 0 <= i < |r| ==> r[i] == (items[i].0.s, items[i].1.arr)
  {
    seq(|items|, i requires 0 <= i < |items| => (items[i].0.s, items[i].1.arr))
  }

  /** `Masks(masks)`: a falsy argument gives the empty collection; anything
      else must be a dict of ndarrays under str names. */
  function InitSpec(arg: InitArg): Result<MaskDict> {
    match arg
    case NoArg => Ok(MaskDict([], map[]))
    case OtherArg(truthy) => if truthy then Err(ValueError) else Ok(MaskDict([], map[]))
    case DictArg(items) =>
      if items == [] then Ok(MaskDict([], map[]))
      else if exists i :: 0 <= i < |items| && items[i].1.NotArray? then Err(ValueError)
      else if exists i :: 0 <= i < |items| && !items[i].0.KStr? then Err(ValueError)
      else Ok(FromItems(StrItems(items)))
  }

  /** `m[item]`. */
  function GetItemSpec(st: MaskDict, item: Key): Result<NdArray>
    requires ValidState(st)
  {
    if item.KStr? then
      if item.s in st.vals then Ok(st.vals[item.s]) else Err(KeyError)
    else if !item.IsInt() then Err(KeyError)
    else if item.IntValue() > |st.keys| - 1 then Err(KeyError)
    else
      match ListIndex(st.keys, item.IntValue())
      case Err(e) => Err(e)
      case Ok(k) => Ok(st.vals[k])
  }

  /** `add(key, mask)`. */
  function AddSpec(st: MaskDict, key: Key, mask: ArrayArg): (MaskDict, Option<PyError>)
    requires ValidState(st)
  {
    if mask.NotArray? || !key.KStr? then (st, Some(ValueError))
    else if st.keys != [] && mask.arr.shape != st.vals[st.keys[0]].shape then (st, Some(ValueError))
    else (Put(st, key.s, mask.arr), None)
  }

  /** The names without `k`, the others in their order. */
  function Without(s: seq<string>, k: string): (r: seq<string>)
    ensures forall x :: x in r <==> x in s && x != k
    ensures k !in s ==> r == s
    decreases |s|
  {
    if s == [] then []
    else if s[0] == k then Without(s[1..], k)
    else
      assert forall x :: x in s <==> x == s[0] || x in s[1..];
      [s[0]] + Without(s[1..], k)
  }

  /** In a list without duplicates, `Without` cuts out the one place of `k`. */
  lemma WithoutAt(s: seq<string>, k: string, j: int)
    requires Distinct(s) && 0 <= j < |s| && s[j] == k
    ensures Without(s, k) == s[..j] + s[j + 1..]
    ensures Distinct(Without(s, k))
  {
    assert k !in s[..j] && k !in s[j + 1..] by {
      forall i | 0 <= i < |s| && i != j ensures s[i] != k {
      }
    }
    CutAt(s, k, j);
    DistinctCut(s, j);
  }

  /** `Without` cuts out the only place of `k`. */
  lemma {:induction false} CutAt(s: seq<string>, k: string, j: int)
    requires 0 <= j < |s| && s[j] == k && k !in s[..j] && k !in s[j + 1..]
    ensures Without(s, k) == s[..j] + s[j + 1..]
    decreases |s|
  {
    var tail := s[1..];
    if j == 0 {
      assert tail == s[j + 1..];
    } else {
      assert s[0] in s[..j];
      assert tail[..j - 1] == s[1..j];
      assert tail[j..] == s[j + 1..];
      CutAt(tail, k, j - 1);
      assert s[..j] == [s[0]] + s[1..j];
    }
  }

  /** Cutting one place out of a list without duplicates leaves none. */
  lemma DistinctCut(s: seq<string>, j: int)
    requires Distinct(s) && 0 <= j < |s|
    ensures Distinct(s[..j] + s[j + 1..])
  {
    var r := s[..j] + s[j + 1..];
    forall a, b | 0 <= a < b < |r| ensures r[a] != r[b] {
      var a' := if a < j then a else a + 1;
      var b' := if b < j then b else b + 1;
      assert r[a] == s[a'] && r[b] == s[b'];
    }
  }

  /** `remove(key)`. */
  function RemoveSpec(st: MaskDict, key: Key): (MaskDict, Option<PyError>) {
    if key.KStr? && key.s in st.vals then (MaskDict(Without(st.keys, key.s), st.vals - {key.s}), None)
    else (st, Some(KeyError))
  }

  // ---------------------------------------------------------------------
  // Properties of the collection

  lemma PutKeepsValid(st: MaskDict, k: string, v: NdArray)
    requires ValidState(st)
    ensures ValidState(Put(st, k, v))
  {
  }

  lemma {:induction false} FromItemsValid(items: seq<(string, NdArray)>)
    ensures ValidState(FromItems(items))
    decreases |items|
  {
    if items != [] {
      FromItemsValid(items[..|items| - 1]);
    }
  }

  /** Built from a dict, the collection keeps the dict's order and values,
      and no shape is checked. */
  lemma {:induction false} FromItemsKeepsOrder(items: seq<(string, NdArray)>)
    requires forall i, j :: 0 <= i < j < |items| ==> items[i].0 != items[j].0
    ensures ValidState(FromItems(items))
    ensures |FromItems(items).keys| == |items|
    ensures forall i :: 0 <= i < |items| ==>
              FromItems(items).keys[i] == items[i].0 && FromItems(items).vals[items[i].0] == items[i].1
    decreases |items|
  {
    FromItemsValid(items);
    if items != [] {
      var init := items[..|items| - 1];
      FromItemsKeepsOrder(init);
      var st := FromItems(init);
      var last := items[|items| - 1];
      assert last.0 !in st.vals by {
        forall i | 0 <= i < |init| ensures st.keys[i] != last.0 {
          assert init[i].0 == items[i].0;
        }
      }
      assert FromItems(items) == MaskDict(st.keys + [last.0], st.vals[last.0 := last.1]);
      forall i | 0 <= i < |items|
        ensures FromItems(items).keys[i] == items[i].0 && FromItems(items).vals[items[i].0] == items[i].1
      {
        if i < |init| {
          assert items[i] == init[i] && items[i].0 != last.0;
        }
      }
    }
  }

  /** The constructor's outcome: the error cases, and otherwise the dict's
      entries, without any shape check (two masks of different shapes are
      accepted). */
  lemma InitOutcome(arg: InitArg)
    ensures InitSpec(arg).Ok? ==> ValidState(InitSpec(arg).value)
    ensures arg.OtherArg? ==> (InitSpec(arg).Err? <==> arg.truthy)
    ensures arg.DictArg? ==>
              (InitSpec(arg).Err? <==>
                 exists i :: 0 <= i < |arg.items| && (arg.items[i].1.NotArray? || !arg.items[i].0.KStr?))
    ensures InitSpec(arg).Err? ==> InitSpec(arg).error == ValueError
    ensures arg.NoArg? || (arg.OtherArg? && !arg.truthy) || arg == DictArg([]) ==>
              InitSpec(arg) == Ok(MaskDict([], map[]))
    ensures arg.DictArg? && InitSpec(arg).Ok?
            && (forall i, j :: 0 <= i < j < |arg.items| ==> arg.items[i].0 != arg.items[j].0) ==>
              var st := InitSpec(arg).value;
              |st.keys| == |arg.items|
              && forall i :: 0 <= i < |arg.items| ==>
                   arg.items[i].0 == KStr(st.keys[i]) && st.keys[i] in st.vals
                   && arg.items[i].1 == Array(st.vals[st.keys[i]])
  {
    if arg.DictArg? && InitSpec(arg).Ok? && arg.items != [] {
      var strs := StrItems(arg.items);
      FromItemsValid(strs);
      if forall i, j :: 0 <= i < j < |arg.items| ==> arg.items[i].0 != arg.items[j].0 {
        forall i, j | 0 <= i < j < |strs| ensures strs[i].0 != strs[j].0 {
          assert arg.items[i].0 == KStr(strs[i].0) && arg.items[j].0 == KStr(strs[j].0);
        }
        FromItemsKeepsOrder(strs);
      }
    }
  }

  lemma InitDoesNotCheckShapes(a: NdArray, b: NdArray)
    requires a.shape != b.shape
    ensures var r := InitSpec(DictArg([(KStr("a"), Array(a)), (KStr("b"), Array(b))]));
      r.Ok? && r.value.keys == ["a", "b"] && "a" in r.value.vals && "b" in r.value.vals
      && r.value.vals["a"] == a && r.value.vals["b"] == b
  {
    var items := [(KStr("a"), Array(a)), (KStr("b"), Array(b))];
    var strs := StrItems(items);
    assert strs == [("a", a), ("b", b)];
    assert strs[..1] == [("a", a)] && strs[..1][..0] == [];
    assert FromItems(strs[..1]) == MaskDict(["a"], map["a" := a]);
  }

  /** `add` succeeds exactly for an ndarray under a str name whose shape is
      the first mask's (or which is the first); a rejected add changes
      nothing. */
  lemma AddOutcome(st: MaskDict, key: Key, mask: ArrayArg)
    requires ValidState(st)
    ensures var (st', err) := AddSpec(st, key, mask);
      && ValidState(st')
      && (err.None? <==>
            mask.Array? && key.KStr? && (st.keys == [] || mask.arr.shape == st.vals[st.keys[0]].shape))
      && (err.Some? ==> err == Some(ValueError) && st' == st)
      && (err.None? ==> st'.vals == st.vals[key.s := mask.arr])
  {
  }

  /** Adding under an existing name overwrites it: the length and every
      position stay as they were. Adding a new name appends it. */
  lemma AddPosition(st: MaskDict, name: string, a: NdArray)
    requires ValidState(st)
    requires AddSpec(st, KStr(name), Array(a)).1.None?
    ensures var st' := AddSpec(st, KStr(name), Array(a)).0;
      && (name in st.vals ==> st'.keys == st.keys && |st'.keys| == |st.keys|)
      && (name !in st.vals ==> st'.keys == st.keys + [name])
      && GetItemSpec(st', KStr(name)) == Ok(a)
  {
  }

  /** All masks share the first one's shape; `add` and `remove` keep that. */
  ghost predicate UniformShape(st: MaskDict) {
    forall k, k' :: k in st.vals && k' in st.vals ==> st.vals[k].shape == st.vals[k'].shape
  }

  lemma {:induction false} AddKeepsUniformShape(st: MaskDict, key: Key, mask: ArrayArg)
    requires ValidState(st) && UniformShape(st)
    ensures UniformShape(AddSpec(st, key, mask).0)
  {
    AddOutcome(st, key, mask);
    if AddSpec(st, key, mask).1.None? && st.keys != [] {
      assert st.keys[0] in st.vals;
    }
  }

  lemma {:induction false} RemoveKeepsUniformShape(st: MaskDict, key: Key)
    requires ValidState(st) && UniformShape(st)
    ensures UniformShape(RemoveSpec(st, key).0)
  {
  }

  /** Lookup: a str name directly (unknown is a KeyError); a non-int
      non-str key is a KeyError; an int (a bool counts as one) past the end
      is a KeyError, otherwise the mask at that insertion position, a
      negative one counting from the end. */
  lemma GetItemOutcome(st: MaskDict, item: Key)
    requires ValidState(st)
    ensures item.KStr? ==> GetItemSpec(st, item) == (if item.s in st.vals then Ok(st.vals[item.s]) else Err(KeyError))
    ensures item.KTuple? || item.KOther? ==> GetItemSpec(st, item) == Err(KeyError)
    ensures item.IsInt() && item.IntValue() > |st.keys| - 1 ==> GetItemSpec(st, item) == Err(KeyError)
    ensures item.IsInt() && 0 <= item.IntValue() < |st.keys| ==>
              GetItemSpec(st, item) == Ok(st.vals[st.keys[item.IntValue()]])
    ensures item.IsInt() && -|st.keys| <= item.IntValue() < 0 ==>
              GetItemSpec(st, item) == Ok(st.vals[st.keys[|st.keys| + item.IntValue()]])
    ensures GetItemSpec(st, KBool(true)) == GetItemSpec(st, KInt(1))
  {
  }

  /** `remove` deletes exactly the named mask, keeping the others' order;
      an absent name is a KeyError. */
  lemma {:induction false} RemoveOutcome(st: MaskDict, key: Key)
    requires ValidState(st)
    ensures var (st', err) := RemoveSpec(st, key);
      && ValidState(st')
      && (err.None? <==> key.KStr? && key.s in st.vals)
      && (err.Some? ==> err == Some(KeyError) && st' == st)
      && (err.None? ==> st'.vals == st.vals - {key.s} && |st'.keys| == |st.keys| - 1
                        && exists j :: 0 <= j < |st.keys| && st.keys[j] == key.s
                                       && st'.keys == st.keys[..j] + st.keys[j + 1..])
  {
    if key.KStr? && key.s in st.vals {
      var j :| 0 <= j < |st.keys| && st.keys[j] == key.s;
      WithoutAt(st.keys, key.s, j);
    }
  }

  // ---------------------------------------------------------------------
  // The collection object

  class Masks {
    var keys: seq<string>
    var vals: map<string, NdArray>

    function State(): MaskDict
      reads this
    {
      MaskDict(keys, vals)
    }

    ghost predicate Valid()
      reads this
    {
      ValidState(State())
    }

    /** `OrderedDict(items)` for items already checked. */
    constructor (items: seq<(string, NdArray)>)
      ensures Valid() && State() == FromItems(items)
    {
      var st := MaskDict([], map[]);
      var i := 0;
      while i < |items|
        invariant 0 <= i <= |items|
        invariant st == FromItems(items[..i])
      {
        assert items[..i + 1][..i] == items[..i];
        st := Put(st, items[i].0, items[i].1);
        i := i + 1;
      }
      assert items[..i] == items;
      FromItemsValid(items);
      keys, vals := st.keys, st.vals;
    }

    /** `Masks(masks)`: checks the values, then the keys, then copies. */
    static method Create(arg: InitArg) returns (r: Result<Masks>)
      ensures r.Err? <==> InitSpec(arg).Err?
      ensures r.Err? ==> r.error == InitSpec(arg).error
      ensures r.Ok? ==> fresh(r.value) && r.value.Valid() && r.value.State() == InitSpec(arg).value
    {
      if !arg.DictArg? {
        if arg.OtherArg? && arg.truthy {
          return Err(ValueError);
        }
        var m := new Masks([]);
        return Ok(m);
      }
      var items := arg.items;
      var i := 0;
      while i < |items|
        invariant 0 <= i <= |items|
        invariant forall j :: 0 <= j < i ==> items[j].1.Array?
      {
        if items[i].1.NotArray? {
          return Err(ValueError);
        }
        i := i + 1;
      }
      i := 0;
      while i < |items|
        invariant 0 <= i <= |items|
        invariant forall j :: 0 <= j < i ==> items[j].0.KStr?
      {
        if !items[i].0.KStr? {
          return Err(ValueError);
        }
        i := i + 1;
      }
      var m := new Masks(StrItems(items));
      return Ok(m);
    }

    /** `len(m)`. */
    function Len(): (n: nat)
      reads this
      requires Valid()
      ensures n == |vals|
    {
      DistinctCount(keys, vals);
      |keys|
    }

    /** `m[item]`. */
    method GetItem(item: Key) returns (r: Result<NdArray>)
      requires Valid()
      ensures r == GetItemSpec(State(), item)
    {
      if item.KStr? {
        if item.s !in vals {
          return Err(KeyError);
        }
        return Ok(vals[item.s]);
      }
      if !item.IsInt() {
        return Err(KeyError);
      }
      var i := item.IntValue();
      if i > |keys| - 1 {
        return Err(KeyError);
      }
      if i < -|keys| {
        return Err(IndexError);
      }
      r := Ok(vals[if i >= 0 then keys[i] else keys[|keys| + i]]);
    }

    method Add(key: Key, mask: ArrayArg) returns (err: Option<PyError>)
      requires Valid()
      modifies this
      ensures Valid()
      ensures (State(), err) == AddSpec(old(State()), key, mask)
    {
      if mask.NotArray? || !key.KStr? {
        return Some(ValueError);
      }
      if keys != [] && mask.arr.shape != vals[keys[0]].shape {
        return Some(ValueError);
      }
      if key.s !in vals {
        keys := keys + [key.s];
      }
      vals := vals[key.s := mask.arr];
      err := None;
    }

    method Remove(key: Key) returns (err: Option<PyError>)
      requires Valid()
      modifies this
      ensures Valid()
      ensures (State(), err) == RemoveSpec(old(State()), key)
    {
      if !(key.KStr? && key.s in vals) {
        return Some(KeyError);
      }
      RemoveOutcome(State(), key);
      keys := Without(keys, key.s);
      vals := vals - {key.s};
      err := None;
    }
  }
}
