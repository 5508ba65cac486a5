/** The on-disk flat mask store (`_masks_h5_manager`): one HDF5 dataset
    per mask, named by its str key, all of one shape fixed by the first
    add. Datasets are listed, and addressed by integer position, in name
    order. */
module MasksManager {
  import opened PyTypes
  import opened NameOrder

  datatype MasksState = MasksState(
    keys: seq<string>,
    data: map<string, NdArray>,
    shape: Option<seq<nat>>)

  ghost predicate ValidState(st: MasksState) {
    Sorted(st.keys) && (forall k :: k in st.keys <==> k in st.data)
  }

  /** `add(key, mask)`. */
  function AddSpec(st: MasksState, key: Key, mask: ArrayArg): (MasksState, Option<PyError>)
    requires ValidState(st)
  {
    if mask.NotArray? || !key.KStr? then (st, Some(ValueError))
    else if key.s in st.data then (st, Some(ValueError))
    else if st.shape.Some? && mask.arr.shape != st.shape.value then (st, Some(ValueError))
    else (MasksState(InsertSorted(st.keys, key.s), st.data[key.s := mask.arr], Some(mask.arr.shape)), None)
  }

  /** `get(item)` without slices. */
  function GetSpec(st: MasksState, item: Key): Result<NdArray>
    requires ValidState(st)
  {
    if !(item.KStr? || item.KInt?) then Err(KeyError)
    else if item.KStr? then
      if item.s !in st.data then Err(KeyError) else Ok(st.data[item.s])
    else if item.i > |st.keys| - 1 then
      // the error message reads `self.h5['masks'].keys()`: a mask named
      // "masks" is a dataset, which has no keys()
      Err(if "masks" in st.data then AttributeError else KeyError)
    else
      match ListIndex(st.keys, item.i)
      case Err(e) => Err(e)
      case Ok(k) => Ok(st.data[k])
  }

  /** `update(key, mask)`. Testing a non-str name for membership in an
      HDF5 group raises before anything else happens. */
  function UpdateSpec(st: MasksState, key: Key, mask: ArrayArg): (MasksState, Option<PyError>)
    requires ValidState(st)
  {
    if !key.KStr? then (st, Some(TypeError))
    else if key.s !in st.data then (st, Some(ValueError))
    else if mask.NotArray? then (st, Some(AttributeError))
    else if st.data[key.s].shape != mask.arr.shape then (st, Some(AssertionError))
    else (st.(data := st.data[key.s := mask.arr]), None)
  }

  /** `remove(key)`. */
  function RemoveSpec(st: MasksState, key: Key): (MasksState, Option<PyError>) {
    if !key.KStr? || key.s !in st.data then (st, Some(KeyError))
    else (MasksState(RemoveName(st.keys, key.s), st.data - {key.s}, st.shape), None)
  }

  /** What `slice()` yields, drained: (name, mask) for every dataset, in
      listing order. */
  function Pairs(st: MasksState): (r: seq<(string, NdArray)>)
    requires ValidState(st)
  {
    seq(|st.keys|, i requires 0 <= i < |st.keys| => (st.keys[i], st.data[st.keys[i]]))
  }

  // ---------------------------------------------------------------------
  // Properties of the store

  /** `add` succeeds exactly for an ndarray under a new str key whose shape
      is the store's (or which is the first); names stay unique and in name
      order, and a rejected add changes nothing. */
  lemma AddOutcome(st: MasksState, key: Key, mask: ArrayArg)
    requires ValidState(st)
    ensures var (st', err) := AddSpec(st, key, mask);
      && ValidState(st')
      && (err.None? <==>
            mask.Array? && key.KStr? && key.s !in st.data
            && (st.shape.None? || st.shape == Some(mask.arr.shape)))
      && (err.Some? ==> err == Some(ValueError) && st' == st)
      && (err.None? ==> |st'.keys| == |st.keys| + 1 && st'.shape == Some(mask.arr.shape)
                        && st'.data == st.data[key.s := mask.arr])
  {
  }

  /** A mask added under a name is what `get` returns by that name. */
  lemma AddThenGet(st: MasksState, name: string, a: NdArray)
    requires ValidState(st)
    requires AddSpec(st, KStr(name), Array(a)).1.None?
    ensures var st' := AddSpec(st, KStr(name), Array(a)).0;
      ValidState(st') && GetSpec(st', KStr(name)) == Ok(a)
  {
    AddOutcome(st, KStr(name), Array(a));
  }

  /** Every mask in the store has the store's shape, and `add` and
      `update` keep it so. */
  ghost predicate UniformShape(st: MasksState) {
    forall k :: k in st.data ==> st.shape == Some(st.data[k].shape)
  }

  lemma {:induction false} ShapeInvariant(st: MasksState, key: Key, mask: ArrayArg)
    requires ValidState(st) && UniformShape(st)
    ensures UniformShape(AddSpec(st, key, mask).0)
    ensures UniformShape(UpdateSpec(st, key, mask).0)
    ensures UniformShape(RemoveSpec(st, key).0)
  {
    AddOutcome(st, key, mask);
  }

  /** Lookup by key: a bool is refused even though Python counts it as an
      int; so is any key that is neither str nor int; an unknown name or a
      position past the end is refused; an in-range position gives the mask
      at that place in name order, a negative one counting from the end. */
  lemma GetOutcome(st: MasksState, item: Key)
    requires ValidState(st)
    ensures item.KBool? || item.KTuple? || item.KOther? ==> GetSpec(st, item) == Err(KeyError)
    ensures item.KStr? ==> (GetSpec(st, item).Ok? <==> item.s in st.data)
    ensures item.KStr? && item.s in st.data ==> GetSpec(st, item) == Ok(st.data[item.s])
    ensures item.KInt? && item.i > |st.keys| - 1 && "masks" !in st.data ==> GetSpec(st, item) == Err(KeyError)
    ensures item.KInt? && 0 <= item.i < |st.keys| ==> GetSpec(st, item) == Ok(st.data[st.keys[item.i]])
    ensures item.KInt? && -|st.keys| <= item.i < 0 ==> GetSpec(st, item) == Ok(st.data[st.keys[|st.keys| + item.i]])
  {
  }

  /** `update` overwrites an existing mask with one of the same shape and
      touches nothing else; an unknown name is a ValueError. */
  lemma UpdateOutcome(st: MasksState, name: string, mask: ArrayArg)
    requires ValidState(st)
    ensures var (st', err) := UpdateSpec(st, KStr(name), mask);
      && ValidState(st')
      && (err.None? <==> name in st.data && mask.Array? && mask.arr.shape == st.data[name].shape)
      && (name !in st.data ==> err == Some(ValueError))
      && (err.Some? ==> st' == st)
      && (err.None? ==> st'.keys == st.keys && st'.shape == st.shape
                        && st'.data == st.data[name := mask.arr]
                        && GetSpec(st', KStr(name)) == Ok(mask.arr))
  {
  }

  /** `remove` deletes exactly the named mask, for a str key present. */
  lemma RemoveOutcome(st: MasksState, key: Key)
    requires ValidState(st)
    ensures var (st', err) := RemoveSpec(st, key);
      && ValidState(st')
      && st'.shape == st.shape
      && (err.None? <==> key.KStr? && key.s in st.data)
      && (err.Some? ==> err == Some(KeyError) && st' == st)
      && (err.None? ==> st'.data == st.data - {key.s} && |st'.keys| == |st.keys| - 1)
  {
  }

  /** `slice()` yields each mask once, in name order, as `get` returns it. */
  lemma SliceIsGetInOrder(st: MasksState)
    requires ValidState(st)
    ensures |Pairs(st)| == |st.keys| == |st.data|
    ensures forall i :: 0 <= i < |st.keys| ==>
              Pairs(st)[i].0 == st.keys[i] && Ok(Pairs(st)[i].1) == GetSpec(st, KStr(st.keys[i]))
  {
    SortedCount(st.keys, st.data);
  }

  // ---------------------------------------------------------------------
  // The manager object

  class MasksStore {
    var keys: seq<string>
    var data: map<string, NdArray>
    var shape: Option<seq<nat>>

    function State(): MasksState
      reads this
    {
      MasksState(keys, data, shape)
    }

    ghost predicate Valid()
      reads this
    {
      ValidState(State())
    }

    /** `__init__(h5)`: a fresh file, into which every dataset of `source`
        (when given) is copied; the shape stays unset. */
    constructor (source: Option<MasksState>)
      requires source.Some? ==> ValidState(source.value)
      ensures Valid()
      ensures shape.None?
      ensures source.None? ==> keys == [] && data == map[]
      ensures source.Some? ==> keys == source.value.keys && data == source.value.data
    {
      var ks: seq<string> := [];
      var ds: map<string, NdArray> := map[];
      if source.Some? {
        var src := source.value;
        var i := 0;
        while i < |src.keys|
          invariant 0 <= i <= |src.keys|
          invariant Sorted(ks)
          invariant forall k :: k in ks <==> k in src.keys[..i]
          invariant forall k :: k in ds <==> k in src.keys[..i]
          invariant forall k :: k in ds ==> ds[k] == src.data[k]
        {
          var k := src.keys[i];
          ks := InsertSorted(ks, k);
          ds := ds[k := src.data[k]];
          assert src.keys[..i + 1] == src.keys[..i] + [k];
          i := i + 1;
        }
        assert src.keys[..i] == src.keys;
        SortedUnique(ks, src.keys);
      }
      keys, data, shape := ks, ds, None;
    }

    method Add(key: Key, mask: ArrayArg) returns (err: Option<PyError>)
      requires Valid()
      modifies this
      ensures Valid()
      ensures (State(), err) == AddSpec(old(State()), key, mask)
    {
      if mask.NotArray? || !key.KStr? {
        return Some(ValueError);
      }
      if key.s in data {
        return Some(ValueError);
      }
      if shape.None? {
        shape := Some(mask.arr.shape);
      }
      if mask.arr.shape != shape.value {
        return Some(ValueError);
      }
      keys := InsertSorted(keys, key.s);
      data := data[key.s := mask.arr];
      err := None;
    }

    method Update(key: Key, mask: ArrayArg) returns (err: Option<PyError>)
      requires Valid()
      modifies this
      ensures Valid()
      ensures (State(), err) == UpdateSpec(old(State()), key, mask)
    {
      if !key.KStr? {
        return Some(TypeError);
      }
      if key.s !in data {
        return Some(ValueError);
      }
      var original := Get(key);
      if mask.NotArray? {
        return Some(AttributeError);
      }
      if original.value.shape != mask.arr.shape {
        return Some(AssertionError);
      }
      data := data[key.s := mask.arr];
      err := None;
    }

    method Get(item: Key) returns (r: Result<NdArray>)
      requires Valid()
      ensures r == GetSpec(State(), item)
    {
      if !(item.KStr? || item.KInt?) {
        return Err(KeyError);
      }
      if item.KStr? {
        if item.s !in data {
          return Err(KeyError);
        }
        return Ok(data[item.s]);
      }
      if item.i > |keys| - 1 {
        return Err(if "masks" in data then AttributeError else KeyError);
      }
      if item.i < -|keys| {
        return Err(IndexError);
      }
      var k := if item.i >= 0 then keys[item.i] else keys[|keys| + item.i];
      r := Ok(data[k]);
    }

    /** The generator `slice()`, drained. */
    method Slice() returns (pairs: seq<(string, NdArray)>)
      requires Valid()
      ensures pairs == Pairs(State())
    {
      pairs := [];
      var i := 0;
      while i < |keys|
        invariant 0 <= i <= |keys|
        invariant pairs == Pairs(State())[..i]
      {
        var m := Get(KStr(keys[i]));
        pairs := pairs + [(keys[i], m.value)];
        i := i + 1;
      }
    }

    /** `reshape(targetshape)` does nothing. */
    method Reshape(targetshape: seq<nat>)
      requires Valid()
      ensures State() == old(State())
    {
    }

    method Remove(key: Key) returns (err: Option<PyError>)
      requires Valid()
      modifies this
      ensures Valid()
      ensures (State(), err) == RemoveSpec(old(State()), key)
    {
      if !key.KStr? || key.s !in data {
        return Some(KeyError);
      }
      keys := RemoveName(keys, key.s);
      data := data - {key.s};
      err := None;
    }
  }
}
