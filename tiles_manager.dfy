/** The on-disk tile store (`_tiles_h5_manager`): one HDF5 group per tile,
    named by `str(key)`, holding the image, a masks group and metadata.
    The file is opened without creation-order tracking, so its groups are
    listed, and addressed by integer position, in name order. */
module TilesManager {
  import opened PyTypes
  import opened PyRepr
  import opened NameOrder

  /** A tile as `add` receives it. An empty field is falsy in Python and is
      not written (a missing name or coordinate is the empty value). */
  datatype Tile = Tile(
    image: NdArray,
    masks: map<string, NdArray>,
    labels: seq<(string, Scalar)>,
    coords: seq<int>,
    slidetype: string,
    name: string)

  /** The contents of one tile group. */
  datatype Record = Record(
    image: NdArray,                            // dataset 'tile'
    masks: map<string, NdArray>,               // group 'masks', one dataset per mask
    labelsGroup: Option<map<string, Scalar>>,  // sub-group 'labels' (written by add)
    labelsAttr: Option<seq<(string, Scalar)>>, // attribute 'labels' (written by update)
    coordsAttr: Option<string>,                // attribute 'coords': str(coords)
    slidetypeAttr: Option<string>,
    nameAttr: Option<string>)

  /** The store: group names in listing order, their records, and the
      shape fixed by the first add. */
  datatype TilesState = TilesState(
    keys: seq<string>,
    records: map<string, Record>,
    shape: Option<seq<nat>>)

  /** Group names are unique, listed in name order, and each has a record. */
  ghost predicate ValidState(st: TilesState) {
    Sorted(st.keys) && (forall k :: k in st.keys <==> k in st.records)
  }

  /** The value passed to `update`, whose type decides what happens. */
  datatype UpdateArg = UTile(tile: Tile) | UArray(arr: NdArray) | UDict(items: seq<(string, Scalar)>) | UOther

  /** Labels as `get` returns them: by name, the attribute as a dict of
      texts; by position, the raw (key, value) array. */
  datatype LabelsView = LabelDict(texts: map<string, string>) | LabelPairs(items: seq<(string, Scalar)>)

  /** The tuple `get` returns: name, image, masks, labels, coords, slidetype. */
  datatype TileView = TileView(
    name: Option<string>,
    image: NdArray,
    masks: map<string, NdArray>,
    labels: Option<LabelsView>,
    coords: Option<seq<int>>,
    slidetype: Option<string>)

  /** numpy's `astype(str)` on a label value. */
  function ScalarText(v: Scalar): string {
    match v
    case SStr(s) => s
    case SInt(i) => IntRepr(i)
    case SBytes(b) => "b'" + b + "'"
  }

  function LabelTexts(items: seq<(string, Scalar)>): (r: seq<(string, string)>)
    ensures |r| == |items|
    ensures forall i :: 0 <= i < |r| ==> r[i] == (items[i].0, ScalarText(items[i].1))
  {
    seq(|items|, i requires 0 <= i < |items| => (items[i].0, ScalarText(items[i].1)))
  }

  /** Reads one tile group; `byName` selects the str-key branch of `get`,
      which turns the labels attribute into a dict of texts. */
  function ReadRecord(rec: Record, byName: bool): Result<TileView> {
    var labels :=
      match rec.labelsAttr
      case None => None
      case Some(items) => Some(if byName then LabelDict(DictOf(LabelTexts(items))) else LabelPairs(items));
    match rec.coordsAttr
    case Some(text) =>
      (match ParseTuple(text)
       case None => Err(SyntaxError)
       case Some(c) => Ok(TileView(rec.nameAttr, rec.image, rec.masks, labels, Some(c), rec.slidetypeAttr)))
    case None => Ok(TileView(rec.nameAttr, rec.image, rec.masks, labels, None, rec.slidetypeAttr))
  }

  /** `get(item)` without slices. */
  function GetSpec(st: TilesState, item: Key): Result<TileView>
    requires ValidState(st)
  {
    if item.IsStrOrTuple() then
      if Str(item) !in st.records then Err(KeyError)
      else ReadRecord(st.records[Str(item)], true)
    else if !item.IsInt() then Err(KeyError)
    else if item.IntValue() > |st.keys| - 1 then Err(KeyError)
    else
      match ListIndex(st.keys, item.IntValue())
      case Err(e) => Err(e)
      case Ok(k) => ReadRecord(st.records[k], false)
  }

  /** The group `add` writes for a tile, up to the attribute writes that
      may fail: slidetype and name are stored only when ASCII. */
  function NewRecord(tile: Tile): Record {
    Record(
      tile.image,
      tile.masks,
      if tile.labels != [] then Some(DictOf(tile.labels)) else None,
      None,
      if tile.coords != [] then Some(TupleRepr(tile.coords)) else None,
      if tile.slidetype != "" && IsAscii(tile.slidetype) then Some(tile.slidetype) else None,
      if tile.name != "" && IsAscii(tile.name) && (tile.slidetype == "" || IsAscii(tile.slidetype))
      then Some(tile.name) else None)
  }

  /** The exception the trailing `writestringh5` calls of `add` raise, if any. */
  function StringWriteError(tile: Tile): Option<PyError> {
    if tile.slidetype != "" && !IsAscii(tile.slidetype) then Some(UnicodeEncodeError)
    else if tile.name != "" && !IsAscii(tile.name) then Some(UnicodeEncodeError)
    else None
  }

  /** `add(key, tile)`: the new state and the exception raised, if any. */
  function AddSpec(st: TilesState, key: Key, tile: Tile): (TilesState, Option<PyError>)
    requires ValidState(st)
  {
    if !key.IsStrOrTuple() then (st, Some(ValueError))
    else if Str(key) in st.records then (st, Some(KeyError))
    else if st.shape.Some? && tile.image.shape != st.shape.value then (st, Some(ValueError))
    else
      (TilesState(InsertSorted(st.keys, Str(key)), st.records[Str(key) := NewRecord(tile)], Some(tile.image.shape)),
       StringWriteError(tile))
  }

  /** `remove(key)`. */
  function RemoveSpec(st: TilesState, key: Key): (TilesState, Option<PyError>) {
    if !key.IsStrOrTuple() || Str(key) !in st.records then (st, Some(KeyError))
    else (TilesState(RemoveName(st.keys, Str(key)), st.records - {Str(key)}, st.shape), None)
  }

  /** Labels h5py can store as the `labels` attribute: it stores an
      object array only when all its elements are of one Python type,
      here str since the keys are str, and an empty array has no type. */
  predicate StorableLabels(items: seq<(string, Scalar)>) {
    items != [] && forall i :: 0 <= i < |items| ==> items[i].1.SStr?
  }

  /** `update(key, val, target)`. */
  function UpdateSpec(st: TilesState, key: Key, val: UpdateArg, target: string): (TilesState, Option<PyError>)
    requires ValidState(st)
  {
    var k := Str(key);
    if k !in st.records then (st, Some(ValueError))
    else
      match GetSpec(st, KStr(k))
      case Err(e) => (st, Some(e))
      case Ok(original) =>
        if target == "all" then
          if !val.UTile? then (st, Some(AttributeError))
          else if original.image.shape != val.tile.image.shape then (st, Some(AssertionError))
          else
            var removed := RemoveSpec(st, KStr(k)).0;
            RemoveKeepsValid(st, KStr(k));
            AddSpec(removed, KStr(k), val.tile)
        else if target == "image" then
          if !val.UArray? || original.image.shape != val.arr.shape then (st, Some(AssertionError))
          else (st.(records := st.records[k := st.records[k].(image := val.arr)]), None)
        else if target == "masks" then (st, Some(NotImplementedError))
        else if target == "labels" then
          if !val.UDict? then (st, Some(AssertionError))
          else if !StorableLabels(val.items) then (st, Some(TypeError))
          else (st.(records := st.records[k := st.records[k].(labelsAttr := Some(val.items))]), None)
        else (st, Some(KeyError))
  }

  /** `slice()` without slices: what the generator yields, one `get` per
      group in listing order, up to the first exception. */
  function SliceFrom(st: TilesState, i: nat): (seq<TileView>, Option<PyError>)
    requires ValidState(st) && i <= |st.keys|
    decreases |st.keys| - i
  {
    if i == |st.keys| then ([], None)
    else
      match GetSpec(st, KStr(st.keys[i]))
      case Err(e) => ([], Some(e))
      case Ok(v) => var (rest, err) := SliceFrom(st, i + 1); ([v] + rest, err)
  }

  // ---------------------------------------------------------------------
  // Properties of the store

  lemma RemoveKeepsValid(st: TilesState, key: Key)
    requires ValidState(st)
    ensures ValidState(RemoveSpec(st, key).0)
  {
  }

  /** `add` keeps names unique and in name order, and succeeds exactly when
      the key is a str or tuple not yet present and the image has the
      store's shape (or is the first); it then holds one more tile and the
      store's shape is that image's shape. */
  lemma AddOutcome(st: TilesState, key: Key, tile: Tile)
    requires ValidState(st)
    ensures var (st', err) := AddSpec(st, key, tile);
      && ValidState(st')
      && (err.None? <==>
            key.IsStrOrTuple() && Str(key) !in st.records
            && (st.shape.None? || st.shape == Some(tile.image.shape))
            && StringWriteError(tile).None?)
      && (err.None? ==> |st'.keys| == |st.keys| + 1 && st'.shape == Some(tile.image.shape)
                        && Str(key) in st'.records && st'.records[Str(key)].image == tile.image
                        && forall k :: k in st.records ==> k in st'.records && st'.records[k] == st.records[k])
      && (err.Some? && err != Some(UnicodeEncodeError) ==> st' == st)
      && (err == Some(UnicodeEncodeError) ==> |st'.keys| == |st.keys| + 1 && Str(key) in st'.records)
      && (st.shape.Some? ==> st'.shape == st.shape)
  {
  }

  /** A key already present (in either spelling, str or tuple) is rejected
      and nothing changes. */
  lemma {:induction false} DuplicateAddRejected(st: TilesState, t: seq<int>, tile: Tile, other: Tile)
    requires ValidState(st)
    requires AddSpec(st, KTuple(t), tile).1.None?
    ensures var st' := AddSpec(st, KTuple(t), tile).0;
      AddSpec(st', KStr(TupleRepr(t)), other) == (st', Some(KeyError))
      && AddSpec(st', KTuple(t), other) == (st', Some(KeyError))
  {
    AddOutcome(st, KTuple(t), tile);
  }

  /** The view `get` gives of a freshly added tile: the image, masks, name,
      coordinates and slidetype come back, but the labels do not, since
      `add` writes them as a sub-group and `get` reads only the attribute. */
  function ExpectedView(tile: Tile): TileView {
    TileView(
      if tile.name != "" then Some(tile.name) else None,
      tile.image,
      tile.masks,
      None,
      if tile.coords != [] then Some(tile.coords) else None,
      if tile.slidetype != "" then Some(tile.slidetype) else None)
  }

  /** Round trip: a tile added under a key is read back by that key. */
  lemma {:induction false} AddThenGet(st: TilesState, key: Key, tile: Tile)
    requires ValidState(st)
    requires AddSpec(st, key, tile).1.None?
    ensures GetSpec(AddSpec(st, key, tile).0, key) == Ok(ExpectedView(tile))
  {
    AddOutcome(st, key, tile);
    if tile.coords != [] {
      TupleRoundTrip(tile.coords);
    }
  }

  /** An integer key addresses the tile at that position in name order;
      beyond the last position it is a KeyError; a negative one counts from
      the end, and below `-len` is an IndexError. */
  lemma GetByPosition(st: TilesState, i: int)
    requires ValidState(st)
    ensures i > |st.keys| - 1 ==> GetSpec(st, KInt(i)) == Err(KeyError)
    ensures 0 <= i < |st.keys| ==> GetSpec(st, KInt(i)) == ReadRecord(st.records[st.keys[i]], false)
    ensures -|st.keys| <= i < 0 ==> GetSpec(st, KInt(i)) == ReadRecord(st.records[st.keys[|st.keys| + i]], false)
    ensures i < -|st.keys| ==> GetSpec(st, KInt(i)) == Err(IndexError)
  {
  }

  /** Keys of any other type are a KeyError, and a bool is read as the int
      position 0 or 1. */
  lemma GetOtherKeys(st: TilesState, r: string, b: bool)
    requires ValidState(st)
    ensures GetSpec(st, KOther(r)) == Err(KeyError)
    ensures GetSpec(st, KBool(b)) == GetSpec(st, KInt(if b then 1 else 0))
  {
  }

  /** A str or tuple key that names no group is a KeyError. */
  lemma GetAbsent(st: TilesState, key: Key)
    requires ValidState(st) && key.IsStrOrTuple() && Str(key) !in st.records
    ensures GetSpec(st, key) == Err(KeyError)
  {
  }

  /** `remove` deletes exactly the named group and keeps the shape. */
  lemma RemoveOutcome(st: TilesState, key: Key)
    requires ValidState(st)
    ensures var (st', err) := RemoveSpec(st, key);
      && ValidState(st')
      && st'.shape == st.shape
      && (err.None? <==> key.IsStrOrTuple() && Str(key) in st.records)
      && (err.Some? ==> err == Some(KeyError) && st' == st)
      && (err.None? ==> st'.records == st.records - {Str(key)}
                        && |st'.keys| == |st.keys| - 1
                        && forall k :: k in st'.keys <==> k in st.keys && k != Str(key))
  {
  }

  /** Replacing a whole tile keeps the number of tiles and their order, and
      the new tile is what is then read back. */
  lemma {:induction false} UpdateAllKeepsCount(st: TilesState, key: Key, tile: Tile)
    requires ValidState(st)
    requires UpdateSpec(st, key, UTile(tile), "all").1.None?
    ensures var st' := UpdateSpec(st, key, UTile(tile), "all").0;
      && ValidState(st')
      && st'.keys == st.keys
      && |st'.records| == |st.records|
      && GetSpec(st', KStr(Str(key))) == Ok(ExpectedView(tile))
      && forall k :: k in st.records && k != Str(key) ==> k in st'.records && st'.records[k] == st.records[k]
  {
    var k := Str(key);
    var removed := RemoveSpec(st, KStr(k)).0;
    RemoveOutcome(st, KStr(k));
    AddOutcome(removed, KStr(k), tile);
    AddThenGet(removed, KStr(k), tile);
    var st' := AddSpec(removed, KStr(k), tile).0;
    SortedUnique(st'.keys, st.keys);
    assert st'.records.Keys == st.records.Keys;
  }

  /** Replacing the image needs an ndarray of the stored shape and changes
      nothing but that tile's image. */
  lemma UpdateImageOnly(st: TilesState, key: Key, a: NdArray)
    requires ValidState(st) && Str(key) in st.records
    requires GetSpec(st, KStr(Str(key))).Ok?
    ensures var (st', err) := UpdateSpec(st, key, UArray(a), "image");
      && (err.None? <==> a.shape == st.records[Str(key)].image.shape)
      && (err.Some? ==> err == Some(AssertionError) && st' == st)
      && (err.None? ==> st'.keys == st.keys && st'.shape == st.shape
                        && st'.records == st.records[Str(key) := st.records[Str(key)].(image := a)])
  {
  }

  /** Setting the labels of a readable tile succeeds exactly for a
      non-empty dict of str values; it then replaces that tile's labels
      attribute and nothing else, and otherwise is a TypeError that
      changes nothing. */
  lemma UpdateLabelsOutcome(st: TilesState, key: Key, items: seq<(string, Scalar)>)
    requires ValidState(st) && Str(key) in st.records
    requires GetSpec(st, KStr(Str(key))).Ok?
    ensures var (st', err) := UpdateSpec(st, key, UDict(items), "labels");
      && (err.None? <==> items != [] && forall i :: 0 <= i < |items| ==> items[i].1.SStr?)
      && (err.Some? ==> err == Some(TypeError) && st' == st)
      && (err.None? ==> st'.keys == st.keys && st'.shape == st.shape
                        && st'.records == st.records[Str(key) := st.records[Str(key)].(labelsAttr := Some(items))])
  {
  }

  /** Labels passed to `update(..., 'labels')` are what `get` returns next,
      and the rest of the store is as it was. */
  lemma {:induction false} UpdateLabelsThenGet(st: TilesState, key: Key, items: seq<(string, Scalar)>)
    requires ValidState(st) && Str(key) in st.records
    requires UpdateSpec(st, key, UDict(items), "labels").1.None?
    ensures var st' := UpdateSpec(st, key, UDict(items), "labels").0;
      && ValidState(st')
      && st'.keys == st.keys && st'.shape == st.shape
      && st'.records == st.records[Str(key) := st.records[Str(key)].(labelsAttr := Some(items))]
      && GetSpec(st', KStr(Str(key))).Ok?
      && GetSpec(st', KStr(Str(key))).value.labels == Some(LabelDict(DictOf(LabelTexts(items))))
  {
    var k := Str(key);
    var rec := st.records[k];
    assert GetSpec(st, KStr(k)) == ReadRecord(rec, true);
    assert rec.coordsAttr.Some? ==> ParseTuple(rec.coordsAttr.value).Some?;
  }

  /** The targets other than all, image and labels. */
  lemma UpdateOtherTargets(st: TilesState, key: Key, val: UpdateArg, target: string)
    requires ValidState(st)
    requires target != "all" && target != "image" && target != "labels"
    ensures var (st', err) := UpdateSpec(st, key, val, target);
      && st' == st
      && (Str(key) !in st.records ==> err == Some(ValueError))
      && (GetSpec(st, KStr(Str(key))).Ok? ==>
            err == Some(if target == "masks" then NotImplementedError else KeyError))
  {
  }

  /** `slice` yields one view per tile, in listing order, each the view
      `get` gives by that tile's name. */
  lemma {:induction false} SliceInKeyOrder(st: TilesState, i: nat)
    requires ValidState(st) && i <= |st.keys|
    requires SliceFrom(st, i).1.None?
    ensures var views := SliceFrom(st, i).0;
      && |views| == |st.keys| - i
      && forall j :: 0 <= j < |views| ==> Ok(views[j]) == GetSpec(st, KStr(st.keys[i + j]))
    decreases |st.keys| - i
  {
    if i < |st.keys| {
      SliceInKeyOrder(st, i + 1);
    }
  }

  // ---------------------------------------------------------------------
  // The manager object

  class TilesStore {
    var keys: seq<string>
    var records: map<string, Record>
    var shape: Option<seq<nat>>

    function State(): TilesState
      reads this
    {
      TilesState(keys, records, shape)
    }

    ghost predicate Valid()
      reads this
    {
      ValidState(State())
    }

    /** `__init__(h5)`: a fresh file, into which every group of `source`
        (another store's file, when given) is copied; the shape stays unset. */
    constructor (source: Option<TilesState>)
      requires source.Some? ==> ValidState(source.value)
      ensures Valid()
      ensures shape.None?
      ensures source.None? ==> keys == [] && records == map[]
      ensures source.Some? ==> keys == source.value.keys && records == source.value.records
    {
      var ks: seq<string> := [];
      var rs: map<string, Record> := map[];
      if source.Some? {
        var src := source.value;
        var i := 0;
        while i < |src.keys|
          invariant 0 <= i <= |src.keys|
          invariant Sorted(ks)
          invariant forall k :: k in ks <==> k in src.keys[..i]
          invariant forall k :: k in rs <==> k in src.keys[..i]
          invariant forall k :: k in rs ==> rs[k] == src.records[k]
        {
          var k := src.keys[i];
          ks := InsertSorted(ks, k);
          rs := rs[k := src.records[k]];
          assert src.keys[..i + 1] == src.keys[..i] + [k];
          i := i + 1;
        }
        assert src.keys[..i] == src.keys;
        SortedUnique(ks, src.keys);
      }
      keys, records, shape := ks, rs, None;
    }

    method Add(key: Key, tile: Tile) returns (err: Option<PyError>)
      requires Valid()
      modifies this
      ensures Valid()
      ensures (State(), err) == AddSpec(old(State()), key, tile)
    {
      if !key.IsStrOrTuple() {
        return Some(ValueError);
      }
      var name := Str(key);
      if name in records {
        return Some(KeyError);
      }
      if shape.None? {
        shape := Some(tile.image.shape);
      }
      if tile.image.shape != shape.value {
        return Some(ValueError);
      }
      var rec := Record(tile.image, tile.masks, None, None, None, None, None);
      if tile.labels != [] {
        rec := rec.(labelsGroup := Some(DictOf(tile.labels)));
      }
      if tile.coords != [] {
        rec := rec.(coordsAttr := Some(TupleRepr(tile.coords)));
      }
      err := None;
      if tile.slidetype != "" {
        if IsAscii(tile.slidetype) {
          rec := rec.(slidetypeAttr := Some(tile.slidetype));
        } else {
          err := Some(UnicodeEncodeError);
        }
      }
      if err.None? && tile.name != "" {
        if IsAscii(tile.name) {
          rec := rec.(nameAttr := Some(tile.name));
        } else {
          err := Some(UnicodeEncodeError);
        }
      }
      keys := InsertSorted(keys, name);
      records := records[name := rec];
    }

    method Get(item: Key) returns (r: Result<TileView>)
      requires Valid()
      ensures r == GetSpec(State(), item)
    {
      if item.IsStrOrTuple() {
        var name := Str(item);
        if name !in records {
          return Err(KeyError);
        }
        r := ReadRecord(records[name], true);
        return;
      }
      if !item.IsInt() {
        return Err(KeyError);
      }
      var i := item.IntValue();
      if i > |keys| - 1 {
        return Err(KeyError);
      }
      if i < -|keys| {
        return Err(IndexError);
      }
      var k := if i >= 0 then keys[i] else keys[|keys| + i];
      r := ReadRecord(records[k], false);
    }

    method Update(key: Key, val: UpdateArg, target: string) returns (err: Option<PyError>)
      requires Valid()
      modifies this
      ensures Valid()
      ensures (State(), err) == UpdateSpec(old(State()), key, val, target)
    {
      var name := Str(key);
      if name !in records {
        return Some(ValueError);
      }
      var original := Get(KStr(name));
      if original.Err? {
        return Some(original.error);
      }
      if target == "all" {
        if !val.UTile? {
          return Some(AttributeError);
        }
        if original.value.image.shape != val.tile.image.shape {
          return Some(AssertionError);
        }
        err := Remove(KStr(name));
        err := Add(KStr(name), val.tile);
      } else if target == "image" {
        if !val.UArray? || original.value.image.shape != val.arr.shape {
          return Some(AssertionError);
        }
        records := records[name := records[name].(image := val.arr)];
        err := None;
      } else if target == "masks" {
        err := Some(NotImplementedError);
      } else if target == "labels" {
        if !val.UDict? {
          return Some(AssertionError);
        }
        if !StorableLabels(val.items) {
          return Some(TypeError);
        }
        records := records[name := records[name].(labelsAttr := Some(val.items))];
        err := None;
      } else {
        err := Some(KeyError);
      }
    }

    /** The generator `slice()`, drained: the views it yields and the
        exception that stopped it, if any. */
    method Slice() returns (views: seq<TileView>, err: Option<PyError>)
      requires Valid()
      ensures (views, err) == SliceFrom(State(), 0)
    {
      views := [];
      err := None;
      var i := 0;
      assert views + SliceFrom(State(), 0).0 == SliceFrom(State(), 0).0;
      while i < |keys|
        invariant 0 <= i <= |keys|
        invariant SliceFrom(State(), 0) == (views + SliceFrom(State(), i).0, SliceFrom(State(), i).1)
      {
        var v := Get(KStr(keys[i]));
        ghost var tail := SliceFrom(State(), i + 1);
        if v.Err? {
          assert SliceFrom(State(), i) == ([], Some(v.error));
          assert views + [] == views;
          return views, Some(v.error);
        }
        assert SliceFrom(State(), i) == ([v.value] + tail.0, tail.1);
        assert views + ([v.value] + tail.0) == (views + [v.value]) + tail.0;
        views := views + [v.value];
        i := i + 1;
      }
      assert views + [] == views;
    }

    method Remove(key: Key) returns (err: Option<PyError>)
      requires Valid()
      modifies this
      ensures Valid()
      ensures (State(), err) == RemoveSpec(old(State()), key)
    {
      if !key.IsStrOrTuple() || Str(key) !in records {
        return Some(KeyError);
      }
      keys := RemoveName(keys, Str(key));
      records := records - {Str(key)};
      err := None;
    }
  }
}
