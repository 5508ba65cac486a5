/** The HDF5 (de)serialisation helpers of `pathml.core.utils`: strings and
    int tuples as attributes, dicts as groups of attributes, and the tile
    index written as one group per tile and read back into an ordered dict. */
module H5Utils {
  import opened PyTypes
  import opened PyRepr
  import opened NameOrder
  import opened H5Tree

  // ---------------------------------------------------------------------
  // Strings and tuples as attributes

  /** `writestringh5(h5, name, st)`, where `text` is `str(st)`:
      `np.string_` encodes the text as ASCII before anything is written. */
  function WriteString(h5: Node, name: Key, text: string): (Node, Option<PyError>) {
    if !IsAscii(text) then (h5, Some(UnicodeEncodeError))
    else (SetAttr(h5, Str(name), SBytes(text)), None)
  }

  /** `writetupleh5(h5, name, tup)`. */
  function WriteTuple(h5: Node, name: Key, t: seq<int>): (Node, Option<PyError>) {
    WriteString(h5, name, TupleRepr(t))
  }

  /** `eval` of a stored text: "None", or the text of an int tuple. */
  function EvalTuple(text: string): Result<Option<seq<int>>> {
    if text == "None" then Ok(None)
    else match ParseTuple(text)
      case Some(t) => Ok(Some(t))
      case None => Err(SyntaxError)
  }

  /** `readtupleh5(h5, key)`: None when there is no such attribute. */
  function ReadTuple(h5: Node, key: string): Result<Option<seq<int>>> {
    if key !in h5.attrs then Ok(None)
    else match h5.attrs[key]
      case SInt(_) => Err(TypeError)   // eval of an int
      case SStr(s) => EvalTuple(s)
      case SBytes(b) => EvalTuple(b)
  }

  /** `writestringh5` sets exactly one attribute, `str(name)`, to the
      encoded text, and fails without writing for non-ASCII text. */
  lemma WriteStringOutcome(h5: Node, name: Key, text: string)
    ensures var (h, err) := WriteString(h5, name, text);
      && (err.None? <==> IsAscii(text))
      && (err.Some? ==> h == h5 && err == Some(UnicodeEncodeError))
      && (err.None? ==> h.attrs == h5.attrs[Str(name) := SBytes(text)]
                        && h.Group? == h5.Group?
                        && (h5.Group? ==> h.children == h5.children && h.order == h5.order))
  {
  }

  /** A tuple written by `writetupleh5` reads back as the same tuple. */
  lemma {:induction false} TupleRoundTripH5(h5: Node, name: Key, t: seq<int>)
    ensures WriteTuple(h5, name, t).1.None?
    ensures ReadTuple(WriteTuple(h5, name, t).0, Str(name)) == Ok(Some(t))
  {
    TupleReprAscii(t);
    TupleRoundTrip(t);
    assert TupleRepr(t) != "None" by {
      assert TupleRepr(t)[0] == '(';
    }
  }

  /** A missing attribute reads as None; so does a written `None`. */
  lemma ReadTupleNone(h5: Node, name: Key)
    ensures Str(name) !in h5.attrs ==> ReadTuple(h5, Str(name)) == Ok(None)
    ensures WriteString(h5, name, "None").1.None?
    ensures ReadTuple(WriteString(h5, name, "None").0, Str(name)) == Ok(None)
  {
  }

  // ---------------------------------------------------------------------
  // Dicts as groups of attributes

  /** The attribute name and value `attrs.create(str(key), data=val)`
      writes for each item. */
  function AttrPairs(items: seq<(Key, Scalar)>): (r: seq<(string, Scalar)>)
    ensures |r| == |items|
    ensures forall i :: 0 <= i < |r| ==> r[i] == (Str(items[i].0), items[i].1)
  {
    seq(|items|, i requires 0 <= i < |items| => (Str(items[i].0), items[i].1))
  }

  /** The attributes left after writing every item in turn. */
  function AttrDict(items: seq<(Key, Scalar)>): map<string, Scalar> {
    DictOf(AttrPairs(items))
  }

  lemma AttrDictSnoc(items: seq<(Key, Scalar)>, i: nat)
    requires i < |items|
    ensures AttrDict(items[..i + 1]) == AttrDict(items[..i])[Str(items[i].0) := items[i].1]
  {
    assert AttrPairs(items[..i + 1])[..i] == AttrPairs(items[..i]);
  }

  /** Each attribute holds the value of the last item written under it. */
  lemma AttrDictLastWins(items: seq<(Key, Scalar)>, i: int)
    requires 0 <= i < |items|
    requires forall j :: i < j < |items| ==> Str(items[j].0) != Str(items[i].0)
    ensures Str(items[i].0) in AttrDict(items) && AttrDict(items)[Str(items[i].0)] == items[i].1
  {
    var pairs := AttrPairs(items);
    forall j | i < j < |pairs| ensures pairs[j].0 != pairs[i].0 {
      assert pairs[j] == (Str(items[j].0), items[j].1);
    }
    DictOfLastWins(pairs, i);
  }

  /** `writedicth5(h5, name, dic)`: the group is created under `str(name)`
      but addressed as `h5[name]`, which for a name that is not a str fails
      once there is an item to write. */
  function WriteDictSpec(h5: Node, name: Key, items: seq<(Key, Scalar)>): (r: (Node, Option<PyError>))
    ensures h5.Group? ==> r.0.Group?
  {
    var (h1, e) := CreateGroup(h5, Str(name), false);
    if e.Some? then (h1, e)
    else if items == [] then (h1, None)
    else if !name.KStr? then (h1, Some(TypeError))
    else (SetChild(h1, name.s, Group([], false, map[], AttrDict(items))), None)
  }

  /** `writedicth5` adds one new group holding one attribute per distinct
      `str(key)`, with the last value written under it; an existing name is
      a ValueError and leaves the file as it was. */
  lemma WriteDictOutcome(h5: Node, name: string, items: seq<(Key, Scalar)>)
    requires h5.Group?
    ensures var (h, err) := WriteDictSpec(h5, KStr(name), items);
      && (err.None? <==> name !in h5.children)
      && (err.Some? ==> h == h5 && err == Some(ValueError))
      && (err.None? ==>
            && h.Group? && h.order == h5.order + [name]
            && h.children == h5.children[name := h.children[name]]
            && h.children[name].Group? && h.children[name].children == map[]
            && (forall a :: a in h.children[name].attrs <==> exists i :: 0 <= i < |items| && Str(items[i].0) == a)
            && (items != [] ==> h.children[name].attrs[Str(items[|items| - 1].0)] == items[|items| - 1].1)
            && (forall i :: 0 <= i < |items| && (forall j :: i < j < |items| ==> Str(items[j].0) != Str(items[i].0)) ==>
                  h.children[name].attrs[Str(items[i].0)] == items[i].1))
  {
    if name !in h5.children && items != [] {
      var attrs := AttrDict(items);
      forall i | 0 <= i < |items| && (forall j :: i < j < |items| ==> Str(items[j].0) != Str(items[i].0))
        ensures attrs[Str(items[i].0)] == items[i].1
      {
        AttrDictLastWins(items, i);
      }
      forall a ensures a in attrs <==> exists i :: 0 <= i < |items| && Str(items[i].0) == a {
        if a in attrs {
          var i :| 0 <= i < |AttrPairs(items)| && AttrPairs(items)[i].0 == a;
        }
        if exists i :: 0 <= i < |items| && Str(items[i].0) == a {
          var i :| 0 <= i < |items| && Str(items[i].0) == a;
          assert AttrPairs(items)[i].0 == a;
        }
      }
    }
  }

  /** A name that is not a str still creates its group (under its text),
      then fails on the first item. */
  lemma WriteDictNonStrName(h5: Node, name: Key, items: seq<(Key, Scalar)>)
    requires h5.Group? && !name.KStr? && Str(name) !in h5.children && items != []
    ensures WriteDictSpec(h5, name, items) == (Link(h5, Str(name), EmptyGroup(false)), Some(TypeError))
  {
  }

  /** The loop of `writedicth5`: the new group's attributes, one item at
      a time. The `h5[name]` of each step fails on the first step already
      when the name is not a str, so that test comes before the loop. */
  method WriteDict(h5: Node, name: Key, items: seq<(Key, Scalar)>) returns (r: Node, err: Option<PyError>)
    ensures (r, err) == WriteDictSpec(h5, name, items)
  {
    var created := CreateGroup(h5, Str(name), false);
    r := created.0;
    if created.1.Some? {
      return r, created.1;
    }
    if items != [] && !name.KStr? {
      return r, Some(TypeError);
    }
    var g := EmptyGroup(false);
    var i := 0;
    while i < |items|
      invariant 0 <= i <= |items|
      invariant g == Group([], false, map[], AttrDict(items[..i]))
    {
      AttrDictSnoc(items, i);
      g := SetAttr(g, Str(items[i].0), items[i].1);
      i := i + 1;
    }
    assert items[..i] == items;
    if items != [] {
      r := SetChild(r, name.s, g);
    }
    err := None;
  }

  // ---------------------------------------------------------------------
  // The tile index

  /** A tile field's value as `writetilesdicth5` tells them apart. */
  datatype FieldVal =
    | FStr(s: string)
    | FNone
    | FDict(items: seq<(Key, Scalar)>)
    | FSlideType(fields: seq<(string, Scalar)>)   // `asdict` of the dataclass
    | FOther

  /** A tile's dict: field name to value, in order. */
  type TileFields = seq<(string, FieldVal)>

  /** A dict of str keys as items keyed by `KStr`. */
  function StrKeyed(fields: seq<(string, Scalar)>): (r: seq<(Key, Scalar)>)
    ensures |r| == |fields|
    ensures forall i :: 0 <= i < |r| ==> r[i] == (KStr(fields[i].0), fields[i].1)
  {
    seq(|fields|, i requires 0 <= i < |fields| => (KStr(fields[i].0), fields[i].1))
  }

  /** `create_dataset(field, data=np.string_(text), track_order=True)`. */
  function StringDataset(g: Node, field: string, text: string): (r: (Node, Option<PyError>))
    requires g.Group?
    ensures r.0.Group?
  {
    if !IsAscii(text) then (g, Some(UnicodeEncodeError))
    else if field in g.children then (g, Some(ValueError))
    else (Link(g, field, Text(text, map[])), None)
  }

  /** One field of one tile written into the tile's group. */
  function WriteField(g: Node, field: string, v: FieldVal): (r: (Node, Option<PyError>))
    requires g.Group?
    ensures r.0.Group?
  {
    match v
    case FStr(s) => StringDataset(g, field, s)
    case FNone => StringDataset(g, field, "None")
    case FDict(items) => WriteDictSpec(g, KStr(field), items)
    case FSlideType(fs) => WriteDictSpec(g, KStr(field), StrKeyed(fs))
    case FOther => (g, Some(GenericException))
  }

  /** The fields of one tile, in order, up to the first failure. */
  function WriteFields(g: Node, fields: TileFields): (r: (Node, Option<PyError>))
    requires g.Group?
    ensures r.0.Group?
    decreases |fields|
  {
    if fields == [] then (g, None)
    else
      var (g1, e) := WriteField(g, fields[0].0, fields[0].1);
      if e.Some? then (g1, e) else WriteFields(g1, fields[1..])
  }

  /** The tiles `rest` of `dic`, in order: each gets a new tracked group
      under `str(tile)`, filled from `dic[str(tile)]`; the first failure
      stops the writing, leaving what was written. */
  function WriteTiles(outer: Node, rest: seq<(Key, TileFields)>, dic: seq<(Key, TileFields)>): (r: (Node, Option<PyError>))
    requires outer.Group?
    ensures r.0.Group? && r.0.tracked == outer.tracked
    decreases |rest|
  {
    if rest == [] then (outer, None)
    else
      var tile := Str(rest[0].0);
      var (o1, e1) := CreateGroup(outer, tile, true);
      if e1.Some? then (o1, e1)
      else match Lookup(dic, KStr(tile))
        case None => (o1, Some(KeyError))
        case Some(fields) =>
          var (g, e2) := WriteFields(EmptyGroup(true), fields);
          var o2 := SetChild(o1, tile, g);
          if e2.Some? then (o2, e2) else WriteTiles(o2, rest[1..], dic)
  }

  /** `writetilesdicth5(h5, name, dic)`: testing a name that is not a str
      for membership raises before anything is written; the outer group is
      created (tracking creation order) only when absent. */
  function WriteTilesDictSpec(h5: Node, name: Key, dic: seq<(Key, TileFields)>): (Node, Option<PyError>) {
    if !h5.Group? then (h5, Some(AttributeError))
    else if !name.KStr? then (h5, Some(TypeError))
    else
      var h1 := if name.s in h5.children then h5 else Link(h5, name.s, EmptyGroup(true));
      if dic == [] then (h1, None)
      else if !h1.children[name.s].Group? then (h1, Some(AttributeError))
      else
        var (o, e) := WriteTiles(h1.children[name.s], dic, dic);
        (SetChild(h1, name.s, o), e)
  }

  /** The fields of one tile, written into a new group. */
  method WriteTileFields(fields: TileFields) returns (g: Node, err: Option<PyError>)
    ensures (g, err) == WriteFields(EmptyGroup(true), fields)
  {
    g := EmptyGroup(true);
    var j := 0;
    while j < |fields|
      invariant 0 <= j <= |fields| && g.Group?
      invariant WriteFields(EmptyGroup(true), fields) == WriteFields(g, fields[j..])
    {
      assert fields[j..][1..] == fields[j + 1..];
      var field := fields[j].0;
      var e: Option<PyError>;
      match fields[j].1 {
        case FStr(s) =>
          var res := StringDataset(g, field, s);
          g, e := res.0, res.1;
        case FNone =>
          var res := StringDataset(g, field, "None");
          g, e := res.0, res.1;
        case FDict(items) =>
          g, e := WriteDict(g, KStr(field), items);
        case FSlideType(fs) =>
          g, e := WriteDict(g, KStr(field), StrKeyed(fs));
        case FOther =>
          e := Some(GenericException);
      }
      if e.Some? {
        return g, e;
      }
      j := j + 1;
    }
    err := None;
  }

  /** The loop of `writetilesdicth5` over the tiles, writing each into the
      outer group until the first failure. */
  method WriteTilesLoop(outer0: Node, dic: seq<(Key, TileFields)>) returns (outer: Node, err: Option<PyError>)
    requires outer0.Group?
    ensures (outer, err) == WriteTiles(outer0, dic, dic)
  {
    outer := outer0;
    ghost var spec := WriteTiles(outer0, dic, dic);
    var i := 0;
    assert dic[i..] == dic;
    while i < |dic|
      invariant 0 <= i <= |dic| && outer.Group?
      invariant spec == WriteTiles(outer, dic[i..], dic)
    {
      assert dic[i..][1..] == dic[i + 1..];
      var tile := Str(dic[i].0);
      if tile in outer.children {
        return outer, Some(ValueError);
      }
      outer := Link(outer, tile, EmptyGroup(true));
      var fields := Lookup(dic, KStr(tile));
      if fields.None? {
        return outer, Some(KeyError);
      }
      var g, e := WriteTileFields(fields.value);
      outer := SetChild(outer, tile, g);
      if e.Some? {
        return outer, e;
      }
      i := i + 1;
    }
    err := None;
  }

  /** `writetilesdicth5(h5, name, dic)`. */
  method WriteTilesDict(h5: Node, name: Key, dic: seq<(Key, TileFields)>) returns (r: Node, err: Option<PyError>)
    ensures (r, err) == WriteTilesDictSpec(h5, name, dic)
  {
    if !h5.Group? {
      return h5, Some(AttributeError);
    }
    if !name.KStr? {
      return h5, Some(TypeError);
    }
    r := h5;
    if name.s !in r.children {
      r := Link(r, name.s, EmptyGroup(true));
    }
    if dic == [] {
      return r, None;
    }
    if !r.children[name.s].Group? {
      return r, Some(AttributeError);
    }
    var outer;
    outer, err := WriteTilesLoop(r.children[name.s], dic);
    r := SetChild(r, name.s, outer);
  }

  // ---------------------------------------------------------------------
  // Reading the tile index back

  /** A tile's name as read back: None, a text, or what `literal_eval`
      makes of an int or int-tuple text. */
  datatype NameVal = NoName | NText(s: string) | NInt(i: int) | NTuple(t: seq<int>)

  /** The dict `readtilesdicth5` builds for one tile: exactly the keys
      `name`, `labels` and `coords`. */
  datatype TileEntry = TileEntry(name: NameVal, labels: Option<map<string, Scalar>>, coords: Option<string>)

  /** `ast.literal_eval` of a stored name text, as written: "None", an int
      or an int tuple; any other text (an ordinary tile name) is a
      ValueError. */
  function LiteralEvalName(text: string): Result<NameVal> {
    if text == "None" then Ok(NoName)
    else match ParseInt(text)
      case Some(i) => Ok(NInt(i))
      case None =>
        match ParseTuple(text)
        case Some(t) => Ok(NTuple(t))
        case None => Err(ValueError)
  }

  /** The evidently intended reading of a stored name: the text `str(None)`
      stands for None, any other text is the name itself. */
  function ReadName(text: string): NameVal {
    if text == "None" then NoName else NText(text)
  }

  /** A byte string attribute decodes to a str; other values stay. */
  function DecodeScalar(v: Scalar): (r: Scalar)
    ensures !r.SBytes?
    ensures v.SBytes? ==> r == SStr(v.b)
    ensures !v.SBytes? ==> r == v
  {
    match v
    case SBytes(b) => SStr(b)
    case _ => v
  }

  /** The labels dict of one tile: every attribute decoded; none at all
      reads as None. */
  function DecodeLabels(attrs: map<string, Scalar>): (r: Option<map<string, Scalar>>)
    ensures r.None? <==> attrs == map[]
    ensures r.Some? ==> r.value.Keys == attrs.Keys
                        && forall k :: k in attrs ==> r.value[k] == DecodeScalar(attrs[k])
  {
    if attrs == map[] then None
    else
      assert exists k :: k in attrs;
      Some(map k | k in attrs :: DecodeScalar(attrs[k]))
  }

  /** `node[...].item().decode('UTF-8')`: a group cannot be read that way. */
  function ReadText(n: Node): Result<string> {
    if n.Text? then Ok(n.data) else Err(TypeError)
  }

  /** One tile group read back; `literalNames` selects the name reading as
      written (`literal_eval`) rather than the intended one. */
  function ReadTile(t: Node, literalNames: bool): Result<TileEntry> {
    if !t.Group? then Err(AttributeError)   // a dataset has no keys()
    else
      var name :=
        if "name" !in t.children then Ok(NoName)
        else match ReadText(t.children["name"])
          case Err(e) => Err(e)
          case Ok(text) => if literalNames then LiteralEvalName(text) else Ok(ReadName(text));
      if name.Err? then Err(name.error)
      else
        var labels := if "labels" in t.children then DecodeLabels(t.children["labels"].attrs) else None;
        if "coords" !in t.children then Ok(TileEntry(name.value, labels, None))
        else match ReadText(t.children["coords"])
          case Err(e) => Err(e)
          case Ok(c) => Ok(TileEntry(name.value, labels, Some(c)))
  }

  /** The tiles `names` of `h5`, in order, up to the first failure. */
  function ReadEach(h5: Node, names: seq<string>, literalNames: bool): Result<seq<(string, TileEntry)>>
    requires h5.Group? && forall k :: k in names ==> k in h5.children
    decreases |names|
  {
    if names == [] then Ok([])
    else match ReadTile(h5.children[names[0]], literalNames)
      case Err(e) => Err(e)
      case Ok(entry) =>
        match ReadEach(h5, names[1..], literalNames)
        case Err(e) => Err(e)
        case Ok(rest) => Ok([(names[0], entry)] + rest)
  }

  /** `readtilesdicth5(h5)`: one entry per member, in the group's order. */
  function ReadTilesSpec(h5: Node, literalNames: bool): Result<seq<(string, TileEntry)>>
    requires Listed(h5)
  {
    if !h5.Group? then Err(AttributeError) else ReadEach(h5, Listing(h5), literalNames)
  }

  /** Reading one tile group. With the intended name reading it fails
      exactly when `name` or `coords` is a group rather than a string
      dataset; a missing `name` or the text `None` reads as None, a
      missing `coords` as None, and `labels` reads as None when absent or
      empty, otherwise as its attributes with byte strings decoded. As
      written, it also fails when the name text is not a literal, and
      otherwise gives the same labels and coords. */
  lemma ReadTileOutcome(t: Node)
    requires t.Group?
    ensures ReadTile(t, false).Ok? <==>
              ("name" in t.children ==> t.children["name"].Text?) &&
              ("coords" in t.children ==> t.children["coords"].Text?)
    ensures ReadTile(t, true).Ok? <==>
              ("name" in t.children ==> t.children["name"].Text? && LiteralEvalName(t.children["name"].data).Ok?) &&
              ("coords" in t.children ==> t.children["coords"].Text?)
    ensures ReadTile(t, true).Ok? ==>
              && ReadTile(t, false).Ok?
              && ReadTile(t, true).value.labels == ReadTile(t, false).value.labels
              && ReadTile(t, true).value.coords == ReadTile(t, false).value.coords
              && ("name" in t.children ==> ReadTile(t, true).value.name == LiteralEvalName(t.children["name"].data).value)
              && ("name" !in t.children ==> ReadTile(t, true).value.name == NoName)
    ensures ReadTile(t, false).Ok? ==>
              ReadTile(t, false).value.labels ==
                (if "labels" in t.children then DecodeLabels(t.children["labels"].attrs) else None)
    ensures ReadTile(t, false).Ok? ==>
              var e := ReadTile(t, false).value;
              (e.name == NoName <==> "name" !in t.children || t.children["name"].data == "None") &&
              (e.name != NoName ==> e.name == NText(t.children["name"].data)) &&
              (e.coords.None? <==> "coords" !in t.children) &&
              (e.coords.Some? ==> e.coords.value == t.children["coords"].data) &&
              (e.labels.None? <==> "labels" !in t.children || t.children["labels"].attrs == map[]) &&
              (e.labels.Some? ==> e.labels.value.Keys == t.children["labels"].attrs.Keys &&
                                  forall k :: k in e.labels.value ==> !e.labels.value[k].SBytes?)
  {
  }

  function Prefixed(acc: seq<(string, TileEntry)>, r: Result<seq<(string, TileEntry)>>): Result<seq<(string, TileEntry)>> {
    match r
    case Ok(rest) => Ok(acc + rest)
    case Err(e) => Err(e)
  }

  /** The loop over the label attributes, inserting each decoded value. */
  method ReadLabels(attrs: map<string, Scalar>) returns (labels: Option<map<string, Scalar>>)
    ensures labels == DecodeLabels(attrs)
  {
    var labeldict: map<string, Scalar> := map[];
    var todo := attrs.Keys;
    while todo != {}
      invariant todo <= attrs.Keys
      invariant labeldict == map k | k in attrs && k !in todo :: DecodeScalar(attrs[k])
      decreases todo
    {
      var a :| a in todo;
      labeldict := labeldict[a := DecodeScalar(attrs[a])];
      todo := todo - {a};
    }
    labels := if labeldict == map[] then None else Some(labeldict);
    assert labeldict == map k | k in attrs :: DecodeScalar(attrs[k]);
    assert attrs != map[] ==> labeldict != map[] by {
      if attrs != map[] {
        var k :| k in attrs;
        assert k in labeldict;
      }
    }
  }

  /** One tile of `readtilesdicth5`. */
  method ReadTileAt(t: Node, literalNames: bool) returns (r: Result<TileEntry>)
    ensures r == ReadTile(t, literalNames)
  {
    if !t.Group? {
      return Err(AttributeError);
    }
    var name: NameVal := NoName;
    if "name" in t.children {
      var text := ReadText(t.children["name"]);
      if text.Err? {
        return Err(text.error);
      }
      if literalNames {
        var n := LiteralEvalName(text.value);
        if n.Err? {
          return Err(n.error);
        }
        name := n.value;
      } else {
        name := ReadName(text.value);
      }
    }
    var labels: Option<map<string, Scalar>> := None;
    if "labels" in t.children {
      labels := ReadLabels(t.children["labels"].attrs);
    }
    var coords: Option<string> := None;
    if "coords" in t.children {
      var c := ReadText(t.children["coords"]);
      if c.Err? {
        return Err(c.error);
      }
      coords := Some(c.value);
    }
    r := Ok(TileEntry(name, labels, coords));
  }

  /** One step of `ReadEach`: the tile at `i` fails, or its entry joins
      those read before it. */
  lemma ReadEachStep(h5: Node, names: seq<string>, i: nat, literalNames: bool, acc: seq<(string, TileEntry)>)
    requires h5.Group? && (forall k :: k in names ==> k in h5.children) && i < |names|
    ensures var t := ReadTile(h5.children[names[i]], literalNames);
      && (t.Err? ==> Prefixed(acc, ReadEach(h5, names[i..], literalNames)) == Err(t.error))
      && (t.Ok? ==> Prefixed(acc, ReadEach(h5, names[i..], literalNames))
                    == Prefixed(acc + [(names[i], t.value)], ReadEach(h5, names[i + 1..], literalNames)))
  {
    assert names[i..][1..] == names[i + 1..];
    var later := ReadEach(h5, names[i + 1..], literalNames);
    var t := ReadTile(h5.children[names[i]], literalNames);
    if t.Ok? && later.Ok? {
      assert acc + ([(names[i], t.value)] + later.value) == (acc + [(names[i], t.value)]) + later.value;
    }
  }

  /** The loop of `readtilesdicth5` over the listed names: the first tile
      that fails ends it, otherwise each entry is appended in turn. */
  method ReadTilesLoop(h5: Node, names: seq<string>, literalNames: bool) returns (r: Result<seq<(string, TileEntry)>>)
    requires h5.Group? && forall k :: k in names ==> k in h5.children
    ensures r == ReadEach(h5, names, literalNames)
  {
    var tilesdict: seq<(string, TileEntry)> := [];
    var i := 0;
    assert names[i..] == names;
    ghost var all := ReadEach(h5, names, literalNames);
    assert all.Ok? ==> [] + all.value == all.value;
    while i < |names|
      invariant 0 <= i <= |names|
      invariant all == Prefixed(tilesdict, ReadEach(h5, names[i..], literalNames))
    {
      ReadEachStep(h5, names, i, literalNames, tilesdict);
      var entry := ReadTileAt(h5.children[names[i]], literalNames);
      if entry.Err? {
        return Err(entry.error);
      }
      tilesdict := tilesdict + [(names[i], entry.value)];
      i := i + 1;
    }
    assert tilesdict + [] == tilesdict;
    r := Ok(tilesdict);
  }

  /** `readtilesdicth5(h5)`: the tiles read in the group's listing order. */
  method ReadTilesDict(h5: Node, literalNames: bool) returns (r: Result<seq<(string, TileEntry)>>)
    requires Listed(h5)
    ensures r == ReadTilesSpec(h5, literalNames)
  {
    if !h5.Group? {
      return Err(AttributeError);
    }
    r := ReadTilesLoop(h5, Listing(h5), literalNames);
  }

  // ---------------------------------------------------------------------
  // Writing then reading the tile index

  /** A field value the writer stores: str, None, a dict or a slide type;
      a str must be ASCII for `np.string_`. */
  predicate Storable(v: FieldVal) {
    match v
    case FStr(s) => IsAscii(s)
    case FOther => false
    case _ => true
  }

  /** What writing a storable value leaves under its field name. */
  function StoredNode(v: FieldVal): Node {
    match v
    case FStr(s) => Text(s, map[])
    case FNone => Text("None", map[])
    case FDict(items) => Group([], false, map[], AttrDict(items))
    case FSlideType(fs) => Group([], false, map[], AttrDict(StrKeyed(fs)))
    case FOther => Text("", map[])
  }

  /** A tile dict the writer can store and the reader can read: distinct
      storable fields, with `name` and `coords` stored as text. */
  ghost predicate WellFormedTile(fields: TileFields) {
    && (forall i, j :: 0 <= i < j < |fields| ==> fields[i].0 != fields[j].0)
    && (forall i :: 0 <= i < |fields| ==> Storable(fields[i].1))
    && (forall i :: 0 <= i < |fields| && (fields[i].0 == "name" || fields[i].0 == "coords") ==>
          fields[i].1.FStr? || fields[i].1.FNone?)
  }

  /** A tiles dict keyed by distinct strs, each tile well formed. */
  ghost predicate WellFormedTiles(dic: seq<(Key, TileFields)>) {
    && (forall i :: 0 <= i < |dic| ==> dic[i].0.KStr? && WellFormedTile(dic[i].1))
    && (forall i, j :: 0 <= i < j < |dic| ==> dic[i].0 != dic[j].0)
  }

  /** The entry `readtilesdicth5` should give for a tile written from
      `fields`: its name (None for a missing name or `None`), its labels
      decoded (None when there are none, or when they were stored as
      text), and its coords text. */
  function ExpectedEntry(fields: TileFields): TileEntry {
    var name: Option<FieldVal> := Lookup(fields, "name");
    var labels: Option<FieldVal> := Lookup(fields, "labels");
    var coords: Option<FieldVal> := Lookup(fields, "coords");
    TileEntry(
      match name
      case Some(FStr(s)) => ReadName(s)
      case _ => NoName,
      match labels
      case Some(FDict(items)) => DecodeLabels(AttrDict(items))
      case Some(FSlideType(fs)) => DecodeLabels(AttrDict(StrKeyed(fs)))
      case _ => None,
      match coords
      case Some(FStr(s)) => Some(s)
      case Some(FNone) => Some("None")
      case _ => None)
  }

  lemma WriteFieldStores(g: Node, field: string, v: FieldVal)
    requires g.Group? && field !in g.children && Storable(v)
    ensures WriteField(g, field, v) == (Link(g, field, StoredNode(v)), None)
  {
    match v {
      case FDict(items) =>
        if items != [] {
          assert g.children[field := EmptyGroup(false)][field := StoredNode(v)] == g.children[field := StoredNode(v)];
        }
      case FSlideType(fs) =>
        if fs != [] {
          assert g.children[field := EmptyGroup(false)][field := StoredNode(v)] == g.children[field := StoredNode(v)];
        }
      case _ =>
    }
  }

  /** Distinct new fields, all storable, are all written: each field name
      holds its stored value and nothing else in the group changes. */
  lemma {:induction false} WriteFieldsStores(g: Node, fields: TileFields)
    requires g.Group?
    requires forall i, j :: 0 <= i < j < |fields| ==> fields[i].0 != fields[j].0
    requires forall i :: 0 <= i < |fields| ==> Storable(fields[i].1) && fields[i].0 !in g.children
    ensures WriteFields(g, fields).1.None?
    ensures var r := WriteFields(g, fields).0;
      && (forall k :: k in r.children <==> k in g.children || exists i :: 0 <= i < |fields| && fields[i].0 == k)
      && (forall k :: k in g.children ==> r.children[k] == g.children[k])
      && (forall i :: 0 <= i < |fields| ==> r.children[fields[i].0] == StoredNode(fields[i].1))
    decreases |fields|
  {
    if fields != [] {
      WriteFieldStores(g, fields[0].0, fields[0].1);
      var g1 := Link(g, fields[0].0, StoredNode(fields[0].1));
      var tail := fields[1..];
      assert forall i :: 0 <= i < |tail| ==> tail[i] == fields[i + 1];
      WriteFieldsStores(g1, tail);
      var r := WriteFields(g1, tail).0;
      assert WriteFields(g, fields) == WriteFields(g1, tail);
      forall k ensures k in r.children <==> k in g.children || exists i :: 0 <= i < |fields| && fields[i].0 == k {
        if exists i :: 0 <= i < |tail| && tail[i].0 == k {
          var i :| 0 <= i < |tail| && tail[i].0 == k;
          assert fields[i + 1].0 == k;
        }
        if exists i :: 0 <= i < |fields| && fields[i].0 == k {
          var i :| 0 <= i < |fields| && fields[i].0 == k;
          if i > 0 { assert tail[i - 1].0 == k; }
        }
      }
      forall i | 0 <= i < |fields| ensures r.children[fields[i].0] == StoredNode(fields[i].1) {
        if i > 0 { assert tail[i - 1] == fields[i]; }
      }
    }
  }

  /** A field's lookup in a well-formed tile names its one stored child. */
  lemma LookupField(fields: TileFields, f: string, i: nat)
    requires WellFormedTile(fields) && i < |fields| && fields[i].0 == f
    ensures Lookup(fields, f) == Some(fields[i].1)
  {
    var j :| 0 <= j < |fields| && fields[j] == (f, Lookup(fields, f).value);
    assert i == j;
  }

  /** In the group written from a well-formed tile, a field name is a
      member exactly when the dict has it, holding its stored value. */
  lemma StoredChild(fields: TileFields, f: string)
    requires WellFormedTile(fields)
    ensures var t := WriteFields(EmptyGroup(true), fields).0;
      && (f in t.children <==> Lookup(fields, f).Some?)
      && (f in t.children ==> t.children[f] == StoredNode(Lookup(fields, f).value))
  {
    WriteFieldsStores(EmptyGroup(true), fields);
    var t := WriteFields(EmptyGroup(true), fields).0;
    if f in t.children {
      var i :| 0 <= i < |fields| && fields[i].0 == f;
      LookupField(fields, f, i);
    }
  }

  /** A tile written from a well-formed dict reads back as its expected
      entry. */
  lemma ReadWrittenTile(fields: TileFields)
    requires WellFormedTile(fields)
    ensures ReadTile(WriteFields(EmptyGroup(true), fields).0, false) == Ok(ExpectedEntry(fields))
  {
    StoredChild(fields, "name");
    StoredChild(fields, "labels");
    StoredChild(fields, "coords");
    var name: Option<FieldVal> := Lookup(fields, "name");
    var coords: Option<FieldVal> := Lookup(fields, "coords");
    if name.Some? {
      var i :| 0 <= i < |fields| && fields[i] == ("name", name.value);
    }
    if coords.Some? {
      var i :| 0 <= i < |fields| && fields[i] == ("coords", coords.value);
    }
  }

  /** The first of the remaining tiles, when it is written without failure. */
  lemma FirstTileStep(outer: Node, rest: seq<(Key, TileFields)>, dic: seq<(Key, TileFields)>)
    requires outer.Group? && rest != [] && rest[0].0.KStr? && rest[0].0.s !in outer.children
    requires Lookup(dic, rest[0].0) == Some(rest[0].1)
    requires WriteFields(EmptyGroup(true), rest[0].1).1.None?
    ensures var tile := rest[0].0.s;
      WriteTiles(outer, rest, dic)
      == WriteTiles(SetChild(Link(outer, tile, EmptyGroup(true)), tile, WriteFields(EmptyGroup(true), rest[0].1).0), rest[1..], dic)
  {
  }

  /** The text of each tile's key, in order. */
  function TileNames(rest: seq<(Key, TileFields)>): (r: seq<string>)
    ensures |r| == |rest|
  {
    if rest == [] then [] else [Str(rest[0].0)] + TileNames(rest[1..])
  }

  /** After the first tile is linked, the remaining tiles are still new to
      the group. */
  lemma TailStillFresh(outer: Node, o2: Node, rest: seq<(Key, TileFields)>, dic: seq<(Key, TileFields)>)
    requires outer.Group? && o2.Group? && rest != [] && rest[0].0.KStr?
    requires forall k :: k in o2.children <==> k in outer.children || k == rest[0].0.s
    requires forall i :: 0 <= i < |rest| ==>
               rest[i].0.KStr? && WellFormedTile(rest[i].1) && Lookup(dic, rest[i].0) == Some(rest[i].1)
               && rest[i].0.s !in outer.children
    requires forall i, j :: 0 <= i < j < |rest| ==> rest[i].0 != rest[j].0
    ensures var tail := rest[1..];
      && (forall i :: 0 <= i < |tail| ==>
            tail[i].0.KStr? && WellFormedTile(tail[i].1) && Lookup(dic, tail[i].0) == Some(tail[i].1)
            && tail[i].0.s !in o2.children)
      && (forall i, j :: 0 <= i < j < |tail| ==> tail[i].0 != tail[j].0)
  {
    var tail := rest[1..];
    forall i | 0 <= i < |tail| ensures tail[i] == rest[i + 1] && tail[i].0.s !in o2.children {
      assert rest[0].0 != rest[i + 1].0;
    }
    forall i, j | 0 <= i < j < |tail| ensures tail[i].0 != tail[j].0 {
      assert tail[i] == rest[i + 1] && tail[j] == rest[j + 1];
    }
  }

  /** The fields of each tile, in order. */
  function TileFieldsOf(rest: seq<(Key, TileFields)>): (r: seq<TileFields>)
    ensures |r| == |rest|
  {
    if rest == [] then [] else [rest[0].1] + TileFieldsOf(rest[1..])
  }

  /** The `i`-th name and fields are those of the `i`-th tile. */
  lemma {:induction false} TileSeqsAt(rest: seq<(Key, TileFields)>, i: nat)
    requires i < |rest|
    ensures TileNames(rest)[i] == Str(rest[i].0)
    ensures TileFieldsOf(rest)[i] == rest[i].1
    decreases i
  {
    if i > 0 {
      TileSeqsAt(rest[1..], i - 1);
    }
  }

  /** The group a tile's fields are written into. */
  function TileGroup(fields: TileFields): Node {
    WriteFields(EmptyGroup(true), fields).0
  }

  /** `o` has a member per name, holding what `group` makes of the
      matching item. */
  ghost predicate Holds<T>(o: Node, names: seq<string>, items: seq<T>, group: T -> Node) {
    && o.Group? && |names| == |items|
    && forall i :: 0 <= i < |names| ==> names[i] in o.children && o.children[names[i]] == group(items[i])
  }

  /** Every member of `outer` is still a member of `o`, unchanged. */
  ghost predicate KeepsMembers(o: Node, outer: Node) {
    && o.Group? && outer.Group?
    && forall k :: k in outer.children ==> k in o.children && o.children[k] == outer.children[k]
  }

  /** What holds after the members linked later carries back to the one
      linked first, `name` holding the group of `item`. */
  lemma CombineStep<T>(outer: Node, o2: Node, o: Node, name: string, item: T, names: seq<string>, items: seq<T>, group: T -> Node)
    requires KeepsMembers(o, o2) && Holds(o, names, items, group) && outer.Group?
    requires o2.order == outer.order + [name] && o.order == o2.order + names
    requires o2.children == outer.children[name := group(item)] && name !in outer.children
    ensures o.order == outer.order + ([name] + names)
    ensures KeepsMembers(o, outer) && Holds(o, [name] + names, [item] + items, group)
  {
    var ns := [name] + names;
    var ts := [item] + items;
    forall i | 0 <= i < |ns| ensures ns[i] in o.children && o.children[ns[i]] == group(ts[i]) {
      if i > 0 { assert ns[i] == names[i - 1] && ts[i] == items[i - 1]; }
    }
  }

  /** The tiles of `rest` are new to `outer`, distinct, found in `dic`
      and well formed. */
  ghost predicate FreshTiles(outer: Node, rest: seq<(Key, TileFields)>, dic: seq<(Key, TileFields)>) {
    && outer.Group? && Listed(outer)
    && (forall i :: 0 <= i < |rest| ==>
          rest[i].0.KStr? && WellFormedTile(rest[i].1) && Lookup(dic, rest[i].0) == Some(rest[i].1)
          && rest[i].0.s !in outer.children)
    && (forall i, j :: 0 <= i < j < |rest| ==> rest[i].0 != rest[j].0)
  }

  /** The group after the first tile of `rest` is written. */
  function AfterFirst(outer: Node, rest: seq<(Key, TileFields)>): (r: Node)
    requires outer.Group? && rest != [] && rest[0].0.KStr? && rest[0].0.s !in outer.children
    ensures r.Group? && r.order == outer.order + [rest[0].0.s]
    ensures r.children == outer.children[rest[0].0.s := TileGroup(rest[0].1)]
    ensures Listed(outer) ==> Listed(r)
  {
    SetChild(Link(outer, rest[0].0.s, EmptyGroup(true)), rest[0].0.s, TileGroup(rest[0].1))
  }

  /** Writing the first tile succeeds and leaves the others fresh. */
  lemma FirstStepSetup(outer: Node, rest: seq<(Key, TileFields)>, dic: seq<(Key, TileFields)>)
    requires FreshTiles(outer, rest, dic) && rest != []
    ensures WriteTiles(outer, rest, dic) == WriteTiles(AfterFirst(outer, rest), rest[1..], dic)
    ensures FreshTiles(AfterFirst(outer, rest), rest[1..], dic)
  {
    WriteFieldsStores(EmptyGroup(true), rest[0].1);
    FirstTileStep(outer, rest, dic);
    TailStillFresh(outer, AfterFirst(outer, rest), rest, dic);
  }

  /** Tiles with distinct str keys, each found in `dic` and well formed,
      each get their own group, appended in order; the groups already
      there are kept. */
  lemma {:induction false} WriteTilesStores(outer: Node, rest: seq<(Key, TileFields)>, dic: seq<(Key, TileFields)>)
    requires FreshTiles(outer, rest, dic)
    ensures WriteTiles(outer, rest, dic).1.None?
    ensures var o := WriteTiles(outer, rest, dic).0;
      && Listed(o) && o.order == outer.order + TileNames(rest)
      && KeepsMembers(o, outer) && Holds(o, TileNames(rest), TileFieldsOf(rest), TileGroup)
    decreases |rest|
  {
    if rest != [] {
      FirstStepSetup(outer, rest, dic);
      var o2 := AfterFirst(outer, rest);
      WriteTilesStores(o2, rest[1..], dic);
      var o := WriteTiles(o2, rest[1..], dic).0;
      CombineStep(outer, o2, o, rest[0].0.s, rest[0].1, TileNames(rest[1..]), TileFieldsOf(rest[1..]), TileGroup);
      assert TileNames(rest) == [rest[0].0.s] + TileNames(rest[1..]);
      assert TileFieldsOf(rest) == [rest[0].1] + TileFieldsOf(rest[1..]);
    }
  }

  /** Every tile of a list of names reads without failure: the entries come
      out in the same order. */
  lemma {:induction false} ReadEachAll(h5: Node, names: seq<string>, literalNames: bool)
    requires h5.Group? && forall k :: k in names ==> k in h5.children
    requires forall i :: 0 <= i < |names| ==> ReadTile(h5.children[names[i]], literalNames).Ok?
    ensures ReadEach(h5, names, literalNames).Ok?
    ensures var r := ReadEach(h5, names, literalNames).value;
      |r| == |names| && forall i :: 0 <= i < |names| ==> r[i] == (names[i], ReadTile(h5.children[names[i]], literalNames).value)
    decreases |names|
  {
    if names != [] {
      var tail := names[1..];
      assert forall i :: 0 <= i < |tail| ==> tail[i] == names[i + 1];
      ReadEachAll(h5, tail, literalNames);
    }
  }

  /** `writetilesdicth5` of a well-formed dict into a new group: one
      group per tile, named by its key, in the dict's order. */
  lemma WriteTilesFresh(h5: Node, n: string, dic: seq<(Key, TileFields)>)
    requires h5.Group? && Listed(h5) && n !in h5.children && WellFormedTiles(dic)
    ensures var (h, err) := WriteTilesDictSpec(h5, KStr(n), dic);
      && err.None? && n in h.children
      && h.children[n].Group? && Listed(h.children[n])
      && h.children[n].tracked && h.children[n].order == TileNames(dic)
      && Holds(h.children[n], TileNames(dic), TileFieldsOf(dic), TileGroup)
  {
    if dic != [] {
      forall i | 0 <= i < |dic| ensures Lookup(dic, dic[i].0) == Some(dic[i].1) {
        var j :| 0 <= j < |dic| && dic[j] == (dic[i].0, Lookup(dic, dic[i].0).value);
        assert i == j;
      }
      WriteTilesStores(EmptyGroup(true), dic, dic);
    }
  }

  /** A tracked group holding one written tile per dict entry, in order,
      reads back as the expected entries. */
  lemma ReadWrittenTiles(o: Node, dic: seq<(Key, TileFields)>)
    requires o.Group? && Listed(o) && o.tracked && o.order == TileNames(dic) && WellFormedTiles(dic)
    requires Holds(o, TileNames(dic), TileFieldsOf(dic), TileGroup)
    ensures ReadTilesSpec(o, false).Ok?
    ensures var r := ReadTilesSpec(o, false).value;
      |r| == |dic| && forall i :: 0 <= i < |dic| ==> r[i] == (Str(dic[i].0), ExpectedEntry(dic[i].1))
  {
    var names := TileNames(dic);
    forall i | 0 <= i < |names|
      ensures names[i] == Str(dic[i].0) && ReadTile(o.children[names[i]], false) == Ok(ExpectedEntry(dic[i].1))
    {
      TileSeqsAt(dic, i);
      ReadWrittenTile(dic[i].1);
    }
    ReadEachAll(o, names, false);
  }

  /** `readtilesdicth5` after `writetilesdicth5` into a new group gives one
      entry per tile, in the dict's order, each the expected entry. */
  lemma TilesRoundTrip(h5: Node, n: string, dic: seq<(Key, TileFields)>)
    requires h5.Group? && Listed(h5) && n !in h5.children && WellFormedTiles(dic)
    ensures var (h, err) := WriteTilesDictSpec(h5, KStr(n), dic);
      && err.None? && n in h.children && Listed(h.children[n])
      && ReadTilesSpec(h.children[n], false).Ok?
      && var r := ReadTilesSpec(h.children[n], false).value;
         |r| == |dic| && forall i :: 0 <= i < |dic| ==> r[i] == (Str(dic[i].0), ExpectedEntry(dic[i].1))
  {
    WriteTilesFresh(h5, n, dic);
    var h := WriteTilesDictSpec(h5, KStr(n), dic).0;
    ReadWrittenTiles(h.children[n], dic);
  }

  /** `literal_eval` of an ordinary tile name fails. */
  lemma PlainNameIsNotALiteral()
    ensures LiteralEvalName("tile1") == Err(ValueError)
    ensures ReadName("tile1") == NText("tile1")
  {
    assert !AllDigits("tile1") by { assert !IsDigit("tile1"[0]); }
  }

  /** `readtilesdicth5` as written reads a tile's name with
      `literal_eval`: a name that is not a Python literal, such as "tile1",
      makes reading fail, where the intended reading returns the name. */
  lemma NonLiteralNameFailsToRead(h5: Node, n: string, key: string, name: string)
    requires h5.Group? && Listed(h5) && n !in h5.children
    requires IsAscii(name) && LiteralEvalName(name).Err?
    ensures var (h, err) := WriteTilesDictSpec(h5, KStr(n), [(KStr(key), [("name", FStr(name))])]);
      && err.None? && n in h.children && Listed(h.children[n])
      && ReadTilesSpec(h.children[n], true) == Err(ValueError)
      && ReadTilesSpec(h.children[n], false) == Ok([(key, TileEntry(NText(name), None, None))])
  {
    var fields: TileFields := [("name", FStr(name))];
    var dic := [(KStr(key), fields)];
    assert WellFormedTile(fields);
    WriteTilesFresh(h5, n, dic);
    var o := WriteTilesDictSpec(h5, KStr(n), dic).0.children[n];
    assert Listing(o) == [key];
    var t := o.children[key];
    StoredChild(fields, "name");
    StoredChild(fields, "labels");
    StoredChild(fields, "coords");
    assert ReadTile(t, true) == Err(ValueError);
    assert ReadTile(t, false) == Ok(TileEntry(NText(name), None, None));
    assert [key][1..] == [];
    var entry := TileEntry(NText(name), None, None);
    assert ReadEach(o, [key], false) == Ok([(key, entry)] + []);
    assert [(key, entry)] + [] == [(key, entry)];
    assert ReadTilesSpec(o, false) == ReadEach(o, [key], false);
  }

  /** A tile written under a tuple key gets a group named by its text, but
      its fields are looked up under that text, which is not a key: a
      KeyError, with the empty tile group left behind. */
  lemma TupleTileKeyIsKeyError(h5: Node, n: string, t: seq<int>, fields: TileFields)
    requires h5.Group? && Listed(h5) && n !in h5.children
    ensures var (h, err) := WriteTilesDictSpec(h5, KStr(n), [(KTuple(t), fields)]);
      && err == Some(KeyError) && n in h.children
      && h.children[n] == Link(EmptyGroup(true), TupleRepr(t), EmptyGroup(true))
  {
  }

  /** The outer group is created, tracking creation order, only when it is
      missing; other members of `h5` are untouched. */
  lemma OuterGroupOnce(h5: Node, n: string, dic: seq<(Key, TileFields)>)
    requires h5.Group? && Listed(h5)
    ensures var (h, err) := WriteTilesDictSpec(h5, KStr(n), dic);
      && h.Group? && n in h.children && Listed(h)
      && (n in h5.children ==> h.order == h5.order)
      && (n !in h5.children ==> h.order == h5.order + [n] && h.children[n].Group? && h.children[n].tracked)
      && forall k :: k in h5.children && k != n ==> k in h.children && h.children[k] == h5.children[k]
  {
  }
}
