/** An HDF5 file as a tree: groups hold named members and attributes;
    string datasets hold one text and attributes. A group lists its members
    in creation order when it was created with `track_order=True`, and in
    name order otherwise. */
module H5Tree {
  import opened PyTypes
  import opened NameOrder

  datatype Node =
    | Group(order: seq<string>, tracked: bool, children: map<string, Node>, attrs: map<string, Scalar>)
    | Text(data: string, attrs: map<string, Scalar>)

  function EmptyGroup(tracked: bool): Node {
    Group([], tracked, map[], map[])
  }

  /** A group's creation order names each member exactly once. */
  ghost predicate Listed(g: Node) {
    g.Group? ==> Distinct(g.order) && (forall k :: k in g.order <==> k in g.children)
  }

  /** The names in name order. */
  function SortByName(s: seq<string>): (r: seq<string>)
    ensures Sorted(r)
    ensures forall x :: x in r <==> x in s
    decreases |s|
  {
    if s == [] then []
    else InsertSorted(SortByName(s[..|s| - 1]), s[|s| - 1])
  }

  /** `g.keys()`: the order in which a group lists its members. */
  function Listing(g: Node): (r: seq<string>)
    requires g.Group?
    ensures forall x :: x in r <==> x in g.order
    ensures g.tracked ==> r == g.order
    ensures !g.tracked ==> Sorted(r)
  {
    if g.tracked then g.order else SortByName(g.order)
  }

  /** A new member: it comes last in creation order. */
  function Link(g: Node, name: string, child: Node): (r: Node)
    requires g.Group? && name !in g.children
    ensures r.Group? && r.tracked == g.tracked && r.attrs == g.attrs
    ensures r.children == g.children[name := child]
    ensures r.order == g.order + [name]
    ensures Listed(g) ==> Listed(r)
  {
    g.(order := g.order + [name], children := g.children[name := child])
  }

  /** A member replaced by a new value of itself. */
  function SetChild(g: Node, name: string, child: Node): (r: Node)
    requires g.Group? && name in g.children
    ensures r.Group? && r.order == g.order && r.tracked == g.tracked && r.attrs == g.attrs
    ensures r.children == g.children[name := child]
    ensures Listed(g) ==> Listed(r)
  {
    g.(children := g.children[name := child])
  }

  /** `create_group(name, track_order=tracked)`: a dataset has no
      `create_group`, and an existing name is a ValueError. */
  function CreateGroup(g: Node, name: string, tracked: bool): (r: (Node, Option<PyError>))
    ensures r.1.None? <==> g.Group? && name !in g.children
    ensures r.1.Some? ==> r.0 == g && r.1 == Some(if g.Group? then ValueError else AttributeError)
    ensures r.1.None? ==> r.0 == Link(g, name, EmptyGroup(tracked))
  {
    if !g.Group? then (g, Some(AttributeError))
    else if name in g.children then (g, Some(ValueError))
    else (Link(g, name, EmptyGroup(tracked)), None)
  }

  /** `g.attrs[name] = value`, or `g.attrs.create(name, data=value)`: an
      existing attribute is replaced. */
  function SetAttr(g: Node, name: string, value: Scalar): (r: Node)
    ensures r.attrs == g.attrs[name := value]
    ensures r.Group? == g.Group?
    ensures g.Group? ==> r.order == g.order && r.children == g.children && r.tracked == g.tracked
    ensures g.Text? ==> r.data == g.data
  {
    g.(attrs := g.attrs[name := value])
  }

  /** The listing of a tracked group is its creation order; that of an
      untracked group is the same names sorted, each once. */
  lemma {:induction false} ListingCounts(g: Node)
    requires g.Group? && Listed(g)
    ensures |Listing(g)| == |g.order| == |g.children|
  {
    if g.tracked {
      DistinctCount(g.order, g.children);
    } else {
      SortedCount(Listing(g), g.children);
      DistinctCount(g.order, g.children);
    }
  }
}
