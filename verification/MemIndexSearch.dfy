/** The descent of a tree that remembers the best candidates on both sides, and the index object built on it. */
module MemIndexSearch {
  import opened Bytes
  import opened MemIndex

  // ---------------------------------------------------------------------------------------------------------------
  // One descent

  datatype Search = Search(
    value: int, exact: bool, lower: Option<Entry>, lowDiff: int, higher: Option<Entry>, highDiff: int)

  /** mem_index_search: which way to go from the node with key `a`, and what is remembered on the way. */
  function Visit(a: Entry, k: nat, data: Search): (r: (int, Search))
    requires HasPos(a, k)
  {
    var diff := SWrap64(Val(a, k) - data.value);
    if diff == 0 then (0, data)
    else if data.exact then (Sign(diff), data)
    else if diff < 0 then
      (-1, if diff > data.lowDiff then data.(lower := Some(a), lowDiff := diff) else data)
    else
      (1, if diff < data.highDiff then data.(higher := Some(a), highDiff := diff) else data)
  }

  /** `e` is the key of the node with the greatest value below `v`. */
  ghost predicate IsLower(t: Tree, k: nat, v: int, e: Option<Entry>)
    requires Ordered(t, k)
  {
    match e
    case None => forall w :: w in Vals(t, k) ==> w >= v
    case Some(a) =>
      && HasPos(a, k) && Val(a, k) < v && Val(a, k) in Vals(t, k) && a == NodeAt(t, k, Val(a, k)).key
      && forall w :: w in Vals(t, k) && w < v ==> w <= Val(a, k)
  }

  ghost predicate IsHigher(t: Tree, k: nat, v: int, e: Option<Entry>)
    requires Ordered(t, k)
  {
    match e
    case None => forall w :: w in Vals(t, k) ==> w <= v
    case Some(a) =>
      && HasPos(a, k) && Val(a, k) > v && Val(a, k) in Vals(t, k) && a == NodeAt(t, k, Val(a, k)).key
      && forall w :: w in Vals(t, k) && w > v ==> w >= Val(a, k)
  }

  /** `node` is a subtree of `t`. */
  ghost predicate Sub(t: Tree, k: nat, node: Tree) {
    && Ordered(t, k) && Ordered(node, k)
    && (forall w :: w in Vals(node, k) ==>
          w in Vals(t, k) && NodeAt(node, k, w).key == NodeAt(t, k, w).key
          && NodeAt(node, k, w).value == NodeAt(t, k, w).value)
  }

  /** Everything below the target is in the subtree, or no better than what is remembered. */
  ghost predicate LowSeen(t: Tree, k: nat, node: Tree, data: Search)
    requires Sub(t, k, node)
  {
    match data.lower
    case None => data.lowDiff == -TWO_63 && forall w :: w in Vals(t, k) && w < data.value ==> w in Vals(node, k)
    case Some(a) =>
      && HasPos(a, k) && data.lowDiff == Val(a, k) - data.value < 0
      && Val(a, k) in Vals(t, k) && a == NodeAt(t, k, Val(a, k)).key
      && (forall w :: w in Vals(t, k) && w < data.value ==> w in Vals(node, k) || w <= Val(a, k))
      && (forall w :: w in Vals(node, k) ==> w > Val(a, k))
  }

  ghost predicate HighSeen(t: Tree, k: nat, node: Tree, data: Search)
    requires Sub(t, k, node)
  {
    match data.higher
    case None => data.highDiff == TWO_63 - 1 && forall w :: w in Vals(t, k) && w > data.value ==> w in Vals(node, k)
    case Some(a) =>
      && HasPos(a, k) && data.highDiff == Val(a, k) - data.value > 0
      && Val(a, k) in Vals(t, k) && a == NodeAt(t, k, Val(a, k)).key
      && (forall w :: w in Vals(t, k) && w > data.value ==> w in Vals(node, k) || w >= Val(a, k))
      && (forall w :: w in Vals(node, k) ==> w < Val(a, k))
  }

  ghost predicate Searching(t: Tree, k: nat, node: Tree, data: Search) {
    && Sub(t, k, node) && Small(data.value)
    && (data.value in Vals(t, k) ==> data.value in Vals(node, k))
    && (!data.exact ==> LowSeen(t, k, node, data) && HighSeen(t, k, node, data))
  }

  lemma SubChild(t: Tree, k: nat, node: Tree)
    requires Sub(t, k, node) && node.Node?
    ensures Sub(t, k, node.left) && Sub(t, k, node.right)
    ensures HasPos(node.key, k) && Val(node.key, k) in Vals(t, k)
    ensures node.key == NodeAt(t, k, Val(node.key, k)).key && node.value == NodeAt(t, k, Val(node.key, k)).value
  {
    var x := Val(node.key, k);
    assert x in Vals(node, k) && NodeAt(node, k, x) == node;
    forall w | w in Vals(node.left, k)
      ensures w in Vals(node, k) && NodeAt(node.left, k, w) == NodeAt(node, k, w)
    {
    }
    forall w | w in Vals(node.right, k)
      ensures w in Vals(node, k) && NodeAt(node.right, k, w) == NodeAt(node, k, w)
    {
      assert w < x;
    }
  }

  lemma ChildVals(node: Tree, k: nat)
    requires Ordered(node, k) && node.Node?
    ensures HasPos(node.key, k)
    ensures forall w :: w in Vals(node, k) <==>
      w in Vals(node.left, k) || w == Val(node.key, k) || w in Vals(node.right, k)
    ensures forall w :: w in Vals(node.left, k) ==> w > Val(node.key, k)
    ensures forall w :: w in Vals(node.right, k) ==> w < Val(node.key, k)
  {
  }

  /** Left of a node are the larger values: going there from a node below the target. */
  lemma GoLeft(t: Tree, k: nat, node: Tree, data: Search)
    requires Searching(t, k, node, data) && node.Node? && HasPos(node.key, k) && Val(node.key, k) < data.value
    ensures Searching(t, k, node.left, Visit(node.key, k, data).1)
  {
    SubChild(t, k, node);
    ChildVals(node, k);
    hide Sub, Ordered, Vals, NodeAt;
    var d := Visit(node.key, k, data).1;
    if !data.exact {
      assert LowSeen(t, k, node.left, d) by {
        hide HighSeen;
      }
      assert HighSeen(t, k, node.left, d) by {
        hide LowSeen;
      }
    }
    hide LowSeen, HighSeen;
  }

  lemma GoRight(t: Tree, k: nat, node: Tree, data: Search)
    requires Searching(t, k, node, data) && node.Node? && HasPos(node.key, k) && Val(node.key, k) > data.value
    ensures Searching(t, k, node.right, Visit(node.key, k, data).1)
  {
    SubChild(t, k, node);
    ChildVals(node, k);
    hide Sub, Ordered, Vals, NodeAt;
    var d := Visit(node.key, k, data).1;
    if !data.exact {
      assert LowSeen(t, k, node.right, d) by {
        hide HighSeen;
      }
      assert HighSeen(t, k, node.right, d) by {
        hide LowSeen;
      }
    }
    hide LowSeen, HighSeen;
  }

  /** A visit that does not stop keeps what the search knows, for the child it goes to. */
  lemma VisitKeeps(t: Tree, k: nat, node: Tree, data: Search)
    requires Searching(t, k, node, data) && node.Node?
    ensures HasPos(node.key, k)
    ensures var (c, d) := Visit(node.key, k, data);
      && (c == 0 <==> Val(node.key, k) == data.value)
      && (c < 0 ==> Searching(t, k, node.left, d))
      && (c > 0 ==> Searching(t, k, node.right, d))
  {
    SubChild(t, k, node);
    hide Sub, LowSeen, HighSeen, Vals, NodeAt;
    if Val(node.key, k) < data.value {
      GoLeft(t, k, node, data);
    } else if Val(node.key, k) > data.value {
      GoRight(t, k, node, data);
    }
  }

  /** g_tree_search with mem_index_search. */
  method Descend(t: Tree, k: nat, value: int, exact: bool) returns (found: Option<Entry>, data: Search)
    requires Ordered(t, k) && Small(value)
    ensures found.Some? <==> value in Vals(t, k)
    ensures found.Some? ==> found.value == NodeAt(t, k, value).value
    ensures found.None? && !exact ==> IsLower(t, k, value, data.lower) && IsHigher(t, k, value, data.higher)
  {
    data := Search(value, exact, None, -TWO_63, None, TWO_63 - 1);
    var node := t;
    while node.Node?
      invariant Searching(t, k, node, data) && data.value == value && data.exact == exact
      decreases node
    {
      VisitKeeps(t, k, node, data);
      SubChild(t, k, node);
      var (c, d) := Visit(node.key, k, data);
      if c == 0 {
        return Some(node.value), data;
      }
      data := d;
      node := if c < 0 then node.left else node.right;
    }
    found := None;
  }

  // ---------------------------------------------------------------------------------------------------------------
  // Descent and scan agree

  /** A value of the tree is one of the list, and its node has the earliest entry as key. */
  lemma StandsAt(t: Tree, list: seq<Entry>, k: nat, w: int)
    requires Stands(t, list, k)
    ensures w in Vals(t, k) <==> Occurs(list, k, w)
    ensures w in Vals(t, k) ==> NodeAt(t, k, w).key == Oldest(list, k, w)
  {
    hide Vals, AllPos, NodeAt, Oldest;
    assert w in Vals(t, k) ==> NodeStands(t, list, k, w);
  }

  /** No value of the list below `v` is above the one that `Below` gives. */
  lemma BelowBounds(list: seq<Entry>, k: nat, v: int, w: int)
    requires ListPos(list, k) && Occurs(list, k, w) && w < v
    ensures Below(list, k, v).Some? && w <= Below(list, k, v).value
  {
    hide Below;
    var i :| 0 <= i < |list| && Val(list[i], k) == w;
  }

  lemma AboveBounds(list: seq<Entry>, k: nat, v: int, w: int)
    requires ListPos(list, k) && Occurs(list, k, w) && w > v
    ensures Above(list, k, v).Some? && w >= Above(list, k, v).value
  {
    hide Above;
    var i :| 0 <= i < |list| && Val(list[i], k) == w;
  }

  lemma LowerIsBelow(t: Tree, list: seq<Entry>, k: nat, v: int, e: Option<Entry>)
    requires Stands(t, list, k) && IsLower(t, k, v, e)
    ensures e == if Below(list, k, v).None? then None else Some(Oldest(list, k, Below(list, k, v).value))
  {
    hide Vals, NodeAt, AllPos, Occurs, Oldest, Below;
    var b := Below(list, k, v);
    if b.Some? {
      StandsAt(t, list, k, b.value);
      assert b.value in Vals(t, k);
    }
    if e.Some? {
      StandsAt(t, list, k, Val(e.value, k));
      BelowBounds(list, k, v, Val(e.value, k));
    }
  }

  lemma HigherIsAbove(t: Tree, list: seq<Entry>, k: nat, v: int, e: Option<Entry>)
    requires Stands(t, list, k) && IsHigher(t, k, v, e)
    ensures e == if Above(list, k, v).None? then None else Some(Oldest(list, k, Above(list, k, v).value))
  {
    hide Vals, NodeAt, AllPos, Occurs, Oldest, Above;
    var b := Above(list, k, v);
    if b.Some? {
      StandsAt(t, list, k, b.value);
      assert b.value in Vals(t, k);
    }
    if e.Some? {
      StandsAt(t, list, k, Val(e.value, k));
      AboveBounds(list, k, v, Val(e.value, k));
    }
  }

  /** A lookup in the tree of one format answers what a scan of the list answers: descent, candidates and all. */
  method LookupTree(t: Tree, k: nat, how: LookupMethod, value: int, ghost list: seq<Entry>)
    returns (entry: Option<Entry>)
    requires Stands(t, list, k) && Small(value)
    ensures entry == Scan(list, k, how, value)
  {
    var data;
    entry, data := Descend(t, k, value, how == Exact);
    if entry.None? {
      hide Stands;
      if how == Before {
        LowerIsBelow(t, list, k, value, data.lower);
        entry := data.lower;
      } else if how == After {
        HigherIsAbove(t, list, k, value, data.higher);
        entry := data.higher;
      }
      NotOccurs(t, list, k, value);
    } else {
      assert NodeStands(t, list, k, value);
    }
  }

  lemma NotOccurs(t: Tree, list: seq<Entry>, k: nat, v: int)
    requires Stands(t, list, k)
    ensures v in Vals(t, k) <==> Occurs(list, k, v)
  {
  }

  // ---------------------------------------------------------------------------------------------------------------
  // The index object

  /** The tree of one format; `offset` is the position of the format in the entries. */
  datatype FormatIndex = FormatIndex(format: Format, offset: nat, tree: Tree)

  /** An entry that lists exactly these formats, in this order. */
  predicate Laid(assocs: seq<Assoc>, layout: seq<Format>) {
    |assocs| == |layout| &&
    forall p :: 0 <= p < |layout| ==> assocs[p].format == layout[p] && Small(assocs[p].value)
  }

  predicate AllLaid(list: seq<Entry>, layout: seq<Format>) {
    forall i :: 0 <= i < |list| ==> Laid(list[i].assocs, layout)
  }

  predicate Distinct(layout: seq<Format>) {
    forall p, q :: 0 <= p < q < |layout| ==> layout[p] != layout[q]
  }

  ghost predicate FormatStands(fi: map<Format, FormatIndex>, layout: seq<Format>, p: nat, list: seq<Entry>)
    requires p < |layout|
  {
    layout[p] in fi && fi[layout[p]].offset == p && Stands(fi[layout[p]].tree, list, p)
  }

  /** The trees of the formats stand for the list. */
  ghost predicate Indexed(fi: map<Format, FormatIndex>, layout: seq<Format>, list: seq<Entry>) {
    if list == [] then fi == map[]
    else
      && (forall f :: f in fi <==> f in layout)
      && (forall p :: 0 <= p < |layout| ==> FormatStands(fi, layout, p, list))
  }

  /** What a lookup by format should find. */
  function ScanFormat(list: seq<Entry>, layout: seq<Format>, how: LookupMethod, format: Format, value: int)
    : Option<Entry>
    requires AllLaid(list, layout)
  {
    if format in layout then Scan(list, Position(layout, format), how, value) else None
  }

  function Position(layout: seq<Format>, format: Format): (p: nat)
    requires format in layout
    ensures p < |layout| && layout[p] == format
  {
    if layout[0] == format then 0 else 1 + Position(layout[1..], format)
  }

  class FluTsIndex {
    var id: int
    var lastId: int
    /** Ids given to writers; the index registers itself, as writer 0. */
    var writers: map<int, int>
    /** All entries, newest first. */
    var associations: seq<Entry>
    var idIndex: map<int, map<Format, FormatIndex>>
    ghost const layout: seq<Format>

    ghost predicate Valid()
      reads this
    {
      && Distinct(layout) && AllLaid(associations, layout)
      && (if id == -1 then associations == [] && idIndex == map[] && writers == map[] && lastId == 0
          else id > 0 && idIndex.Keys == {id} && Indexed(idIndex[id], layout, associations))
    }

    constructor (ghost layout: seq<Format>)
      requires Distinct(layout)
      ensures Valid() && associations == [] && this.layout == layout
    {
      this.layout := layout;
      id, lastId := -1, 0;
      writers, associations, idIndex := map[], [], map[];
    }

    /** The id of the index as a writer, allocated and given an (empty) id entry on first use. */
    method GetId()
      requires Valid()
      modifies this`id, this`lastId, this`writers, this`idIndex
      ensures Valid() && id != -1
    {
      if id == -1 {
        if 0 !in writers {
          lastId := lastId + 1;
          if lastId !in idIndex {
            idIndex := idIndex[lastId := map[]];
          }
          writers := writers[0 := lastId];
        }
        id := writers[0];
      }
    }

    /** Add an entry: to the list, and to the tree of each of its formats. */
    method AddAssociationv(assocs: seq<Assoc>) returns (entry: Option<Entry>)
      requires Valid() && Laid(assocs, layout)
      modifies this
      ensures Valid() && (entry.None? <==> assocs == [])
      ensures entry.None? ==> associations == old(associations)
      ensures entry.Some? ==> entry.value.assocs == assocs && associations == [entry.value] + old(associations)
    {
      GetId();
      if assocs == [] {
        return None;
      }
      assert idIndex.Keys == {id} && associations == old(associations);
      var e := Entry(id, assocs);
      var fi := idIndex[id];
      var i := 0;
      assert PartlyIndexed(fi, layout, 0, associations, e);
      while i < |assocs|
        invariant 0 <= i <= |assocs| && PartlyIndexed(fi, layout, i, old(associations), e)
        modifies {}
      {
        IndexStep(fi, layout, i, old(associations), e);
        fi := IndexFormat(fi, e, i);
        i := i + 1;
      }
      AllIndexed(fi, layout, associations, e);
      assert idIndex[id := fi].Keys == {id};
      associations := [e] + associations;
      idIndex := idIndex[id := fi];
      entry := Some(e);
    }

    /** Look an entry up by the value it has in a format. */
    method GetAssocEntry(how: LookupMethod, format: Format, value: int) returns (entry: Option<Entry>)
      requires Valid() && Small(value)
      modifies this`id, this`lastId, this`writers, this`idIndex
      ensures Valid() && entry == ScanFormat(associations, layout, how, format, value)
    {
      GetId();
      var fi := idIndex[id];
      if format !in fi {
        if associations == [] && format in layout {
          assert Scan(associations, Position(layout, format), how, value) == None;
        }
        return None;
      }
      PositionIs(layout, format);
      assert FormatStands(fi, layout, Position(layout, format), associations);
      entry := LookupTree(fi[format].tree, fi[format].offset, how, value, associations);
    }
  }

  /** index_format: the tree of the format at position `i` of the entry takes the entry, and is made if need be. */
  function IndexFormat(fi: map<Format, FormatIndex>, e: Entry, i: nat): map<Format, FormatIndex>
    requires i < |e.assocs| && HasPos(e, i)
    requires e.assocs[i].format in fi ==>
      var x := fi[e.assocs[i].format]; AllPos(x.tree, x.offset) && HasPos(e, x.offset)
  {
    var f := e.assocs[i].format;
    var x := if f in fi then fi[f] else FormatIndex(f, i, Leaf);
    fi[f := x.(tree := Insert(x.tree, e, x.offset))]
  }

  lemma PositionIs(layout: seq<Format>, format: Format)
    requires Distinct(layout) && format in layout
    ensures forall p :: 0 <= p < |layout| && layout[p] == format ==> p == Position(layout, format)
  {
  }

  /** The first `i` formats have taken the new entry, the others not yet. */
  ghost predicate PartlyIndexed(fi: map<Format, FormatIndex>, layout: seq<Format>, i: nat, list: seq<Entry>, e: Entry)
    requires i <= |layout|
  {
    && (forall f :: f in fi ==> f in layout)
    && (forall p :: 0 <= p < i ==> FormatStands(fi, layout, p, [e] + list))
    && (forall p :: i <= p < |layout| ==> if list == [] then layout[p] !in fi else FormatStands(fi, layout, p, list))
  }

  lemma AllIndexed(fi: map<Format, FormatIndex>, layout: seq<Format>, list: seq<Entry>, e: Entry)
    requires PartlyIndexed(fi, layout, |layout|, list, e) && Laid(e.assocs, layout) && AllLaid(list, layout)
    ensures Indexed(fi, layout, [e] + list) && AllLaid([e] + list, layout)
  {
    hide Stands;
    forall f | f in layout
      ensures f in fi
    {
      var p :| 0 <= p < |layout| && layout[p] == f;
      assert FormatStands(fi, layout, p, [e] + list);
    }
  }

  lemma IndexStep(fi: map<Format, FormatIndex>, layout: seq<Format>, i: nat, list: seq<Entry>, e: Entry)
    requires i < |layout| && Distinct(layout) && Laid(e.assocs, layout) && PartlyIndexed(fi, layout, i, list, e)
    ensures e.assocs[i].format in fi ==>
      var x := fi[e.assocs[i].format]; AllPos(x.tree, x.offset) && HasPos(e, x.offset)
    ensures PartlyIndexed(IndexFormat(fi, e, i), layout, i + 1, list, e)
  {
    var f := layout[i];
    if list == [] {
      assert Stands(Leaf, [], i);
      InsertStands(Leaf, [], e, i);
    } else {
      assert FormatStands(fi, layout, i, list);
      InsertStands(fi[f].tree, list, e, i);
    }
    hide Stands, Insert;
    var r := IndexFormat(fi, e, i);
    assert FormatStands(r, layout, i, [e] + list);
    forall p | 0 <= p < |layout| && p != i
      ensures layout[p] in r <==> layout[p] in fi
      ensures layout[p] in r ==> r[layout[p]] == fi[layout[p]]
    {
    }
    forall p | 0 <= p < i
      ensures FormatStands(r, layout, p, [e] + list)
    {
      assert FormatStands(fi, layout, p, [e] + list);
    }
  }

  /** gst_flutsindex_entry_assoc_map: the value of the first association of an entry in a format. */
  method EntryAssocMap(e: Entry, format: Format) returns (value: Option<int>)
    ensures value == AssocMap(e.assocs, format)
  {
    var i := 0;
    while i < |e.assocs|
      invariant 0 <= i <= |e.assocs|
      invariant AssocMap(e.assocs[i..], format) == AssocMap(e.assocs, format)
    {
      if e.assocs[i].format == format {
        return Some(e.assocs[i].value);
      }
      i := i + 1;
    }
    value := None;
  }

  function AssocMap(assocs: seq<Assoc>, format: Format): Option<int> {
    if assocs == [] then None
    else if assocs[0].format == format then Some(assocs[0].value)
    else AssocMap(assocs[1..], format)
  }

  /** In an entry laid out for the index, the map finds the value the trees are ordered by. */
  lemma {:induction false} AssocMapAt(assocs: seq<Assoc>, layout: seq<Format>, format: Format)
    requires Laid(assocs, layout) && format in layout
    ensures AssocMap(assocs, format) == Some(assocs[Position(layout, format)].value)
  {
    if layout[0] != format {
      assert assocs[1..][Position(layout[1..], format)] == assocs[Position(layout, format)];
      AssocMapAt(assocs[1..], layout[1..], format);
    }
  }
}
