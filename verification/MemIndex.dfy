/** The in-memory index of src/flutsmemindex.c and src/flutsindex.c: a list of entries, and one ordered tree for each
    format. A lookup is one descent of a tree; it is proved to answer what a scan of the list answers. */
module MemIndex {
  import opened Bytes

  type Format = int

  datatype Assoc = Assoc(format: Format, value: int)

  datatype Entry = Entry(id: int, assocs: seq<Assoc>)

  datatype LookupMethod = Exact | Before | After

  // ---------------------------------------------------------------------------------------------------------------
  // Signed 64-bit differences

  const TWO_62: int := 0x4000_0000_0000_0000
  const TWO_63: int := 0x8000_0000_0000_0000
  const TWO_64: int := 0x1_0000_0000_0000_0000

  function SWrap64(x: int): int {
    if x >= TWO_63 then x - TWO_64 else if x < -TWO_63 then x + TWO_64 else x
  }

  function Sign(x: int): int {
    if x == 0 then 0 else if x > 0 then 1 else -1
  }

  predicate Int64(x: int) {
    -TWO_63 <= x < TWO_63
  }

  predicate Small(x: int) {
    -TWO_62 < x < TWO_62
  }

  /** mem_index_compare, on the values compared: the order is a descending one. */
  function Compare(a: int, b: int): int {
    Sign(SWrap64(b - a))
  }

  /** The comparison orders two 64-bit values rightly if and only if their difference fits 64 bits; values below 2^62
      in magnitude always do. */
  lemma CompareExact(a: int, b: int)
    requires Int64(a) && Int64(b)
    ensures Compare(a, b) == Sign(b - a) <==> Int64(b - a)
    ensures Small(a) && Small(b) ==> Int64(b - a)
  {
  }

  // ---------------------------------------------------------------------------------------------------------------
  // Trees

  /** A node keeps the entry it was made with as key, and the latest entry of the same value as value. */
  datatype Tree = Leaf | Node(left: Tree, key: Entry, value: Entry, right: Tree)

  predicate HasPos(e: Entry, k: nat) {
    k < |e.assocs| && Small(e.assocs[k].value)
  }

  function Val(e: Entry, k: nat): int
    requires HasPos(e, k)
  {
    e.assocs[k].value
  }

  predicate AllPos(t: Tree, k: nat) {
    t.Node? ==> HasPos(t.key, k) && AllPos(t.left, k) && AllPos(t.right, k)
  }

  function Vals(t: Tree, k: nat): set<int>
    requires AllPos(t, k)
  {
    if t.Leaf? then {} else Vals(t.left, k) + {Val(t.key, k)} + Vals(t.right, k)
  }

  /** Larger values to the left, smaller to the right. */
  predicate Ordered(t: Tree, k: nat) {
    AllPos(t, k) &&
    (t.Node? ==>
       && Ordered(t.left, k) && Ordered(t.right, k)
       && (forall v :: v in Vals(t.left, k) ==> v > Val(t.key, k))
       && (forall v :: v in Vals(t.right, k) ==> v < Val(t.key, k)))
  }

  function NodeAt(t: Tree, k: nat, v: int): (n: Tree)
    requires Ordered(t, k) && v in Vals(t, k)
    ensures n.Node? && HasPos(n.key, k) && Val(n.key, k) == v
  {
    assert v in Vals(t.left, k) || v == Val(t.key, k) || v in Vals(t.right, k);
    if v == Val(t.key, k) then t
    else if v > Val(t.key, k) then NodeAt(t.left, k, v)
    else NodeAt(t.right, k, v)
  }

  /** g_tree_insert with mem_index_compare: an equal key keeps its node and key, and takes the new value. */
  function Insert(t: Tree, e: Entry, k: nat): Tree
    requires AllPos(t, k) && HasPos(e, k)
  {
    if t.Leaf? then Node(Leaf, e, e, Leaf)
    else
      var c := Compare(Val(e, k), Val(t.key, k));
      if c == 0 then t.(value := e)
      else if c < 0 then t.(left := Insert(t.left, e, k))
      else t.(right := Insert(t.right, e, k))
  }

  lemma {:induction false} InsertOrdered(t: Tree, e: Entry, k: nat)
    requires Ordered(t, k) && HasPos(e, k)
    ensures Ordered(Insert(t, e, k), k)
    ensures Vals(Insert(t, e, k), k) == Vals(t, k) + {Val(e, k)}
  {
    if t.Node? {
      CompareExact(Val(e, k), Val(t.key, k));
      var c := Compare(Val(e, k), Val(t.key, k));
      if c < 0 {
        InsertOrdered(t.left, e, k);
      } else if c > 0 {
        InsertOrdered(t.right, e, k);
      }
    }
  }

  /** An insertion changes the node of the entry's value only. */
  lemma {:induction false} InsertNodes(t: Tree, e: Entry, k: nat, v: int)
    requires Ordered(t, k) && HasPos(e, k) && (v in Vals(t, k) || v == Val(e, k))
    ensures Ordered(Insert(t, e, k), k) && v in Vals(Insert(t, e, k), k)
    ensures var n := NodeAt(Insert(t, e, k), k, v);
      && n.key == (if v in Vals(t, k) then NodeAt(t, k, v).key else e)
      && n.value == (if v == Val(e, k) then e else NodeAt(t, k, v).value)
  {
    InsertOrdered(t, e, k);
    if t.Node? {
      CompareExact(Val(e, k), Val(t.key, k));
      var c := Compare(Val(e, k), Val(t.key, k));
      if c < 0 {
        InsertOrdered(t.left, e, k);
        if v > Val(t.key, k) {
          InsertNodes(t.left, e, k, v);
        }
      } else if c > 0 {
        InsertOrdered(t.right, e, k);
        if v < Val(t.key, k) {
          InsertNodes(t.right, e, k, v);
        }
      }
    }
  }

  // ---------------------------------------------------------------------------------------------------------------
  // Scanning the list, newest entry first

  predicate ListPos(list: seq<Entry>, k: nat) {
    forall i :: 0 <= i < |list| ==> HasPos(list[i], k)
  }

  predicate Occurs(list: seq<Entry>, k: nat, v: int)
    requires ListPos(list, k)
  {
    exists i :: 0 <= i < |list| && Val(list[i], k) == v
  }

  /** The latest entry with value `v`. */
  function Newest(list: seq<Entry>, k: nat, v: int): (e: Entry)
    requires ListPos(list, k) && Occurs(list, k, v)
    ensures e in list && HasPos(e, k) && Val(e, k) == v
  {
    if Val(list[0], k) == v then list[0] else Newest(list[1..], k, v)
  }

  /** The earliest entry with value `v`. */
  function Oldest(list: seq<Entry>, k: nat, v: int): (e: Entry)
    requires ListPos(list, k) && Occurs(list, k, v)
    ensures e in list && HasPos(e, k) && Val(e, k) == v
  {
    if Occurs(list[1..], k, v) then Oldest(list[1..], k, v) else list[0]
  }

  /** The greatest value below `v`, if any. */
  function Below(list: seq<Entry>, k: nat, v: int): (w: Option<int>)
    requires ListPos(list, k)
    ensures w.Some? ==> w.value < v && Occurs(list, k, w.value)
    ensures forall i :: 0 <= i < |list| && Val(list[i], k) < v ==> w.Some? && Val(list[i], k) <= w.value
  {
    if list == [] then None
    else
      var rest := Below(list[1..], k, v);
      var x := Val(list[0], k);
      assert rest.Some? ==> Occurs(list, k, rest.value) by {
        if rest.Some? {
          var i :| 0 <= i < |list[1..]| && Val(list[1..][i], k) == rest.value;
          assert Val(list[i + 1], k) == rest.value;
        }
      }
      assert forall i :: 1 <= i < |list| ==> list[i] == list[1..][i - 1];
      if x < v && (rest.None? || x > rest.value) then Some(x) else rest
  }

  /** The least value above `v`, if any. */
  function Above(list: seq<Entry>, k: nat, v: int): (w: Option<int>)
    requires ListPos(list, k)
    ensures w.Some? ==> w.value > v && Occurs(list, k, w.value)
    ensures forall i :: 0 <= i < |list| && Val(list[i], k) > v ==> w.Some? && Val(list[i], k) >= w.value
  {
    if list == [] then None
    else
      var rest := Above(list[1..], k, v);
      var x := Val(list[0], k);
      assert rest.Some? ==> Occurs(list, k, rest.value) by {
        if rest.Some? {
          var i :| 0 <= i < |list[1..]| && Val(list[1..][i], k) == rest.value;
          assert Val(list[i + 1], k) == rest.value;
        }
      }
      assert forall i :: 1 <= i < |list| ==> list[i] == list[1..][i - 1];
      if x > v && (rest.None? || x < rest.value) then Some(x) else rest
  }

  /** What a lookup should find, by scanning the list: an exact match is the latest of its value; otherwise the nearest
      value on the side asked for, and of that value the earliest entry. */
  function Scan(list: seq<Entry>, k: nat, how: LookupMethod, v: int): Option<Entry>
    requires ListPos(list, k)
  {
    if Occurs(list, k, v) then Some(Newest(list, k, v))
    else if how == Before && Below(list, k, v).Some? then Some(Oldest(list, k, Below(list, k, v).value))
    else if how == After && Above(list, k, v).Some? then Some(Oldest(list, k, Above(list, k, v).value))
    else None
  }

  /** The entry at `i` of the list is what a lookup should find: the newest with the value asked for; or, if no entry
      has it, one with the nearest value on the side asked for, and of those the earliest. */
  predicate Finds(list: seq<Entry>, k: nat, how: LookupMethod, v: int, i: nat)
    requires ListPos(list, k) && i < |list|
  {
    var w := Val(list[i], k);
    if w == v then forall j :: 0 <= j < i ==> Val(list[j], k) != v
    else
      && !Occurs(list, k, v)
      && (match how
          case Exact => false
          case Before => w < v && forall j :: 0 <= j < |list| ==> Val(list[j], k) <= w || Val(list[j], k) > v
          case After => w > v && forall j :: 0 <= j < |list| ==> Val(list[j], k) >= w || Val(list[j], k) < v)
      && (forall j :: i < j < |list| ==> Val(list[j], k) != w)
  }

  /** No entry is on the side asked for. */
  predicate NoneFits(list: seq<Entry>, k: nat, how: LookupMethod, v: int)
    requires ListPos(list, k)
  {
    match how
    case Exact => forall i :: 0 <= i < |list| ==> Val(list[i], k) != v
    case Before => forall i :: 0 <= i < |list| ==> Val(list[i], k) > v
    case After => forall i :: 0 <= i < |list| ==> Val(list[i], k) < v
  }

  lemma {:induction false} NewestAt(list: seq<Entry>, k: nat, v: int) returns (i: nat)
    requires ListPos(list, k) && Occurs(list, k, v)
    ensures i < |list| && list[i] == Newest(list, k, v)
    ensures forall j :: 0 <= j < i ==> Val(list[j], k) != v
  {
    if Val(list[0], k) == v {
      i := 0;
    } else {
      i := NewestAt(list[1..], k, v);
      i := i + 1;
    }
  }

  lemma {:induction false} OldestAt(list: seq<Entry>, k: nat, v: int) returns (i: nat)
    requires ListPos(list, k) && Occurs(list, k, v)
    ensures i < |list| && list[i] == Oldest(list, k, v)
    ensures forall j :: i < j < |list| ==> Val(list[j], k) != v
  {
    if Occurs(list[1..], k, v) {
      i := OldestAt(list[1..], k, v);
      i := i + 1;
    } else {
      i := 0;
      forall j | 0 < j < |list|
        ensures Val(list[j], k) != v
      {
        assert list[j] == list[1..][j - 1];
      }
    }
  }

  /** What the scan means, entry by entry. */
  lemma ScanMeaning(list: seq<Entry>, k: nat, how: LookupMethod, v: int)
    requires ListPos(list, k)
    ensures match Scan(list, k, how, v)
            case Some(e) => exists i :: 0 <= i < |list| && list[i] == e && Finds(list, k, how, v, i)
            case None => NoneFits(list, k, how, v)
  {
    hide Newest, Oldest, Below, Above;
    if Occurs(list, k, v) {
      var i := NewestAt(list, k, v);
      assert Finds(list, k, how, v, i);
    } else if how == Before && Below(list, k, v).Some? {
      var i := OldestAt(list, k, Below(list, k, v).value);
      assert Finds(list, k, how, v, i);
    } else if how == After && Above(list, k, v).Some? {
      var i := OldestAt(list, k, Above(list, k, v).value);
      assert Finds(list, k, how, v, i);
    } else {
      assert forall i :: 0 <= i < |list| ==> Val(list[i], k) != v;
    }
  }

  // ---------------------------------------------------------------------------------------------------------------
  // Trees that stand for a list

  ghost predicate NodeStands(t: Tree, list: seq<Entry>, k: nat, v: int)
    requires Ordered(t, k) && ListPos(list, k)
  {
    v in Vals(t, k) && Occurs(list, k, v) ==>
      NodeAt(t, k, v).key == Oldest(list, k, v) && NodeAt(t, k, v).value == Newest(list, k, v)
  }

  /** The tree has a node for each value in the list, with the earliest entry as key and the latest as value. Nothing is
      said of its shape: any rotation of such a tree will do. */
  ghost predicate Stands(t: Tree, list: seq<Entry>, k: nat) {
    && Ordered(t, k) && ListPos(list, k)
    && (forall v :: v in Vals(t, k) <==> Occurs(list, k, v))
    && (forall v :: v in Vals(t, k) ==> NodeStands(t, list, k, v))
  }

  lemma OccursPrepended(list: seq<Entry>, e: Entry, k: nat, v: int)
    requires ListPos(list, k) && HasPos(e, k)
    ensures ListPos([e] + list, k)
    ensures Occurs([e] + list, k, v) <==> Val(e, k) == v || Occurs(list, k, v)
  {
    var l := [e] + list;
    if Occurs(list, k, v) {
      var i :| 0 <= i < |list| && Val(list[i], k) == v;
      assert Val(l[i + 1], k) == v;
    }
    if Val(e, k) == v {
      assert Val(l[0], k) == v;
    }
  }

  lemma InsertStands(t: Tree, list: seq<Entry>, e: Entry, k: nat)
    requires Stands(t, list, k) && HasPos(e, k)
    ensures Stands(Insert(t, e, k), [e] + list, k)
  {
    var r, l := Insert(t, e, k), [e] + list;
    InsertOrdered(t, e, k);
    forall v
      ensures v in Vals(r, k) <==> Occurs(l, k, v)
    {
      OccursPrepended(list, e, k, v);
    }
    assert l[1..] == list;
    assert ListPos(l, k) by {
      OccursPrepended(list, e, k, 0);
    }
    forall v | v in Vals(r, k)
      ensures NodeStands(r, l, k, v)
    {
      OccursPrepended(list, e, k, v);
      InsertNodes(t, e, k, v);
      assert v in Vals(t, k) ==> NodeStands(t, list, k, v);
    }
  }

  /** Rotating a tree, as balancing does, leaves it standing for the same list. */
  lemma RotateStands(a: Tree, p: Entry, pv: Entry, b: Tree, q: Entry, qv: Entry, c: Tree, list: seq<Entry>, k: nat)
    ensures Stands(Node(Node(a, p, pv, b), q, qv, c), list, k) <==> Stands(Node(a, p, pv, Node(b, q, qv, c)), list, k)
  {
    var l, r := Node(Node(a, p, pv, b), q, qv, c), Node(a, p, pv, Node(b, q, qv, c));
    if Ordered(l, k) || Ordered(r, k) {
      RotateOrdered(a, p, pv, b, q, qv, c, k);
      forall v | v in Vals(l, k)
        ensures NodeAt(l, k, v).key == NodeAt(r, k, v).key && NodeAt(l, k, v).value == NodeAt(r, k, v).value
      {
        RotateNode(a, p, pv, b, q, qv, c, k, v);
      }
      if ListPos(list, k) {
        assert forall v :: v in Vals(l, k) ==> (NodeStands(l, list, k, v) <==> NodeStands(r, list, k, v));
      }
    }
  }

  lemma RotateOrdered(a: Tree, p: Entry, pv: Entry, b: Tree, q: Entry, qv: Entry, c: Tree, k: nat)
    ensures var l, r := Node(Node(a, p, pv, b), q, qv, c), Node(a, p, pv, Node(b, q, qv, c));
      && (Ordered(l, k) <==> Ordered(r, k))
      && (Ordered(l, k) ==> AllPos(r, k) && Vals(l, k) == Vals(r, k))
  {
    var l, r := Node(Node(a, p, pv, b), q, qv, c), Node(a, p, pv, Node(b, q, qv, c));
    assert AllPos(l, k) <==> AllPos(Node(a, p, pv, b), k) && HasPos(q, k) && AllPos(c, k);
    assert AllPos(r, k) <==> AllPos(Node(b, q, qv, c), k) && HasPos(p, k) && AllPos(a, k);
    if AllPos(l, k) {
      assert Vals(Node(a, p, pv, b), k) == Vals(a, k) + {Val(p, k)} + Vals(b, k);
      assert Vals(Node(b, q, qv, c), k) == Vals(b, k) + {Val(q, k)} + Vals(c, k);
      if Ordered(l, k) {
        assert Val(p, k) in Vals(Node(a, p, pv, b), k);
        assert forall v :: v in Vals(b, k) ==> v in Vals(Node(a, p, pv, b), k);
        assert forall v :: v in Vals(a, k) ==> v in Vals(Node(a, p, pv, b), k);
      }
      if Ordered(r, k) {
        assert Val(q, k) in Vals(Node(b, q, qv, c), k);
        assert forall v :: v in Vals(b, k) ==> v in Vals(Node(b, q, qv, c), k);
        assert forall v :: v in Vals(c, k) ==> v in Vals(Node(b, q, qv, c), k);
      }
    }
  }

  lemma RotateNode(a: Tree, p: Entry, pv: Entry, b: Tree, q: Entry, qv: Entry, c: Tree, k: nat, v: int)
    requires var l, r := Node(Node(a, p, pv, b), q, qv, c), Node(a, p, pv, Node(b, q, qv, c));
      Ordered(l, k) && Ordered(r, k) && v in Vals(l, k) && v in Vals(r, k)
    ensures var l, r := Node(Node(a, p, pv, b), q, qv, c), Node(a, p, pv, Node(b, q, qv, c));
      NodeAt(l, k, v).key == NodeAt(r, k, v).key && NodeAt(l, k, v).value == NodeAt(r, k, v).value
  {
  }
}
