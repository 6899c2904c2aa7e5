/** The B+ tree of the relational index: node objects with key, value and child lists that are changed in place,
    and a doubly linked list of leaves. Its methods are proved against the sorted map it stands for. */
module BPlusTree {
  import opened SortedEntries
  import opened TreeShape
  import C = Commands

  /** The index of `key`, or minus one minus the place it belongs at. */
  method BinarySearch(list: seq<Key>, key: Key) returns (r: int)
    requires forall i, j :: 0 <= i < j < |list| ==> list[i] < list[j]
    ensures r >= 0 ==> r < |list| && list[r] == key
    ensures r < 0 ==> -(r + 1) <= |list| && (forall i :: 0 <= i < -(r + 1) ==> list[i] < key)
                      && (forall i :: -(r + 1) <= i < |list| ==> key < list[i])
  {
    var low, high := 0, |list| - 1;
    while low <= high
      invariant 0 <= low <= high + 1 <= |list|
      invariant forall i :: 0 <= i < low ==> list[i] < key
      invariant forall i :: high < i < |list| ==> key < list[i]
    {
      var mid := (low + high) / 2;
      if list[mid] < key {
        low := mid + 1;
      } else if list[mid] > key {
        high := mid - 1;
      } else {
        return mid;
      }
    }
    return -(low + 1);
  }

  /** The child whose bounds hold `key`. */
  method FindChildIndex(keys: seq<Key>, key: Key, ghost lo: Bound, ghost hi: Bound) returns (i: nat)
    requires SeparatorsIn(keys, lo, hi) && Above(lo, key) && Below(key, hi)
    ensures i <= |keys| && Above(Lo(keys, lo, i), key) && Below(key, Hi(keys, hi, i))
  {
    i := 0;
    while i < |keys| && key >= keys[i]
      invariant i <= |keys| && (i > 0 ==> key >= keys[i - 1])
    {
      i := i + 1;
    }
  }

  method SearchLeaf(node: Node, key: Key, ghost sh: Shape, ghost d: nat, ghost lo: Bound, ghost hi: Bound) returns (r: C.Option<Item>)
    requires sh.node == node && Holds(sh) && Formed(sh, d, lo, hi) && Distinct(sh) && Above(lo, key) && Below(key, hi)
    ensures r == Find(Entries(sh), key)
    decreases sh
  {
    if node.leaf {
      var idx := BinarySearch(node.keys, key);
      RankIs(Entries(sh), key, if idx >= 0 then idx else -(idx + 1));
      return if idx >= 0 then C.Some(node.values[idx]) else C.None;
    }
    assert FormedKids(sh.keys, sh.kids, d, lo, hi) && DistinctOf(sh.kids) && HoldsOf(sh.kids);
    NodesOfAllocated(sh.kids);
    var i := FindChildIndex(node.keys, key, lo, hi);
    AtChild(sh.kids, i);
    ChildAround(sh.keys, sh.kids, d, lo, hi, i, key);
    MiddleRank(EntriesOf(sh.kids[..i]), Entries(sh.kids[i]), EntriesOf(sh.kids[i + 1..]), key);
    r := SearchLeaf(node.children[i], key, sh.kids[i], d - 1, Lo(sh.keys, lo, i), Hi(sh.keys, hi, i));
  }

  /** The leaf that would hold `key`: nothing in the leaves before it reaches `key`. */
  method FindLeaf(node: Node, key: Key, ghost sh: Shape, ghost d: nat, ghost lo: Bound, ghost hi: Bound) returns (leaf: Node, ghost p: nat)
    requires sh.node == node && Holds(sh) && Formed(sh, d, lo, hi) && Distinct(sh) && Above(lo, key) && Below(key, hi)
    ensures p < |LeafList(sh)| && LeafList(sh)[p].node == leaf && forall e :: e in EntriesOf(LeafList(sh)[..p]) ==> e.0 < key
    decreases sh
  {
    if node.leaf {
      return node, 0;
    }
    assert FormedKids(sh.keys, sh.kids, d, lo, hi) && DistinctOf(sh.kids) && HoldsOf(sh.kids);
    NodesOfAllocated(sh.kids);
    var i := FindChildIndex(node.keys, key, lo, hi);
    AtChild(sh.kids, i);
    leaf, p := FindLeaf(node.children[i], key, sh.kids[i], d - 1, Lo(sh.keys, lo, i), Hi(sh.keys, hi, i));
    LeafBelow(sh.keys, sh.kids, d, lo, hi, i, key, p);
    p := |LeafListOf(sh.kids[..i])| + p;
  }

  /** The same pair of leaves with the cut between them elsewhere, both filled well. */
  ghost predicate Shifted(x: Shape, y: Shape, x1: Shape, y1: Shape, lo: Bound, hi: Bound, before: seq<Node>, after: seq<Node>)
    reads NodesOf([x1, y1])`keys, NodesOf([x1, y1])`values, NodesOf([x1, y1])`children
    reads NodesIn(before + LeavesOf([x1, y1]) + after)`next, NodesIn(before + LeavesOf([x1, y1]) + after)`prev
  {
    && x1.LeafAt? && y1.LeafAt? && x1.node == x.node && y1.node == y.node && y1.keys != []
    && Subtrees([y1.keys[0]], [x1, y1], 0, lo, hi, before, after) && WellFilled([x1, y1])
    && EntriesOf([x1, y1]) == EntriesOf([x, y]) && NodesOf([x1, y1]) == NodesOf([x, y])
  }

  class BPlusTree {
    var root: Node
    var size: int
    var firstLeaf: Node
    ghost var shape: Shape
    ghost var depth: nat

    /** Ordered, balanced and filled; the leaf list is the leaves from left to right. */
    ghost predicate Built()
      reads this, Nodes(shape), NodesIn([] + Leaves(shape) + [])
    {
      && root == shape.node && Subtree(shape, depth, Open, Open, [], [])
      && (shape.InnerAt? ==> shape.keys != []) && firstLeaf == First(shape)
    }

    /** Well built, and `size` counts the entries. */
    ghost predicate Valid()
      reads this, Nodes(shape), NodesIn([] + Leaves(shape) + [])
    {
      Built() && size == |Entries(shape)|
    }

    /** The map the tree stands for. */
    ghost function Contents(): map<Key, Item>
      reads this
    {
      MapOf(Entries(shape))
    }

    constructor ()
      ensures Valid() && fresh(Nodes(shape)) && Contents() == map[]
    {
      var leaf := new Node(true);
      root, size, firstLeaf, shape, depth := leaf, 0, leaf, LeafAt(leaf, [], []), 0;
    }

    method Get(key: Key) returns (r: C.Option<Item>)
      requires Valid()
      ensures r == if key in Contents() then C.Some(Contents()[key]) else C.None
    {
      FormedSorted(shape, depth, Open, Open);
      FindIsLookup(Entries(shape), key);
      r := SearchLeaf(root, key, shape, depth, Open, Open);
    }

    /** Walk the leaf list from the leaf for `lo` until a key beyond `hi`: exactly the mappings in between, in order. */
    method Range(lo: Key, hi: Key) returns (result: seq<Entry>)
      requires Valid()
      ensures Sorted(result)
      ensures forall k, v :: (k, v) in result <==> k in Contents() && Contents()[k] == v && lo <= k <= hi
    {
      ghost var es := Entries(shape);
      FormedSorted(shape, depth, Open, Open);
      BetweenIsRange(es, lo, hi);
      forall k, v ensures (k, v) in es <==> k in MapOf(es) && MapOf(es)[k] == v {
        EntriesAreMappings(es, k, v);
      }
      result := Scan(lo, hi);
    }

    method Scan(lo: Key, hi: Key) returns (result: seq<Entry>)
      requires Valid()
      ensures result == Between(Entries(shape), lo, hi)
    {
      ghost var ls := LeafList(shape);
      LeafListNodes(shape);
      assert [] + Leaves(shape) + [] == Leaves(shape);
      SubtreeAllocated(shape, [], []);
      var leaf, p := FindLeaf(root, lo, shape, depth, Open, Open);
      LeafListShows(shape, depth, Open, Open);
      LeafListEntries(shape);
      FormedSorted(shape, depth, Open, Open);
      result := ScanFrom(leaf, lo, hi, ls, p);
    }

    method ScanFrom(start: Node, lo: Key, hi: Key, ghost ls: seq<Shape>, ghost first: nat) returns (result: seq<Entry>)
      requires Sorted(EntriesOf(ls)) && Linked(Roots(ls)) && first < |ls| && start == ls[first].node
      requires forall x :: x in ls ==> Shows(x)
      requires forall e :: e in EntriesOf(ls[..first]) ==> e.0 < lo
      ensures result == Between(EntriesOf(ls), lo, hi)
    {
      RowAllocated(Roots(ls));
      BetweenNone(EntriesOf(ls[..first]), lo, hi);
      result := [];
      var leaf: Node? := start;
      ghost var p := first;
      while leaf != null
        invariant p <= |ls| && (if leaf == null then p == |ls| else p < |ls| && leaf == ls[p].node)
        invariant result == Between(EntriesOf(ls[..p]), lo, hi)
        invariant Linked(Roots(ls)) && forall x :: x in ls ==> Shows(x)
        decreases |ls| - p
      {
        assert ls[p] in ls;
        var found, done := ScanLeaf(leaf.keys, leaf.values, lo, hi);
        result := result + found;
        if done {
          ghost var i :| 0 <= i < |ls[p].keys| && ls[p].keys[i] > hi;
          RestBeyond(ls, p, i, lo, hi);
          return;
        }
        BetweenNext(ls, p, lo, hi);
        assert Joined(Roots(ls), p);
        leaf := leaf.next;
        p := p + 1;
      }
      assert ls[..p] == ls;
    }

    /** The matching entries of one leaf; `done` when a key beyond `hi` was met. */
    static method ScanLeaf(keys: seq<Key>, values: seq<Item>, lo: Key, hi: Key) returns (found: seq<Entry>, done: bool)
      requires |keys| == |values| && KeysIn(keys, Open, Open)
      ensures found == Between(Zip(keys, values), lo, hi)
      ensures done <==> exists i :: 0 <= i < |keys| && keys[i] > hi
    {
      ghost var es := Zip(keys, values);
      found := [];
      var i := 0;
      while i < |keys|
        invariant 0 <= i <= |keys| && found == Between(es[..i], lo, hi)
        invariant forall j :: 0 <= j < i ==> keys[j] <= hi
      {
        var k := keys[i];
        if lo <= k <= hi {
          found := found + [(k, values[i])];
        } else if k > hi {
          BetweenStop(es, i, lo, hi);
          return found, true;
        }
        BetweenSnoc(es, i, lo, hi);
        i := i + 1;
      }
      assert es[..i] == es;
      done := false;
    }

    /** Put `right` behind `leaf` in the leaf list. */
    method LinkBehind(leaf: Node, right: Node, ghost ns: seq<Node>, ghost i: nat)
      requires Linked(ns) && i < |ns| && ns[i] == leaf && right !in ns
      modifies leaf`next, right`next, right`prev, NodesIn(ns[i + 1..])`prev
      ensures Linked(ns[..i + 1] + [right] + ns[i + 1..])
    {
      assert Joined(ns, i);
      assert i + 1 < |ns| ==> ns[i + 1] in ns[i + 1..] && Differ(ns, i, i + 1);
      right.next := leaf.next;
      right.prev := leaf;
      if leaf.next != null {
        leaf.next.prev := right;
      }
      leaf.next := right;
      ghost var r := ns[..i + 1] + [right] + ns[i + 1..];
      forall x: nat, y: nat | x < y < |r| ensures Differ(r, x, y) {
        var x0, y0 := if x <= i then x else x - 1, if y <= i then y else y - 1;
        if x != i + 1 && y != i + 1 { assert Differ(ns, x0, y0); }
      }
      forall x: nat | x < |r| ensures Joined(r, x) {
        if x != i + 1 {
          var x0 := if x <= i then x else x - 1;
          assert old(Joined(ns, x0)) && ns[x0] in ns;
          assert x0 < i ==> Differ(ns, x0, i);
          assert x0 > i ==> Differ(ns, i, x0);
          assert i + 1 < |ns| && x0 < i + 1 ==> Differ(ns, x0, i + 1);
          assert i + 1 < x0 ==> Differ(ns, i + 1, x0);
        }
      }
    }

    method SplitLeaf(leaf: Node, ghost sh: Shape, ghost lo: Bound, ghost hi: Bound, ghost before: seq<Node>, ghost after: seq<Node>)
      returns (split: Split, ghost l: Shape, ghost r: Shape)
      requires sh.LeafAt? && sh.node == leaf && Formed(sh, 0, lo, hi) && Holds(sh) && |sh.keys| == 2 * ORDER + 1
      requires Linked(before + [leaf] + after) && Outside(before + after, {leaf})
      modifies leaf, NodesIn(after)`prev
      ensures l.LeafAt? && r.LeafAt? && l.node == leaf && fresh(r.node)
      ensures |l.keys| == |l.vals| == ORDER && |r.keys| == |r.vals| == ORDER + 1
      ensures split == SplitAt(r.keys[0], leaf, r.node) && sh.keys == l.keys + r.keys && sh.vals == l.vals + r.vals
      ensures Holds(l) && Holds(r) && Outside(before + after, {leaf, r.node}) && Linked(before + [leaf, r.node] + after)
    {
      ghost var ns := before + [leaf] + after;
      RowAllocated(ns);
      var mid := |leaf.keys| / 2;
      var right := new Node(true);
      right.keys, right.values := leaf.keys[mid..], leaf.values[mid..];
      leaf.keys, leaf.values := leaf.keys[..mid], leaf.values[..mid];
      l, r := LeafAt(leaf, leaf.keys, leaf.values), LeafAt(right, right.keys, right.values);
      assert ns[|before| + 1..] == after;
      LinkBehind(leaf, right, ns, |before|);
      assert ns[..|before| + 1] + [right] + ns[|before| + 1..] == before + [leaf, right] + after;
      split := SplitAt(right.keys[0], leaf, right);
    }

    method InsertIntoLeaf(leaf: Node, key: Key, value: Item, ghost sh: Shape, ghost lo: Bound, ghost hi: Bound,
                          ghost before: seq<Node>, ghost after: seq<Node>)
      returns (split: Split, ghost ks2: seq<Key>, ghost kids2: seq<Shape>)
      requires sh.LeafAt? && sh.node == leaf && Subtree(sh, 0, lo, hi, before, after) && Above(lo, key) && Below(key, hi)
      modifies this`size, leaf, NodesIn(after)`prev
      ensures Inserted(old(size), key, value, sh, 0, lo, hi, before, after, split, ks2, kids2)
      ensures (forall n :: n in NodesOf(kids2) && n !in Nodes(sh) ==> fresh(n))
    {
      SubtreeAllocated(sh, before, after);
      var pos := BinarySearch(leaf.keys, key);
      if pos >= 0 {
        ghost var sh1 := UpdateLeaf(leaf, pos, value, sh, lo, hi, before, after);
        ks2, kids2, split := [], [sh1], NoSplit;
        SingleSubtree(sh1, 0, lo, hi, before, after);
      } else {
        split, ks2, kids2 := AddToLeaf(leaf, -(pos + 1), key, value, sh, lo, hi, before, after);
      }
    }

    method UpdateLeaf(leaf: Node, i: nat, value: Item, ghost sh: Shape, ghost lo: Bound, ghost hi: Bound,
                      ghost before: seq<Node>, ghost after: seq<Node>)
      returns (ghost sh1: Shape)
      requires sh.LeafAt? && sh.node == leaf && Subtree(sh, 0, lo, hi, before, after) && i < |sh.keys|
      modifies this`size, leaf`values
      ensures sh1.LeafAt? && sh1.node == leaf && |sh1.keys| == |sh.keys| && Subtree(sh1, 0, lo, hi, before, after)
      ensures Entries(sh1) == Put(Entries(sh), sh.keys[i], value) && Present(Entries(sh), sh.keys[i]) && size == old(size) - 1
    {
      ZipUpdated(sh.keys, sh.vals, i, value);
      leaf.values := leaf.values[i := value];
      size := size - 1;                         // the caller counts every insertion
      sh1 := LeafAt(leaf, leaf.keys, leaf.values);
    }

    method AddToLeaf(leaf: Node, i: nat, key: Key, value: Item, ghost sh: Shape, ghost lo: Bound, ghost hi: Bound,
                     ghost before: seq<Node>, ghost after: seq<Node>)
      returns (split: Split, ghost ks2: seq<Key>, ghost kids2: seq<Shape>)
      requires sh.LeafAt? && sh.node == leaf && Subtree(sh, 0, lo, hi, before, after) && Above(lo, key) && Below(key, hi)
      requires IsPlace(sh.keys, key, i) && (i < |sh.keys| ==> sh.keys[i] != key)
      modifies leaf, NodesIn(after)`prev
      ensures Inserted(size, key, value, sh, 0, lo, hi, before, after, split, ks2, kids2)
      ensures (forall n :: n in NodesOf(kids2) && n !in Nodes(sh) ==> fresh(n))
    {
      leaf.keys := leaf.keys[..i] + [key] + leaf.keys[i..];
      leaf.values := leaf.values[..i] + [value] + leaf.values[i..];
      ghost var sh1 := LeafAt(leaf, leaf.keys, leaf.values);
      ZipInserted(sh.keys, sh.vals, i, key, value);
      KeysInserted(sh.keys, lo, hi, i, key);
      if |leaf.keys| > 2 * ORDER {
        ghost var l, r;
        split, l, r := SplitLeaf(leaf, sh1, lo, hi, before, after);
        ks2, kids2 := [split.key], [l, r];
        LeafHalves(sh1, l, r, lo, hi, before, after);
      } else {
        ks2, kids2, split := [], [sh1], NoSplit;
        SingleSubtree(sh1, 0, lo, hi, before, after);
      }
    }

    method SplitInternal(node: Node, ghost sh: Shape, ghost d: nat, ghost lo: Bound, ghost hi: Bound,
                         ghost before: seq<Node>, ghost after: seq<Node>)
      returns (split: Split, ghost ks2: seq<Key>, ghost kids2: seq<Shape>)
      requires sh.InnerAt? && sh.node == node && Subtree(sh, d, lo, hi, before, after) && |sh.keys| > 2 * ORDER
      modifies node
      ensures Subtrees(ks2, kids2, d, lo, hi, before, after) && EntriesOf(kids2) == Entries(sh)
      ensures |kids2| == 2 && kids2[0].node == node && First(kids2[0]) == First(sh) && (forall n :: n in NodesOf(kids2) && n !in Nodes(sh) ==> fresh(n))
      ensures |ks2| == 1 && split == SplitAt(ks2[0], node, kids2[1].node)
      ensures |kids2[0].keys| >= ORDER && |kids2[1].keys| >= ORDER
    {
      assert FormedKids(sh.keys, sh.kids, d, lo, hi) && HoldsOf(sh.kids);
      SubtreeAllocated(sh, before, after);
      var mid := |node.keys| / 2;
      var promotedKey := node.keys[mid];
      var right := new Node(false);
      right.keys := node.keys[mid + 1..];
      right.children := node.children[mid + 1..];
      node.keys := node.keys[..mid];
      node.children := node.children[..mid + 1];
      split := SplitAt(promotedKey, node, right);
      ghost var l, r := InnerAt(node, sh.keys[..mid], sh.kids[..mid + 1]), InnerAt(right, sh.keys[mid + 1..], sh.kids[mid + 1..]);
      ks2, kids2 := [promotedKey], [l, r];
      InnerHalves(sh, d, lo, hi, before, after, mid, l, r);
    }

    method InsertRecursive(node: Node, key: Key, value: Item, ghost sh: Shape, ghost d: nat, ghost lo: Bound, ghost hi: Bound,
                           ghost before: seq<Node>, ghost after: seq<Node>)
      returns (split: Split, ghost ks2: seq<Key>, ghost kids2: seq<Shape>)
      requires sh.node == node && Subtree(sh, d, lo, hi, before, after) && Above(lo, key) && Below(key, hi)
      modifies this`size, Nodes(sh), NodesIn(after)`prev
      ensures Inserted(old(size), key, value, sh, d, lo, hi, before, after, split, ks2, kids2)
      ensures (forall n :: n in NodesOf(kids2) && n !in Nodes(sh) ==> fresh(n))
      decreases sh
    {
      if node.leaf {
        split, ks2, kids2 := InsertIntoLeaf(node, key, value, sh, lo, hi, before, after);
        return;
      }
      assert FormedKids(sh.keys, sh.kids, d, lo, hi);
      SubtreeAllocated(sh, before, after);
      var i := FindChildIndex(node.keys, key, lo, hi);
      var below;
      ghost var sh1;
      below, sh1 := InsertIntoChild(node, i, key, value, sh, d, lo, hi, before, after);
      split, ks2, kids2 := SplitIfFull(node, below, sh1, d, lo, hi, before, after);
    }

    /** Split a node that has taken in a separator and has become too full; one that was too full before stays as it is. */
    method SplitIfFull(node: Node, below: Split, ghost sh: Shape, ghost d: nat, ghost lo: Bound, ghost hi: Bound,
                       ghost before: seq<Node>, ghost after: seq<Node>)
      returns (split: Split, ghost ks2: seq<Key>, ghost kids2: seq<Shape>)
      requires sh.InnerAt? && sh.node == node && Subtree(sh, d, lo, hi, before, after)
      modifies node
      ensures Subtrees(ks2, kids2, d, lo, hi, before, after) && EntriesOf(kids2) == Entries(sh)
      ensures (forall n :: n in NodesOf(kids2) && n !in Nodes(sh) ==> fresh(n)) && Became(sh, split, ks2, kids2)
    {
      if below.SplitAt? && |node.keys| > 2 * ORDER {
        split, ks2, kids2 := SplitInternal(node, sh, d, lo, hi, before, after);
      } else {
        split, ks2, kids2 := NoSplit, [], [sh];
        SingleSubtree(sh, d, lo, hi, before, after);
      }
    }

    /** Insert below child `i`, and take in the separator and the right half if that child was split. */
    method InsertIntoChild(node: Node, i: nat, key: Key, value: Item, ghost sh: Shape, ghost d: nat, ghost lo: Bound, ghost hi: Bound,
                           ghost before: seq<Node>, ghost after: seq<Node>)
      returns (split: Split, ghost sh1: Shape)
      requires sh.InnerAt? && sh.node == node && d > 0 && Subtree(sh, d, lo, hi, before, after) && i <= |sh.keys|
      requires Above(Lo(sh.keys, lo, i), key) && Below(key, Hi(sh.keys, hi, i))
      modifies this`size, Nodes(sh), NodesIn(after)`prev
      ensures sh1.InnerAt? && sh1.node == node && Subtree(sh1, d, lo, hi, before, after) && |sh1.keys| >= |sh.keys|
      ensures Entries(sh1) == Put(Entries(sh), key, value) && First(sh1) == First(sh)
      ensures size == old(size) - (if Present(Entries(sh), key) then 1 else 0)
      ensures (forall n :: n in Nodes(sh1) && n !in Nodes(sh) ==> fresh(n))
      decreases sh, 1
    {
      assert FormedKids(sh.keys, sh.kids, d, lo, hi);
      ghost var ms, mid;
      split, ms, mid := InsertBelow(node, i, key, value, sh, d, lo, hi, before, after);
      sh1 := TakeSplit(node, i, split, sh, d, lo, hi, before, after, ms, mid);
      ChildPut(sh, d, lo, hi, i, key, value);
      PartNodes(sh.kids, i, i + 1);
      SplicedFirst(sh, i, i + 1, ms, mid, sh1);
    }

    method InsertBelow(node: Node, i: nat, key: Key, value: Item, ghost sh: Shape, ghost d: nat, ghost lo: Bound, ghost hi: Bound,
                       ghost before: seq<Node>, ghost after: seq<Node>)
      returns (split: Split, ghost ms: seq<Key>, ghost mid: seq<Shape>)
      requires sh.InnerAt? && sh.node == node && d > 0 && Subtree(sh, d, lo, hi, before, after) && i < |sh.kids| == |sh.keys| + 1
      requires Above(Lo(sh.keys, lo, i), key) && Below(key, Hi(sh.keys, hi, i))
      modifies this`size, NodesOf(sh.kids), NodesIn(after)`prev
      ensures Placed(sh, d, lo, hi, i, i + 1, ms, mid, before, after) && WellFilled(mid) && Became(sh.kids[i], split, ms, mid)
      ensures EntriesOf(mid) == Put(Entries(sh.kids[i]), key, value)
      ensures size == old(size) - (if Present(Entries(sh.kids[i]), key) then 1 else 0)
      ensures (forall n :: n in NodesOf(mid) && n !in Nodes(sh) ==> fresh(n))
      decreases sh, 0
    {
      assert FormedKids(sh.keys, sh.kids, d, lo, hi) && HoldsOf(sh.kids);
      ghost var a, b, c := sh.kids[..i], sh.kids[i], sh.kids[i + 1..];
      NodesAllocated(sh);
      ChildSubtree(sh, d, lo, hi, before, after, i);
      AtChild(sh.kids, i);
      LeavesOfAreNodes(c);
      split, ms, mid := InsertRecursive(node.children[i], key, value, b, d - 1, Lo(sh.keys, lo, i), Hi(sh.keys, hi, i),
                                        before + LeavesOf(a), LeavesOf(c) + after);
      ChildPlaced(sh, d, lo, hi, i, ms, mid, before, after);
      BecameFilled(sh, i, split, ms, mid);
    }

    /** Write the new lists of an internal node whose children i..j have given way to `mid`. */
    method Rewrite(node: Node, keys: seq<Key>, children: seq<Node>, ghost sh: Shape, ghost d: nat, ghost lo: Bound, ghost hi: Bound,
                   ghost i: nat, ghost j: nat, ghost ms: seq<Key>, ghost mid: seq<Shape>, ghost before: seq<Node>, ghost after: seq<Node>)
      returns (ghost sh1: Shape)
      requires sh.InnerAt? && sh.node == node && d > 0 && !node.leaf && i < j <= |sh.kids| == |sh.keys| + 1
      requires Placed(sh, d, lo, hi, i, j, ms, mid, before, after) && WellFilled(mid)
      requires keys == Splice(sh.keys, i, j - 1, ms) && children == Splice(Roots(sh.kids), i, j, Roots(mid))
      modifies node`keys, node`children
      ensures IsSpliced(sh, i, j, ms, mid, sh1) && Subtree(sh1, d, lo, hi, before, after)
      ensures Entries(sh1) == EntriesOf(sh.kids[..i]) + EntriesOf(mid) + EntriesOf(sh.kids[j..])
      ensures Nodes(sh1) == {node} + NodesOf(sh.kids[..i]) + NodesOf(mid) + NodesOf(sh.kids[j..])
    {
      PartNodes(sh.kids, i, j);
      node.keys := keys;
      node.children := children;
      sh1 := InnerAt(node, Splice(sh.keys, i, j - 1, ms), Splice(sh.kids, i, j, mid));
      SplicedSubtree(sh, d, lo, hi, i, j, ms, mid, sh1, before, after);
    }

    /** Take the separator and the right half of a split child into an internal node. */
    method TakeSplit(node: Node, i: nat, split: Split, ghost sh: Shape, ghost d: nat, ghost lo: Bound, ghost hi: Bound,
                     ghost before: seq<Node>, ghost after: seq<Node>, ghost ms: seq<Key>, ghost mid: seq<Shape>)
      returns (ghost sh1: Shape)
      requires sh.InnerAt? && sh.node == node && d > 0 && !node.leaf && node.keys == sh.keys && node.children == Roots(sh.kids)
      requires i < |sh.kids| == |sh.keys| + 1 && Became(sh.kids[i], split, ms, mid)
      requires Placed(sh, d, lo, hi, i, i + 1, ms, mid, before, after) && WellFilled(mid)
      modifies node`keys, node`children
      ensures IsSpliced(sh, i, i + 1, ms, mid, sh1) && Subtree(sh1, d, lo, hi, before, after)
      ensures Entries(sh1) == EntriesOf(sh.kids[..i]) + EntriesOf(mid) + EntriesOf(sh.kids[i + 1..])
      ensures Nodes(sh1) == {node} + NodesOf(sh.kids[..i]) + NodesOf(mid) + NodesOf(sh.kids[i + 1..])
    {
      if split.SplitAt? {
        assert mid == [mid[0], mid[1]];
        RootsPair(mid[0], mid[1]);
        sh1 := Rewrite(node, node.keys[..i] + [split.key] + node.keys[i..],
                       node.children[..i] + [split.left, split.right] + node.children[i + 1..],
                       sh, d, lo, hi, i, i + 1, ms, mid, before, after);
      } else {
        assert mid == [mid[0]] && ms == [];
        sh1 := InnerAt(node, Splice(sh.keys, i, i, ms), Splice(sh.kids, i, i + 1, mid));
        KeptSubtree(sh, d, lo, hi, i, mid[0], sh1, before, after);
      }
    }

    method Insert(key: Key, value: Item)
      requires Valid()
      modifies this, Nodes(shape)
      ensures Valid() && Contents() == old(Contents())[key := value]
      ensures forall n :: n in Nodes(shape) && n !in old(Nodes(shape)) ==> fresh(n)
    {
      FormedSorted(shape, depth, Open, Open);
      PutIsUpdate(Entries(shape), key, value);
      InsertAtRoot(key, value);
      size := size + 1;
    }

    /** The insertion itself; if the root was split, there is a new root above the halves. */
    method InsertAtRoot(key: Key, value: Item)
      requires Built()
      modifies this, Nodes(shape)
      ensures Built() && Entries(shape) == Put(old(Entries(shape)), key, value)
      ensures size == old(size) - (if Present(old(Entries(shape)), key) then 1 else 0)
      ensures forall n :: n in Nodes(shape) && n !in old(Nodes(shape)) ==> fresh(n)
    {
      var split;
      ghost var ks2, kids2;
      split, ks2, kids2 := InsertRecursive(root, key, value, shape, depth, Open, Open, [], []);
      SetRoot(split, shape, ks2, kids2);
    }

    method SetRoot(split: Split, ghost sh: Shape, ghost ks2: seq<Key>, ghost kids2: seq<Shape>)
      requires Subtrees(ks2, kids2, depth, Open, Open, [], []) && Became(sh, split, ks2, kids2) && root == sh.node && firstLeaf == First(sh)
      requires depth > 0 ==> sh.keys != []
      modifies `root, `shape, `depth
      ensures Built() && Entries(shape) == EntriesOf(kids2) && forall n :: n in Nodes(shape) && n !in NodesOf(kids2) ==> fresh(n)
    {
      if split.SplitAt? {
        var newRoot := NewRoot(split, ks2, kids2, depth);
        root, shape, depth := newRoot, InnerAt(newRoot, ks2, kids2), depth + 1;
      } else {
        OnlySubtree(ks2, kids2, depth, Open, Open, [], []);
        shape := kids2[0];
      }
    }

    method NewRoot(split: Split, ghost ks2: seq<Key>, ghost kids2: seq<Shape>, ghost d: nat) returns (newRoot: Node)
      requires Subtrees(ks2, kids2, d, Open, Open, [], []) && |kids2| == 2 && WellFilled(kids2)
      requires |ks2| == 1 && split == SplitAt(ks2[0], kids2[0].node, kids2[1].node)
      ensures fresh(newRoot) && Subtree(InnerAt(newRoot, ks2, kids2), d + 1, Open, Open, [], [])
    {
      SubtreesAllocated(kids2, [], []);
      newRoot := new Node(false);
      newRoot.keys := newRoot.keys + [split.key];
      newRoot.children := newRoot.children + [split.left, split.right];
      assert kids2 == [kids2[0], kids2[1]];
      RootsPair(kids2[0], kids2[1]);
    }

    // ---- deletion ----------------------------------------------------------------------------------------------

    /** The first entry of `right` moves to the end of `leaf`. */
    method ShiftLeft(leaf: Node, right: Node, ghost x: Shape, ghost sep: Key, ghost y: Shape, ghost lo: Bound, ghost hi: Bound,
                     ghost before: seq<Node>, ghost after: seq<Node>)
      returns (ghost x1: Shape, ghost y1: Shape)
      requires x.LeafAt? && y.LeafAt? && x.node == leaf && y.node == right && Subtrees([sep], [x, y], 0, lo, hi, before, after)
      requires |x.keys| == ORDER - 1 && |y.keys| > ORDER
      modifies leaf`keys, leaf`values, right`keys, right`values
      ensures Shifted(x, y, x1, y1, lo, hi, before, after) && right.keys == y1.keys
    {
      OfPair(x, sep, y, 0, lo, hi, before, after);
      assert Leaves(x) + Leaves(y) == [x.node, y.node];
      leaf.keys, leaf.values := leaf.keys + [right.keys[0]], leaf.values + [right.values[0]];
      right.keys, right.values := right.keys[1..], right.values[1..];
      x1, y1 := LeafAt(leaf, leaf.keys, leaf.values), LeafAt(right, right.keys, right.values);
      assert x1.keys + y1.keys == x.keys + y.keys && x1.vals + y1.vals == x.vals + y.vals;
      LeafShift(x, sep, y, lo, hi, before, after, x1, y1);
    }

    /** The last entry of `left` moves to the front of `leaf`. */
    method ShiftRight(left: Node, leaf: Node, ghost x: Shape, ghost sep: Key, ghost y: Shape, ghost lo: Bound, ghost hi: Bound,
                      ghost before: seq<Node>, ghost after: seq<Node>)
      returns (ghost x1: Shape, ghost y1: Shape)
      requires x.LeafAt? && y.LeafAt? && x.node == left && y.node == leaf && Subtrees([sep], [x, y], 0, lo, hi, before, after)
      requires |x.keys| > ORDER && |y.keys| == ORDER - 1
      modifies left`keys, left`values, leaf`keys, leaf`values
      ensures Shifted(x, y, x1, y1, lo, hi, before, after) && leaf.keys == y1.keys
    {
      OfPair(x, sep, y, 0, lo, hi, before, after);
      assert Leaves(x) + Leaves(y) == [x.node, y.node];
      var n := |left.keys| - 1;
      leaf.keys, leaf.values := [left.keys[n]] + leaf.keys, [left.values[n]] + leaf.values;
      left.keys, left.values := left.keys[..n], left.values[..n];
      x1, y1 := LeafAt(left, left.keys, left.values), LeafAt(leaf, leaf.keys, leaf.values);
      assert x1.keys + y1.keys == x.keys + y.keys && x1.vals + y1.vals == x.vals + y.vals;
      LeafShift(x, sep, y, lo, hi, before, after, x1, y1);
    }

    /** Take `right`, which follows `left`, out of the leaf list. */
    method UnlinkBehind(left: Node, right: Node, ghost ns: seq<Node>, ghost i: nat)
      requires Linked(ns) && i + 1 < |ns| && ns[i] == left && ns[i + 1] == right
      modifies left`next, NodesIn(ns[i + 2..])`prev
      ensures Linked(ns[..i + 1] + ns[i + 2..])
    {
      assert Joined(ns, i) && Joined(ns, i + 1);
      assert i + 2 < |ns| ==> ns[i + 2] in ns[i + 2..] && Differ(ns, i, i + 2);
      left.next := right.next;
      if right.next != null {
        right.next.prev := left;
      }
      ghost var r := ns[..i + 1] + ns[i + 2..];
      forall x: nat, y: nat | x < y < |r| ensures Differ(r, x, y) {
        assert Differ(ns, if x <= i then x else x + 1, if y <= i then y else y + 1);
      }
      forall x: nat | x < |r| ensures Joined(r, x) {
        var x0 := if x <= i then x else x + 1;
        assert old(Joined(ns, x0)) && ns[x0] in ns;
        assert x0 < i ==> Differ(ns, x0, i);
        assert x0 > i ==> Differ(ns, i, x0);
        assert i + 2 < |ns| && x0 < i + 2 ==> Differ(ns, x0, i + 2);
        assert i + 2 < x0 ==> Differ(ns, i + 2, x0);
      }
    }

    /** `left` takes over everything from `right`, which drops out of the leaf list. */
    method MergeLeaves(left: Node, right: Node, ghost x: Shape, ghost sep: Key, ghost y: Shape, ghost lo: Bound, ghost hi: Bound,
                       ghost before: seq<Node>, ghost after: seq<Node>)
      returns (ghost whole: Shape)
      requires x.LeafAt? && y.LeafAt? && x.node == left && y.node == right && Subtrees([sep], [x, y], 0, lo, hi, before, after)
      requires |x.keys| + |y.keys| <= 2 * ORDER
      modifies left`keys, left`values, left`next, NodesIn(after)`prev
      ensures whole.LeafAt? && whole.node == left && |whole.keys| == |x.keys| + |y.keys|
      ensures Subtrees([], [whole], 0, lo, hi, before, after)
      ensures EntriesOf([whole]) == EntriesOf([x, y]) && NodesOf([whole]) <= NodesOf([x, y])
    {
      OfPair(x, sep, y, 0, lo, hi, before, after);
      ghost var ns := before + [left, right] + after;
      assert before + (Leaves(x) + Leaves(y)) + after == ns;
      left.keys, left.values := left.keys + right.keys, left.values + right.values;
      whole := LeafAt(left, left.keys, left.values);
      assert ns[|before| + 2..] == after;
      UnlinkBehind(left, right, ns, |before|);
      assert ns[..|before| + 1] + ns[|before| + 2..] == before + [left] + after;
      LeafJoin(x, sep, y, lo, hi, whole);
      SingleSubtree(whole, 0, lo, hi, before, after);
    }

    /** `left` takes over the separator and everything from `right`. */
    method MergeInternals(left: Node, sep: Key, right: Node, ghost x: Shape, ghost y: Shape, ghost d: nat, ghost lo: Bound, ghost hi: Bound,
                          ghost before: seq<Node>, ghost after: seq<Node>)
      returns (ghost whole: Shape)
      requires x.InnerAt? && y.InnerAt? && x.node == left && y.node == right && d > 0 && Subtrees([sep], [x, y], d, lo, hi, before, after)
      modifies left`keys, left`children
      ensures whole.InnerAt? && whole.node == left && |whole.keys| == |x.keys| + 1 + |y.keys| && First(whole) == First(x)
      ensures Subtrees([], [whole], d, lo, hi, before, after)
      ensures EntriesOf([whole]) == EntriesOf([x, y]) && NodesOf([whole]) <= NodesOf([x, y])
    {
      OfPair(x, sep, y, d, lo, hi, before, after);
      assert FormedKids(x.keys, x.kids, d, lo, At(sep)) && HoldsOf(x.kids) && HoldsOf(y.kids);
      left.keys := left.keys + [sep] + right.keys;
      left.children := left.children + right.children;
      whole := InnerAt(left, x.keys + [sep] + y.keys, x.kids + y.kids);
      InnerJoin(x, sep, y, d, lo, hi, whole);
      SingleSubtree(whole, d, lo, hi, before, after);
    }

    /** Drop separator `p` and child `p + 1` from an internal node, once child `p` has taken over that child. */
    method DropChild(parent: Node, p: nat, ghost sh: Shape, ghost d: nat, ghost lo: Bound, ghost hi: Bound,
                     ghost pair: seq<Shape>, ghost whole: Shape, ghost before: seq<Node>, ghost after: seq<Node>)
      returns (ghost sh1: Shape)
      requires sh.InnerAt? && sh.node == parent && p + 1 < |sh.kids| == |sh.keys| + 1 && d > 0
      requires !parent.leaf && parent.keys == sh.keys && parent.children == Roots(sh.kids) && whole.node == sh.kids[p].node
      requires Flanked(sh, d, lo, hi, p, p + 2, before, after, NodesOf(pair)) && NodesOf([whole]) <= NodesOf(pair) && WellFilled([whole])
      requires Subtrees([], [whole], d - 1, Lo(sh.keys, lo, p), Hi(sh.keys, hi, p + 1),
                        before + LeavesOf(sh.kids[..p]), LeavesOf(sh.kids[p + 2..]) + after)
      modifies parent`keys, parent`children
      ensures IsSpliced(sh, p, p + 2, [], [whole], sh1) && Subtree(sh1, d, lo, hi, before, after)
      ensures Entries(sh1) == EntriesOf(sh.kids[..p]) + EntriesOf([whole]) + EntriesOf(sh.kids[p + 2..])
      ensures Nodes(sh1) == {parent} + NodesOf(sh.kids[..p]) + NodesOf([whole]) + NodesOf(sh.kids[p + 2..])
    {
      PairReplaced(sh, d, lo, hi, p, pair, [], [whole], before, after);
      RootsDropped(sh.kids, p, whole);
      assert parent.keys[..p] + parent.keys[p + 1..] == Splice(sh.keys, p, p + 1, []);
      sh1 := Rewrite(parent, parent.keys[..p] + parent.keys[p + 1..], parent.children[..p + 1] + parent.children[p + 2..],
                     sh, d, lo, hi, p, p + 2, [], [whole], before, after);
    }

    /** Borrow an entry from the right neighbour of a leaf. */
    method BorrowFromRight(leaf: Node, parent: Node, i: nat, ghost sh: Shape, ghost lo: Bound, ghost hi: Bound,
      ghost kid: Shape, ghost before: seq<Node>, ghost after: seq<Node>)
      returns (ghost sh1: Shape)
      requires sh.InnerAt? && i + 1 < |sh.kids| == |sh.keys| + 1 && Underfull(sh, 1, lo, hi, i, kid, before, after)
      requires parent == sh.node && leaf == kid.node && kid.LeafAt? && sh.kids[i + 1].LeafAt? && |sh.kids[i + 1].keys| > ORDER
      modifies Nodes(sh)
      ensures Mended(sh, 1, lo, hi, i, kid, before, after, sh1)
    {
      var right := parent.children[i + 1];
      ghost var y, ls, rs := sh.kids[i + 1], before + LeavesOf(sh.kids[..i]), LeavesOf(sh.kids[i + 2..]) + after;
      RightPair(sh, 1, lo, hi, i, kid, before, after);
      NodesOfAllocated(sh.kids[..i]);
      NodesOfAllocated(sh.kids[i + 2..]);
      ghost var x1, y1 := ShiftLeft(leaf, right, kid, sh.keys[i], y, Lo(sh.keys, lo, i), Hi(sh.keys, hi, i + 1), ls, rs);
      PairReplaced(sh, 1, lo, hi, i, [kid, y], [y1.keys[0]], [x1, y1], before, after);
      RootsPairKept(sh.kids, i, x1, y1);
      sh1 := Rewrite(parent, parent.keys[i := right.keys[0]], parent.children,
                     sh, 1, lo, hi, i, i + 2, [y1.keys[0]], [x1, y1], before, after);
      MendedRight(sh, 1, lo, hi, i, kid, [y1.keys[0]], [x1, y1], before, after, sh1);
    }

    /** Borrow an entry from the left neighbour of a leaf. */
    method BorrowFromLeft(leaf: Node, parent: Node, i: nat, ghost sh: Shape, ghost lo: Bound, ghost hi: Bound,
      ghost kid: Shape, ghost before: seq<Node>, ghost after: seq<Node>)
      returns (ghost sh1: Shape)
      requires sh.InnerAt? && 0 < i < |sh.kids| == |sh.keys| + 1 && Underfull(sh, 1, lo, hi, i, kid, before, after)
      requires parent == sh.node && leaf == kid.node && kid.LeafAt? && sh.kids[i - 1].LeafAt? && |sh.kids[i - 1].keys| > ORDER
      modifies Nodes(sh)
      ensures Mended(sh, 1, lo, hi, i, kid, before, after, sh1)
    {
      var left := parent.children[i - 1];
      ghost var x, ls, rs := sh.kids[i - 1], before + LeavesOf(sh.kids[..i - 1]), LeavesOf(sh.kids[i + 1..]) + after;
      LeftPair(sh, 1, lo, hi, i, kid, before, after);
      NodesOfAllocated(sh.kids[..i - 1]);
      NodesOfAllocated(sh.kids[i + 1..]);
      ghost var x1, y1 := ShiftRight(left, leaf, x, sh.keys[i - 1], kid, Lo(sh.keys, lo, i - 1), Hi(sh.keys, hi, i), ls, rs);
      PairReplaced(sh, 1, lo, hi, i - 1, [x, kid], [y1.keys[0]], [x1, y1], before, after);
      RootsPairKept(sh.kids, i - 1, x1, y1);
      sh1 := Rewrite(parent, parent.keys[i - 1 := leaf.keys[0]], parent.children,
                     sh, 1, lo, hi, i - 1, i + 1, [y1.keys[0]], [x1, y1], before, after);
      MendedLeft(sh, 1, lo, hi, i, kid, [y1.keys[0]], [x1, y1], before, after, sh1);
    }

    /** Merge a leaf with its right neighbour. */
    method MergeWithRight(leaf: Node, parent: Node, i: nat, ghost sh: Shape, ghost lo: Bound, ghost hi: Bound,
      ghost kid: Shape, ghost before: seq<Node>, ghost after: seq<Node>)
      returns (ghost sh1: Shape)
      requires sh.InnerAt? && i + 1 < |sh.kids| == |sh.keys| + 1 && Underfull(sh, 1, lo, hi, i, kid, before, after)
      requires parent == sh.node && leaf == kid.node && kid.LeafAt? && sh.kids[i + 1].LeafAt? && |sh.kids[i + 1].keys| == ORDER
      modifies Nodes(sh), NodesIn(after)`prev
      ensures Mended(sh, 1, lo, hi, i, kid, before, after, sh1)
    {
      var right := parent.children[i + 1];
      ghost var y, ls, rs := sh.kids[i + 1], before + LeavesOf(sh.kids[..i]), LeavesOf(sh.kids[i + 2..]) + after;
      RightPair(sh, 1, lo, hi, i, kid, before, after);
      NodesOfAllocated(sh.kids[..i]);
      NodesOfAllocated(sh.kids[i + 2..]);
      LeavesOfAreNodes(sh.kids[i + 2..]);
      PartNodes(sh.kids, i, i + 2);
      ghost var whole := MergeLeaves(leaf, right, kid, sh.keys[i], y, Lo(sh.keys, lo, i), Hi(sh.keys, hi, i + 1), ls, rs);
      sh1 := DropChild(parent, i, sh, 1, lo, hi, [kid, y], whole, before, after);
      MendedRight(sh, 1, lo, hi, i, kid, [], [whole], before, after, sh1);
    }

    /** Merge a leaf with its left neighbour. */
    method MergeWithLeft(leaf: Node, parent: Node, i: nat, ghost sh: Shape, ghost lo: Bound, ghost hi: Bound,
      ghost kid: Shape, ghost before: seq<Node>, ghost after: seq<Node>)
      returns (ghost sh1: Shape)
      requires sh.InnerAt? && 0 < i < |sh.kids| == |sh.keys| + 1 && Underfull(sh, 1, lo, hi, i, kid, before, after)
      requires parent == sh.node && leaf == kid.node && kid.LeafAt? && sh.kids[i - 1].LeafAt? && |sh.kids[i - 1].keys| == ORDER
      modifies Nodes(sh), NodesIn(after)`prev
      ensures Mended(sh, 1, lo, hi, i, kid, before, after, sh1)
    {
      var left := parent.children[i - 1];
      ghost var x, ls, rs := sh.kids[i - 1], before + LeavesOf(sh.kids[..i - 1]), LeavesOf(sh.kids[i + 1..]) + after;
      LeftPair(sh, 1, lo, hi, i, kid, before, after);
      NodesOfAllocated(sh.kids[..i - 1]);
      NodesOfAllocated(sh.kids[i + 1..]);
      LeavesOfAreNodes(sh.kids[i + 1..]);
      PartNodes(sh.kids, i - 1, i + 1);
      ghost var whole := MergeLeaves(left, leaf, x, sh.keys[i - 1], kid, Lo(sh.keys, lo, i - 1), Hi(sh.keys, hi, i), ls, rs);
      sh1 := DropChild(parent, i - 1, sh, 1, lo, hi, [x, kid], whole, before, after);
      MendedLeft(sh, 1, lo, hi, i, kid, [], [whole], before, after, sh1);
    }

    /** An underfull leaf borrows from a neighbour, the right one first, or else is merged with one. */
    method RebalanceLeaf(leaf: Node, parent: Node, idx: nat, ghost sh: Shape, ghost lo: Bound, ghost hi: Bound,
                         ghost kid: Shape, ghost before: seq<Node>, ghost after: seq<Node>)
      returns (ghost sh1: Shape)
      requires sh.InnerAt? && idx < |sh.kids| == |sh.keys| + 1 && Underfull(sh, 1, lo, hi, idx, kid, before, after)
      requires parent == sh.node && leaf == kid.node && kid.LeafAt?
      modifies Nodes(sh), NodesIn(after)`prev
      ensures Mended(sh, 1, lo, hi, idx, kid, before, after, sh1)
    {
      Neighbours(sh, 1, lo, hi, idx, before, after, NodesOf([kid]));
      if idx < |parent.children| - 1 {
        var right := parent.children[idx + 1];
        if |right.keys| > ORDER {
          sh1 := BorrowFromRight(leaf, parent, idx, sh, lo, hi, kid, before, after);
          return;
        }
      }
      if idx > 0 {
        var left := parent.children[idx - 1];
        if |left.keys| > ORDER {
          sh1 := BorrowFromLeft(leaf, parent, idx, sh, lo, hi, kid, before, after);
          return;
        }
      }
      if idx < |parent.children| - 1 {
        sh1 := MergeWithRight(leaf, parent, idx, sh, lo, hi, kid, before, after);
      } else {
        sh1 := MergeWithLeft(leaf, parent, idx, sh, lo, hi, kid, before, after);
      }
    }

    /** An underfull internal node is merged with its right neighbour, or else with its left one. */
    method RebalanceInternal(node: Node, parent: Node, idx: nat, ghost sh: Shape, ghost d: nat, ghost lo: Bound, ghost hi: Bound,
                             ghost kid: Shape, ghost before: seq<Node>, ghost after: seq<Node>)
      returns (ghost sh1: Shape)
      requires sh.InnerAt? && idx < |sh.kids| == |sh.keys| + 1 && d > 1 && Underfull(sh, d, lo, hi, idx, kid, before, after)
      requires parent == sh.node && node == kid.node && kid.InnerAt?
      modifies Nodes(sh)
      ensures Mended(sh, d, lo, hi, idx, kid, before, after, sh1)
    {
      Neighbours(sh, d, lo, hi, idx, before, after, NodesOf([kid]));
      if idx < |parent.children| - 1 {
        sh1 := AbsorbRight(node, parent, idx, sh, d, lo, hi, kid, before, after);
      } else {
        sh1 := AbsorbIntoLeft(node, parent, idx, sh, d, lo, hi, kid, before, after);
      }
    }

    method AbsorbRight(node: Node, parent: Node, i: nat, ghost sh: Shape, ghost d: nat, ghost lo: Bound, ghost hi: Bound,
                       ghost kid: Shape, ghost before: seq<Node>, ghost after: seq<Node>)
      returns (ghost sh1: Shape)
      requires sh.InnerAt? && i + 1 < |sh.kids| == |sh.keys| + 1 && d > 1 && Underfull(sh, d, lo, hi, i, kid, before, after)
      requires parent == sh.node && node == kid.node && kid.InnerAt? && sh.kids[i + 1].InnerAt? && |sh.kids[i + 1].keys| >= ORDER
      modifies Nodes(sh)
      ensures Mended(sh, d, lo, hi, i, kid, before, after, sh1)
    {
      var right := parent.children[i + 1];
      ghost var y, ls, rs := sh.kids[i + 1], before + LeavesOf(sh.kids[..i]), LeavesOf(sh.kids[i + 2..]) + after;
      RightPair(sh, d, lo, hi, i, kid, before, after);
      NodesOfAllocated(sh.kids[..i]);
      NodesOfAllocated(sh.kids[i + 2..]);
      ghost var whole := MergeInternals(node, parent.keys[i], right, kid, y, d - 1, Lo(sh.keys, lo, i), Hi(sh.keys, hi, i + 1), ls, rs);
      sh1 := DropChild(parent, i, sh, d, lo, hi, [kid, y], whole, before, after);
      MendedRight(sh, d, lo, hi, i, kid, [], [whole], before, after, sh1);
    }

    method AbsorbIntoLeft(node: Node, parent: Node, i: nat, ghost sh: Shape, ghost d: nat, ghost lo: Bound, ghost hi: Bound,
                          ghost kid: Shape, ghost before: seq<Node>, ghost after: seq<Node>)
      returns (ghost sh1: Shape)
      requires sh.InnerAt? && 0 < i < |sh.kids| == |sh.keys| + 1 && d > 1 && Underfull(sh, d, lo, hi, i, kid, before, after)
      requires parent == sh.node && node == kid.node && kid.InnerAt? && sh.kids[i - 1].InnerAt? && |sh.kids[i - 1].keys| >= ORDER
      modifies Nodes(sh)
      ensures Mended(sh, d, lo, hi, i, kid, before, after, sh1)
    {
      var left := parent.children[i - 1];
      ghost var x, ls, rs := sh.kids[i - 1], before + LeavesOf(sh.kids[..i - 1]), LeavesOf(sh.kids[i + 1..]) + after;
      LeftPair(sh, d, lo, hi, i, kid, before, after);
      NodesOfAllocated(sh.kids[..i - 1]);
      NodesOfAllocated(sh.kids[i + 1..]);
      ghost var whole := MergeInternals(left, parent.keys[i - 1], node, x, kid, d - 1, Lo(sh.keys, lo, i - 1), Hi(sh.keys, hi, i), ls, rs);
      sh1 := DropChild(parent, i - 1, sh, d, lo, hi, [x, kid], whole, before, after);
      MendedLeft(sh, d, lo, hi, i, kid, [], [whole], before, after, sh1);
    }

    method DeleteFromLeaf(leaf: Node, key: Key, ghost sh: Shape, ghost lo: Bound, ghost hi: Bound,
                          ghost before: seq<Node>, ghost after: seq<Node>)
      returns (deleted: bool, ghost sh1: Shape)
      requires sh.LeafAt? && sh.node == leaf && Subtree(sh, 0, lo, hi, before, after)
      modifies leaf`keys, leaf`values
      ensures Deleted(key, sh, 0, lo, hi, before, after, deleted, sh1)
    {
      SubtreeAllocated(sh, before, after);
      var idx := BinarySearch(leaf.keys, key);
      if idx < 0 {
        ZipAbsent(sh.keys, sh.vals, -(idx + 1), key);
        NothingDeleted(key, sh, 0, lo, hi, before, after);
        return false, sh;
      }
      sh1 := RemoveFromLeaf(leaf, idx, sh, lo, hi, before, after);
      deleted := true;
    }

    method RemoveFromLeaf(leaf: Node, i: nat, ghost sh: Shape, ghost lo: Bound, ghost hi: Bound,
                          ghost before: seq<Node>, ghost after: seq<Node>)
      returns (ghost sh1: Shape)
      requires sh.LeafAt? && sh.node == leaf && Subtree(sh, 0, lo, hi, before, after) && i < |sh.keys|
      modifies leaf`keys, leaf`values
      ensures Deleted(sh.keys[i], sh, 0, lo, hi, before, after, true, sh1)
    {
      ZipRemoved(sh.keys, sh.vals, i);
      KeysRemoved(sh.keys, lo, hi, i);
      leaf.keys := leaf.keys[..i] + leaf.keys[i + 1..];
      leaf.values := leaf.values[..i] + leaf.values[i + 1..];
      sh1 := LeafAt(leaf, leaf.keys, leaf.values);
    }

    /** Delete below child `i`; whether that child is still filled well is left to the caller. */
    method DeleteBelow(node: Node, i: nat, key: Key, ghost sh: Shape, ghost d: nat, ghost lo: Bound, ghost hi: Bound,
                       ghost before: seq<Node>, ghost after: seq<Node>)
      returns (deleted: bool, ghost kid: Shape)
      requires sh.InnerAt? && sh.node == node && d > 0 && Subtree(sh, d, lo, hi, before, after) && i < |sh.kids| == |sh.keys| + 1
      requires Above(Lo(sh.keys, lo, i), key) && Below(key, Hi(sh.keys, hi, i))
      modifies NodesOf(sh.kids), NodesIn(after)`prev
      ensures Placed(sh, d, lo, hi, i, i + 1, [], [kid], before, after)
      ensures Entries(kid) == Without(Entries(sh.kids[i]), key) && (deleted <==> Present(Entries(sh.kids[i]), key))
      ensures kid.node == sh.kids[i].node && First(kid) == First(sh.kids[i]) && Nodes(kid) <= Nodes(sh.kids[i])
      ensures |kid.keys| >= ORDER - (if deleted then 1 else 0) && kid.node.keys == kid.keys
      ensures (kid.LeafAt? <==> d == 1) && (kid.node.leaf <==> kid.LeafAt?)
      decreases sh, 0
    {
      assert FormedKids(sh.keys, sh.kids, d, lo, hi) && HoldsOf(sh.kids);
      ghost var a, b, c := sh.kids[..i], sh.kids[i], sh.kids[i + 1..];
      NodesAllocated(sh);
      ChildSubtree(sh, d, lo, hi, before, after, i);
      AtChild(sh.kids, i);
      LeavesOfAreNodes(c);
      deleted, kid := DeleteRecursive(node.children[i], key, b, d - 1, Lo(sh.keys, lo, i), Hi(sh.keys, hi, i),
                                      before + LeavesOf(a), LeavesOf(c) + after);
      SingleSubtree(kid, d - 1, Lo(sh.keys, lo, i), Hi(sh.keys, hi, i), before + LeavesOf(a), LeavesOf(c) + after);
      ChildPlaced(sh, d, lo, hi, i, [], [kid], before, after);
    }

    method DeleteRecursive(node: Node, key: Key, ghost sh: Shape, ghost d: nat, ghost lo: Bound, ghost hi: Bound,
                           ghost before: seq<Node>, ghost after: seq<Node>)
      returns (deleted: bool, ghost sh1: Shape)
      requires sh.node == node && Subtree(sh, d, lo, hi, before, after) && Above(lo, key) && Below(key, hi)
      requires sh.InnerAt? ==> sh.keys != []
      modifies Nodes(sh), NodesIn(after)`prev
      ensures Deleted(key, sh, d, lo, hi, before, after, deleted, sh1)
      decreases sh
    {
      if node.leaf {
        deleted, sh1 := DeleteFromLeaf(node, key, sh, lo, hi, before, after);
        return;
      }
      assert FormedKids(sh.keys, sh.kids, d, lo, hi);
      SubtreeAllocated(sh, before, after);
      var i := FindChildIndex(node.keys, key, lo, hi);
      ghost var kid;
      deleted, kid := DeleteBelow(node, i, key, sh, d, lo, hi, before, after);
      var child := node.children[i];
      if deleted && |child.keys| < ORDER {
        sh1 := Rebalance(child, node, i, sh, d, lo, hi, kid, before, after);
        MendedDeleted(key, sh, d, lo, hi, i, kid, before, after, sh1);
      } else {
        sh1 := InnerAt(node, Splice(sh.keys, i, i, []), Splice(sh.kids, i, i + 1, [kid]));
        KeptDeleted(key, sh, d, lo, hi, i, kid, before, after, deleted, sh1);
      }
    }

    method Rebalance(child: Node, parent: Node, idx: nat, ghost sh: Shape, ghost d: nat, ghost lo: Bound, ghost hi: Bound,
                     ghost kid: Shape, ghost before: seq<Node>, ghost after: seq<Node>)
      returns (ghost sh1: Shape)
      requires sh.InnerAt? && idx < |sh.kids| == |sh.keys| + 1 && d > 0 && Underfull(sh, d, lo, hi, idx, kid, before, after)
      requires parent == sh.node && child == kid.node && (kid.LeafAt? <==> d == 1) && (child.leaf <==> kid.LeafAt?)
      modifies Nodes(sh), NodesIn(after)`prev
      ensures Mended(sh, d, lo, hi, idx, kid, before, after, sh1)
    {
      if child.leaf {
        sh1 := RebalanceLeaf(child, parent, idx, sh, lo, hi, kid, before, after);
      } else {
        sh1 := RebalanceInternal(child, parent, idx, sh, d, lo, hi, kid, before, after);
      }
    }

    method Delete(key: Key) returns (deleted: bool)
      requires Valid()
      modifies this, Nodes(shape)
      ensures Valid() && Contents() == old(Contents()) - {key}
      ensures deleted <==> key in old(Contents())
      ensures Nodes(shape) <= old(Nodes(shape))
    {
      FormedSorted(shape, depth, Open, Open);
      EntryRemoved(Entries(shape), key);
      deleted := DeleteEntry(key);
      if deleted {
        size := size - 1;
        CollapseRoot();
      }
    }

    method DeleteEntry(key: Key) returns (deleted: bool)
      requires Built()
      modifies this`shape, Nodes(shape)
      ensures root == shape.node && Subtree(shape, depth, Open, Open, [], []) && firstLeaf == First(shape)
      ensures Entries(shape) == Without(old(Entries(shape)), key) && (deleted <==> Present(old(Entries(shape)), key))
      ensures !deleted && shape.InnerAt? ==> shape.keys != []
      ensures Nodes(shape) <= old(Nodes(shape))
    {
      ghost var sh1;
      deleted, sh1 := DeleteRecursive(root, key, shape, depth, Open, Open, [], []);
      shape := sh1;
    }

    /** An internal root that has lost its last separator gives way to its only child. */
    method CollapseRoot()
      requires root == shape.node && Subtree(shape, depth, Open, Open, [], []) && firstLeaf == First(shape)
      modifies this`root, this`shape, this`depth
      ensures Built() && Entries(shape) == old(Entries(shape)) && Nodes(shape) <= old(Nodes(shape))
    {
      if !root.leaf && |root.keys| == 0 {
        OnlyChild(shape, depth, Open, Open);
        root, shape, depth := root.children[0], shape.kids[0], depth - 1;
      }
    }

    /** The subtree `sh` has become `kids2`, one subtree or two with a separator, which hold `key` as well. */
    ghost predicate Inserted(size0: int, key: Key, value: Item, sh: Shape, d: nat, lo: Bound, hi: Bound, before: seq<Node>, after: seq<Node>,
                             split: Split, ks2: seq<Key>, kids2: seq<Shape>)
      reads this, NodesOf(kids2)`keys, NodesOf(kids2)`values, NodesOf(kids2)`children
      reads NodesIn(before + LeavesOf(kids2) + after)`next, NodesIn(before + LeavesOf(kids2) + after)`prev
    {
      && Subtrees(ks2, kids2, d, lo, hi, before, after)
      && EntriesOf(kids2) == Put(Entries(sh), key, value)
      && size == size0 - (if Present(Entries(sh), key) then 1 else 0)
      && Became(sh, split, ks2, kids2)
    }
  }
}
