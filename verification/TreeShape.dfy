/** What a B+ tree of linked node objects looks like: a ghost picture of the nodes, what it holds, and when it
    is ordered, balanced and well filled. */
module TreeShape {
  import opened SortedEntries
  import Seqs

  const ORDER: nat := 3                 // a node other than the root has at least 3 keys, a leaf at most 6

  class Node {
    const leaf: bool
    var keys: seq<Key>
    var values: seq<Item>               // leaves only
    var children: seq<Node>             // internal nodes only
    var next: Node?                     // leaves only: the list for range scans
    var prev: Node?

    constructor (leaf: bool)
      ensures this.leaf == leaf && keys == [] && values == [] && children == [] && next == null && prev == null
    {
      this.leaf := leaf;
      keys, values, children, next, prev := [], [], [], null, null;
    }
  }

  datatype Shape =
    | LeafAt(node: Node, keys: seq<Key>, vals: seq<Item>)
    | InnerAt(node: Node, keys: seq<Key>, kids: seq<Shape>)

  ghost function Zip(ks: seq<Key>, vs: seq<Item>): (es: seq<Entry>)
    ensures |ks| == |vs| ==> |es| == |ks| && forall i :: 0 <= i < |es| ==> es[i] == (ks[i], vs[i])
  {
    if |ks| == |vs| then seq(|ks|, i requires 0 <= i < |ks| => (ks[i], vs[i])) else []
  }

  ghost function Entries(sh: Shape): seq<Entry> {
    match sh
    case LeafAt(_, ks, vs) => Zip(ks, vs)
    case InnerAt(_, _, kids) => EntriesOf(kids)
  }

  ghost function EntriesOf(kids: seq<Shape>): seq<Entry> {
    if kids == [] then [] else Entries(kids[0]) + EntriesOf(kids[1..])
  }

  /** The leaves, from left to right. */
  ghost function Leaves(sh: Shape): seq<Node> {
    match sh
    case LeafAt(node, _, _) => [node]
    case InnerAt(_, _, kids) => LeavesOf(kids)
  }

  ghost function LeavesOf(kids: seq<Shape>): seq<Node> {
    if kids == [] then [] else Leaves(kids[0]) + LeavesOf(kids[1..])
  }

  /** The leftmost leaf. */
  ghost function First(sh: Shape): Node {
    if sh.LeafAt? || sh.kids == [] then sh.node else First(sh.kids[0])
  }

  lemma {:induction false} FirstIsLeftmost(sh: Shape, d: nat, lo: Bound, hi: Bound)
    requires Formed(sh, d, lo, hi)
    ensures Leaves(sh) != [] && Leaves(sh)[0] == First(sh)
    decreases sh
  {
    if sh.InnerAt? {
      assert FormedKids(sh.keys, sh.kids, d, lo, hi);
      FirstIsLeftmost(sh.kids[0], d - 1, Lo(sh.keys, lo, 0), Hi(sh.keys, hi, 0));
    }
  }

  lemma {:induction false} EntriesConcat(a: seq<Shape>, b: seq<Shape>)
    ensures EntriesOf(a + b) == EntriesOf(a) + EntriesOf(b)
  {
    if a == [] {
      Seqs.Nothing(b);
      Seqs.Nothing(EntriesOf(b));
    } else {
      Seqs.Tail(a, b);
      EntriesConcat(a[1..], b);
      Seqs.Assoc(Entries(a[0]), EntriesOf(a[1..]), EntriesOf(b));
    }
  }

  lemma {:induction false} LeavesConcat(a: seq<Shape>, b: seq<Shape>)
    ensures LeavesOf(a + b) == LeavesOf(a) + LeavesOf(b)
  {
    if a == [] {
      Seqs.Nothing(b);
      Seqs.Nothing(LeavesOf(b));
    } else {
      Seqs.Tail(a, b);
      LeavesConcat(a[1..], b);
      Seqs.Assoc(Leaves(a[0]), LeavesOf(a[1..]), LeavesOf(b));
    }
  }

  lemma {:induction false} EntriesAt(kids: seq<Shape>, i: nat)
    requires i < |kids|
    ensures EntriesOf(kids) == EntriesOf(kids[..i]) + Entries(kids[i]) + EntriesOf(kids[i + 1..])
  {
    var rest := kids[i..];
    assert kids == kids[..i] + rest && rest[1..] == kids[i + 1..];
    EntriesConcat(kids[..i], rest);
    assert EntriesOf(rest) == Entries(kids[i]) + EntriesOf(kids[i + 1..]);
  }

  lemma {:induction false} LeavesAt(kids: seq<Shape>, i: nat)
    requires i < |kids|
    ensures LeavesOf(kids) == LeavesOf(kids[..i]) + Leaves(kids[i]) + LeavesOf(kids[i + 1..])
  {
    var rest := kids[i..];
    assert kids == kids[..i] + rest && rest[1..] == kids[i + 1..];
    LeavesConcat(kids[..i], rest);
    assert LeavesOf(rest) == Leaves(kids[i]) + LeavesOf(kids[i + 1..]);
  }

  // ---- order and balance ------------------------------------------------------------------------------------

  datatype Bound = Open | At(key: Key)

  predicate Above(lo: Bound, k: Key) { lo.At? ==> lo.key <= k }
  predicate Below(k: Key, hi: Bound) { hi.At? ==> k < hi.key }

  predicate Inside(lo: Bound, k: Key, hi: Bound) { (lo.At? ==> lo.key < k) && Below(k, hi) }

  function Lo(ks: seq<Key>, lo: Bound, i: nat): Bound requires i <= |ks| { if i == 0 then lo else At(ks[i - 1]) }
  function Hi(ks: seq<Key>, hi: Bound, i: nat): Bound requires i <= |ks| { if i == |ks| then hi else At(ks[i]) }

  ghost predicate KeysIn(ks: seq<Key>, lo: Bound, hi: Bound) {
    && (forall i, j :: 0 <= i < j < |ks| ==> ks[i] < ks[j])
    && (forall i :: 0 <= i < |ks| ==> Above(lo, ks[i]) && Below(ks[i], hi))
  }

  ghost predicate SeparatorsIn(ks: seq<Key>, lo: Bound, hi: Bound) {
    && (forall i, j :: 0 <= i < j < |ks| ==> ks[i] < ks[j])
    && (forall i :: 0 <= i < |ks| ==> Inside(lo, ks[i], hi))
  }

  /** All leaves are at depth `d`, keys ascend, and each separator bounds the subtrees on both sides of it. */
  ghost predicate Formed(sh: Shape, d: nat, lo: Bound, hi: Bound)
    decreases sh
  {
    match sh
    case LeafAt(_, ks, vs) => d == 0 && |ks| == |vs| && KeysIn(ks, lo, hi)
    case InnerAt(_, ks, kids) => d > 0 && FormedKids(ks, kids, d, lo, hi)
  }

  ghost predicate FormedKids(ks: seq<Key>, kids: seq<Shape>, d: nat, lo: Bound, hi: Bound)
    requires d > 0
    decreases kids
  {
    && |kids| == |ks| + 1 && SeparatorsIn(ks, lo, hi)
    && forall i :: 0 <= i < |kids| ==> Formed(kids[i], d - 1, Lo(ks, lo, i), Hi(ks, hi, i))
  }

  /** Nodes below the root have at least ORDER keys, and leaves at most 2 * ORDER. */
  ghost predicate Filled(sh: Shape) {
    match sh
    case LeafAt(_, ks, _) => |ks| <= 2 * ORDER
    case InnerAt(_, _, kids) => forall i :: 0 <= i < |kids| ==> |kids[i].keys| >= ORDER && Filled(kids[i])
  }

  ghost predicate SortedIn(es: seq<Entry>, lo: Bound, hi: Bound) {
    Sorted(es) && forall i :: 0 <= i < |es| ==> Above(lo, es[i].0) && Below(es[i].0, hi)
  }

  lemma {:induction false} FormedSorted(sh: Shape, d: nat, lo: Bound, hi: Bound)
    requires Formed(sh, d, lo, hi)
    ensures SortedIn(Entries(sh), lo, hi)
    decreases sh, 0
  {
    if sh.InnerAt? {
      LeftSorted(sh.keys, sh.kids, d, lo, hi, |sh.kids|);
      assert sh.kids[..|sh.kids|] == sh.kids;
    }
  }

  lemma {:induction false} LeftSorted(ks: seq<Key>, kids: seq<Shape>, d: nat, lo: Bound, hi: Bound, i: nat)
    requires d > 0 && FormedKids(ks, kids, d, lo, hi) && 1 <= i <= |kids|
    ensures SortedIn(EntriesOf(kids[..i]), lo, Hi(ks, hi, i - 1))
    decreases kids, i
  {
    FormedSorted(kids[i - 1], d - 1, Lo(ks, lo, i - 1), Hi(ks, hi, i - 1));
    assert kids[..i] == kids[..i - 1] + [kids[i - 1]];
    EntriesConcat(kids[..i - 1], [kids[i - 1]]);
    assert EntriesOf([kids[i - 1]]) == Entries(kids[i - 1]);
    if i > 1 {
      LeftSorted(ks, kids, d, lo, hi, i - 1);
    }
  }

  lemma {:induction false} RightSorted(ks: seq<Key>, kids: seq<Shape>, d: nat, lo: Bound, hi: Bound, i: nat)
    requires d > 0 && FormedKids(ks, kids, d, lo, hi) && i < |kids|
    ensures SortedIn(EntriesOf(kids[i..]), Lo(ks, lo, i), hi)
    decreases |kids| - i
  {
    FormedSorted(kids[i], d - 1, Lo(ks, lo, i), Hi(ks, hi, i));
    assert kids[i..][1..] == kids[i + 1..];
    if i + 1 < |kids| {
      RightSorted(ks, kids, d, lo, hi, i + 1);
    }
  }

  /** A key within the bounds of child `i` lies between what is left and what is right of that child. */
  lemma {:induction false} ChildAround(ks: seq<Key>, kids: seq<Shape>, d: nat, lo: Bound, hi: Bound, i: nat, k: Key)
    requires d > 0 && FormedKids(ks, kids, d, lo, hi) && i < |kids|
    requires Above(Lo(ks, lo, i), k) && Below(k, Hi(ks, hi, i))
    ensures EntriesOf(kids) == EntriesOf(kids[..i]) + Entries(kids[i]) + EntriesOf(kids[i + 1..])
    ensures Around(EntriesOf(kids[..i]), EntriesOf(kids[i + 1..]), k)
  {
    EntriesAt(kids, i);
    if i > 0 { LeftSorted(ks, kids, d, lo, hi, i); }
    if i + 1 < |kids| { RightSorted(ks, kids, d, lo, hi, i + 1); }
  }

  // ---- replacing a run of children --------------------------------------------------------------------------

  function Splice<T>(s: seq<T>, i: nat, j: nat, mid: seq<T>): seq<T>
    requires i <= j <= |s|
  {
    s[..i] + mid + s[j..]
  }

  lemma {:induction false} SplicedAt<T>(s: seq<T>, i: nat, j: nat, mid: seq<T>, x: nat)
    requires i <= j <= |s| && x < |Splice(s, i, j, mid)|
    ensures Splice(s, i, j, mid)[x] == if x < i then s[x] else if x < i + |mid| then mid[x - i] else s[x - |mid| + j - i]
  {
  }

  /** The separators around child `x` after the splice, in terms of those before it. */
  lemma {:induction false} SplicedBounds(ks: seq<Key>, lo: Bound, hi: Bound, i: nat, j: nat, ks2: seq<Key>, x: nat)
    requires i <= j <= |ks| && x <= |Splice(ks, i, j, ks2)|
    ensures Lo(Splice(ks, i, j, ks2), lo, x) == if x <= i then Lo(ks, lo, x) else if x <= i + |ks2| then Lo(ks2, Lo(ks, lo, i), x - i) else Lo(ks, lo, x - |ks2| + j - i)
    ensures Hi(Splice(ks, i, j, ks2), hi, x) == if x < i then Hi(ks, hi, x) else if x <= i + |ks2| then Hi(ks2, Hi(ks, hi, j), x - i) else Hi(ks, hi, x - |ks2| + j - i)
  {
    if x > 0 { SplicedAt(ks, i, j, ks2, x - 1); }
    if x < |Splice(ks, i, j, ks2)| { SplicedAt(ks, i, j, ks2, x); }
  }

  lemma {:induction false} SplicedChild(ks: seq<Key>, kids: seq<Shape>, d: nat, lo: Bound, hi: Bound, i: nat, j: nat, ks2: seq<Key>, kids2: seq<Shape>, x: nat)
    requires d > 0 && FormedKids(ks, kids, d, lo, hi) && i < j <= |kids| && x < |Splice(kids, i, j, kids2)|
    requires FormedKids(ks2, kids2, d, Lo(ks, lo, i), Hi(ks, hi, j - 1))
    ensures Formed(Splice(kids, i, j, kids2)[x], d - 1, Lo(Splice(ks, i, j - 1, ks2), lo, x), Hi(Splice(ks, i, j - 1, ks2), hi, x))
  {
    SplicedAt(kids, i, j, kids2, x);
    SplicedBounds(ks, lo, hi, i, j - 1, ks2, x);
    if x < i {
      assert Formed(kids[x], d - 1, Lo(ks, lo, x), Hi(ks, hi, x));
    } else if x < i + |kids2| {
      assert Formed(kids2[x - i], d - 1, Lo(ks2, Lo(ks, lo, i), x - i), Hi(ks2, Hi(ks, hi, j - 1), x - i));
    } else {
      var y := x - |kids2| + j - i;
      assert Formed(kids[y], d - 1, Lo(ks, lo, y), Hi(ks, hi, y));
    }
  }

  /** Children i..j, and the separators between them, give way to others within the same bounds. */
  lemma {:induction false} SpliceFormed(ks: seq<Key>, kids: seq<Shape>, d: nat, lo: Bound, hi: Bound, i: nat, j: nat, ks2: seq<Key>, kids2: seq<Shape>)
    requires d > 0 && FormedKids(ks, kids, d, lo, hi) && i < j <= |kids|
    requires FormedKids(ks2, kids2, d, Lo(ks, lo, i), Hi(ks, hi, j - 1))
    ensures FormedKids(Splice(ks, i, j - 1, ks2), Splice(kids, i, j, kids2), d, lo, hi)
  {
    var ks', kids' := Splice(ks, i, j - 1, ks2), Splice(kids, i, j, kids2);
    SpliceSeparators(ks, lo, hi, i, j - 1, ks2);
    forall x | 0 <= x < |kids'| ensures Formed(kids'[x], d - 1, Lo(ks', lo, x), Hi(ks', hi, x)) {
      SplicedChild(ks, kids, d, lo, hi, i, j, ks2, kids2, x);
    }
  }

  lemma {:induction false} SpliceSeparators(ks: seq<Key>, lo: Bound, hi: Bound, i: nat, j: nat, ks2: seq<Key>)
    requires SeparatorsIn(ks, lo, hi) && i <= j <= |ks| && SeparatorsIn(ks2, Lo(ks, lo, i), Hi(ks, hi, j))
    ensures SeparatorsIn(Splice(ks, i, j, ks2), lo, hi)
  {
    var r := Splice(ks, i, j, ks2);
    forall x | 0 <= x < |r| ensures Inside(lo, r[x], hi) {
      if i <= x < i + |ks2| { assert Inside(Lo(ks, lo, i), ks2[x - i], Hi(ks, hi, j)); }
    }
    forall x, y | 0 <= x < y < |r| ensures r[x] < r[y] {
      if i <= x < i + |ks2| { assert Inside(Lo(ks, lo, i), ks2[x - i], Hi(ks, hi, j)); }
      if i <= y < i + |ks2| { assert Inside(Lo(ks, lo, i), ks2[y - i], Hi(ks, hi, j)); }
    }
  }

  lemma {:induction false} SpliceEntries(kids: seq<Shape>, i: nat, j: nat, mid: seq<Shape>)
    requires i <= j <= |kids|
    ensures EntriesOf(Splice(kids, i, j, mid)) == EntriesOf(kids[..i]) + EntriesOf(mid) + EntriesOf(kids[j..])
  {
    EntriesConcat(kids[..i] + mid, kids[j..]);
    EntriesConcat(kids[..i], mid);
  }

  lemma {:induction false} SpliceLeaves(kids: seq<Shape>, i: nat, j: nat, mid: seq<Shape>, before: seq<Node>, after: seq<Node>)
    requires i <= j <= |kids|
    ensures before + LeavesOf(Splice(kids, i, j, mid)) + after
         == (before + LeavesOf(kids[..i])) + LeavesOf(mid) + (LeavesOf(kids[j..]) + after)
  {
    LeavesConcat(kids[..i] + mid, kids[j..]);
    LeavesConcat(kids[..i], mid);
    Regrouped(before, LeavesOf(kids[..i]), LeavesOf(mid), LeavesOf(kids[j..]), after);
  }

  lemma {:induction false} SpliceNodes(kids: seq<Shape>, i: nat, j: nat, mid: seq<Shape>)
    requires i <= j <= |kids| && DistinctOf(kids[..i]) && DistinctOf(mid) && DistinctOf(kids[j..])
    requires NodesOf(kids[..i]) !! NodesOf(mid) && NodesOf(mid) !! NodesOf(kids[j..]) && NodesOf(kids[..i]) !! NodesOf(kids[j..])
    ensures DistinctOf(Splice(kids, i, j, mid))
    ensures NodesOf(Splice(kids, i, j, mid)) == NodesOf(kids[..i]) + NodesOf(mid) + NodesOf(kids[j..])
    ensures Roots(Splice(kids, i, j, mid)) == Splice(Roots(kids), i, j, Roots(mid))
  {
    NodesConcat(kids[..i] + mid, kids[j..]);
    NodesConcat(kids[..i], mid);
    SpliceRoots(kids, i, j, mid);
  }

  lemma {:induction false} SpliceRoots(kids: seq<Shape>, i: nat, j: nat, mid: seq<Shape>)
    requires i <= j <= |kids|
    ensures Roots(Splice(kids, i, j, mid)) == Splice(Roots(kids), i, j, Roots(mid))
  {
  }

  lemma {:induction false} SpliceHolds(kids: seq<Shape>, i: nat, j: nat, mid: seq<Shape>)
    requires i <= j <= |kids| && HoldsOf(kids[..i]) && HoldsOf(mid) && HoldsOf(kids[j..])
    ensures HoldsOf(Splice(kids, i, j, mid))
  {
    HoldsConcat(kids[..i] + mid, kids[j..]);
    HoldsConcat(kids[..i], mid);
  }

  lemma {:induction false} CutFormed(ks: seq<Key>, kids: seq<Shape>, d: nat, lo: Bound, hi: Bound, m: nat)
    requires d > 0 && FormedKids(ks, kids, d, lo, hi) && m < |ks|
    ensures FormedKids(ks[..m], kids[..m + 1], d, lo, At(ks[m]))
    ensures FormedKids(ks[m + 1..], kids[m + 1..], d, At(ks[m]), hi)
  {
    forall x | 0 <= x < m + 1 ensures Formed(kids[..m + 1][x], d - 1, Lo(ks[..m], lo, x), Hi(ks[..m], At(ks[m]), x)) {
      assert Formed(kids[x], d - 1, Lo(ks, lo, x), Hi(ks, hi, x));
    }
    var ks', kids' := ks[m + 1..], kids[m + 1..];
    forall x | 0 <= x < |kids'| ensures Formed(kids'[x], d - 1, Lo(ks', At(ks[m]), x), Hi(ks', hi, x)) {
      assert Formed(kids[m + 1 + x], d - 1, Lo(ks, lo, m + 1 + x), Hi(ks, hi, m + 1 + x));
    }
  }

  lemma {:induction false} JoinFormed(ks1: seq<Key>, kids1: seq<Shape>, sep: Key, ks2: seq<Key>, kids2: seq<Shape>, d: nat, lo: Bound, hi: Bound)
    requires d > 0 && FormedKids(ks1, kids1, d, lo, At(sep)) && FormedKids(ks2, kids2, d, At(sep), hi)
    requires Inside(lo, sep, hi)
    ensures FormedKids(ks1 + [sep] + ks2, kids1 + kids2, d, lo, hi)
  {
    var ks', kids' := ks1 + [sep] + ks2, kids1 + kids2;
    assert SeparatorsIn(ks', lo, hi);
    forall x | 0 <= x < |kids'| ensures Formed(kids'[x], d - 1, Lo(ks', lo, x), Hi(ks', hi, x)) {
      if x < |kids1| {
        assert Formed(kids1[x], d - 1, Lo(ks1, lo, x), Hi(ks1, At(sep), x));
      } else {
        var y := x - |kids1|;
        assert Formed(kids2[y], d - 1, Lo(ks2, At(sep), y), Hi(ks2, hi, y));
      }
    }
  }

  // ---- the objects -----------------------------------------------------------------------------------------------

  ghost function Nodes(sh: Shape): set<Node> {
    match sh
    case LeafAt(node, _, _) => {node}
    case InnerAt(node, _, kids) => {node} + NodesOf(kids)
  }

  ghost function NodesOf(kids: seq<Shape>): set<Node> {
    if kids == [] then {} else Nodes(kids[0]) + NodesOf(kids[1..])
  }

  lemma {:induction false} NodesAllocated(sh: Shape)
    ensures forall n :: n in Nodes(sh) ==> allocated(n)
    decreases sh
  {
    if sh.InnerAt? { NodesOfAllocated(sh.kids); }
  }

  lemma {:induction false} NodesOfAllocated(kids: seq<Shape>)
    ensures forall n :: n in NodesOf(kids) ==> allocated(n)
    decreases kids
  {
    if kids != [] {
      NodesAllocated(kids[0]);
      NodesOfAllocated(kids[1..]);
    }
  }

  /** No object stands in two places. */
  ghost predicate Distinct(sh: Shape) {
    match sh
    case LeafAt(_, _, _) => true
    case InnerAt(node, _, kids) => node !in NodesOf(kids) && DistinctOf(kids)
  }

  ghost predicate DistinctOf(kids: seq<Shape>) {
    kids != [] ==> Distinct(kids[0]) && Nodes(kids[0]) !! NodesOf(kids[1..]) && DistinctOf(kids[1..])
  }

  lemma {:induction false} NodesConcat(a: seq<Shape>, b: seq<Shape>)
    ensures NodesOf(a + b) == NodesOf(a) + NodesOf(b)
    ensures DistinctOf(a + b) <==> DistinctOf(a) && DistinctOf(b) && NodesOf(a) !! NodesOf(b)
  {
    if a == [] {
      assert a + b == b;
    } else {
      NodesConcat(a[1..], b);
      assert (a + b)[1..] == a[1..] + b;
    }
  }

  function Roots(kids: seq<Shape>): seq<Node> {
    seq(|kids|, i requires 0 <= i < |kids| => kids[i].node)
  }

  /** The objects hold what the picture shows. */
  ghost predicate Holds(sh: Shape)
    reads Nodes(sh)`keys, Nodes(sh)`values, Nodes(sh)`children
  {
    match sh
    case LeafAt(node, ks, vs) => node.leaf && node.keys == ks && node.values == vs
    case InnerAt(node, ks, kids) => !node.leaf && node.keys == ks && node.children == Roots(kids) && HoldsOf(kids)
  }

  ghost predicate HoldsOf(kids: seq<Shape>)
    reads NodesOf(kids)`keys, NodesOf(kids)`values, NodesOf(kids)`children
  {
    kids != [] ==> Holds(kids[0]) && HoldsOf(kids[1..])
  }

  lemma {:induction false} HoldsConcat(a: seq<Shape>, b: seq<Shape>)
    ensures HoldsOf(a + b) <==> HoldsOf(a) && HoldsOf(b)
  {
    if a == [] {
      assert a + b == b;
    } else {
      HoldsConcat(a[1..], b);
      assert (a + b)[1..] == a[1..] + b;
    }
  }

  ghost function NodesIn(ns: seq<Node>): set<Node> { set n | n in ns }

  ghost predicate Joined(ns: seq<Node>, i: nat)
    requires i < |ns|
    reads NodesIn(ns)`next, NodesIn(ns)`prev
  {
    && ns[i].next == (if i + 1 < |ns| then ns[i + 1] else null)
    && ns[i].prev == (if i > 0 then ns[i - 1] else null)
  }

  ghost predicate Differ(ns: seq<Node>, i: nat, j: nat)
    requires i < |ns| && j < |ns|
  {
    ns[i] != ns[j]
  }

  /** The leaves in a row, linked both ways, and nothing beyond its ends. */
  ghost predicate Linked(ns: seq<Node>)
    reads NodesIn(ns)`next, NodesIn(ns)`prev
  {
    && (forall i: nat, j: nat {:trigger Differ(ns, i, j)} :: i < j < |ns| ==> Differ(ns, i, j))
    && (forall i: nat {:trigger Joined(ns, i)} :: i < |ns| ==> Joined(ns, i))
  }

  ghost predicate Outside(ns: seq<Node>, nodes: set<Node>) {
    forall n :: n in ns ==> n !in nodes
  }

  lemma {:induction false} LeavesAreNodes(sh: Shape)
    ensures forall n :: n in Leaves(sh) ==> n in Nodes(sh)
    decreases sh, 0
  {
    if sh.InnerAt? { LeavesOfAreNodes(sh.kids); }
  }

  lemma {:induction false} LeavesOfAreNodes(kids: seq<Shape>)
    ensures forall n :: n in LeavesOf(kids) ==> n in NodesOf(kids)
    decreases kids
  {
    if kids != [] {
      LeavesAreNodes(kids[0]);
      LeavesOfAreNodes(kids[1..]);
    }
  }

  // ---- one or two subtrees, and leaves ---------------------------------------------------------------------------

  lemma {:induction false} Single(x: Shape)
    ensures EntriesOf([x]) == Entries(x) && LeavesOf([x]) == Leaves(x) && NodesOf([x]) == Nodes(x)
    ensures (DistinctOf([x]) <==> Distinct(x)) && (HoldsOf([x]) <==> Holds(x))
  {
  }

  lemma {:induction false} Pair(x: Shape, y: Shape)
    ensures EntriesOf([x, y]) == Entries(x) + Entries(y) && LeavesOf([x, y]) == Leaves(x) + Leaves(y)
    ensures NodesOf([x, y]) == Nodes(x) + Nodes(y)
    ensures DistinctOf([x, y]) <==> Distinct(x) && Distinct(y) && Nodes(x) !! Nodes(y)
    ensures HoldsOf([x, y]) <==> Holds(x) && Holds(y)
  {
    Single(y);
    assert [x, y][1..] == [y];
  }

  lemma {:induction false} SingleFormed(x: Shape, d: nat, lo: Bound, hi: Bound)
    requires Formed(x, d, lo, hi)
    ensures FormedKids([], [x], d + 1, lo, hi)
  {
  }

  lemma {:induction false} PairFormed(x: Shape, sep: Key, y: Shape, d: nat, lo: Bound, hi: Bound)
    requires Formed(x, d, lo, At(sep)) && Formed(y, d, At(sep), hi) && Inside(lo, sep, hi)
    ensures FormedKids([sep], [x, y], d + 1, lo, hi)
  {
  }

  lemma {:induction false} ZipConcat(ks1: seq<Key>, vs1: seq<Item>, ks2: seq<Key>, vs2: seq<Item>)
    requires |ks1| == |vs1| && |ks2| == |vs2|
    ensures Zip(ks1 + ks2, vs1 + vs2) == Zip(ks1, vs1) + Zip(ks2, vs2)
  {
  }

  ghost predicate IsPlace(ks: seq<Key>, key: Key, i: nat) {
    && i <= |ks| && (forall j :: 0 <= j < i ==> ks[j] < key) && (forall j :: i <= j < |ks| ==> key <= ks[j])
  }

  lemma {:induction false} KeysInserted(ks: seq<Key>, lo: Bound, hi: Bound, i: nat, k: Key)
    requires KeysIn(ks, lo, hi) && IsPlace(ks, k, i) && (i < |ks| ==> ks[i] != k) && Above(lo, k) && Below(k, hi)
    ensures KeysIn(ks[..i] + [k] + ks[i..], lo, hi)
  {
    var r := ks[..i] + [k] + ks[i..];
    assert forall x :: 0 <= x < i ==> r[x] == ks[x];
    assert forall x :: i < x < |r| ==> r[x] == ks[x - 1];
  }

  lemma {:induction false} KeysCut(ks1: seq<Key>, ks2: seq<Key>, lo: Bound, hi: Bound)
    requires KeysIn(ks1 + ks2, lo, hi) && ks1 != [] && ks2 != []
    ensures KeysIn(ks1, lo, At(ks2[0])) && KeysIn(ks2, At(ks2[0]), hi) && Inside(lo, ks2[0], hi)
  {
    var ks, n := ks1 + ks2, |ks1|;
    assert forall x :: 0 <= x < n ==> ks1[x] == ks[x];
    assert forall x :: 0 <= x < |ks2| ==> ks2[x] == ks[n + x];
    assert ks1[0] < ks2[0];
  }

  /** A leaf cut in two, with the first key of the right half between them. */
  lemma {:induction false} LeafCut(sh: Shape, l: Shape, r: Shape, lo: Bound, hi: Bound)
    requires sh.LeafAt? && l.LeafAt? && r.LeafAt? && Formed(sh, 0, lo, hi) && sh.keys == l.keys + r.keys && sh.vals == l.vals + r.vals
    requires |l.keys| == |l.vals| > 0 && |r.keys| == |r.vals| > 0 && l.node != r.node
    ensures FormedKids([r.keys[0]], [l, r], 1, lo, hi) && EntriesOf([l, r]) == Entries(sh)
    ensures DistinctOf([l, r]) && LeavesOf([l, r]) == [l.node, r.node] && NodesOf([l, r]) == {l.node, r.node}
  {
    KeysCut(l.keys, r.keys, lo, hi);
    PairFormed(l, r.keys[0], r, 0, lo, hi);
    ZipConcat(l.keys, l.vals, r.keys, r.vals);
    Pair(l, r);
  }

  /** What a leaf's lists become says what its entries become. */
  lemma {:induction false} ZipUpdated(ks: seq<Key>, vs: seq<Item>, i: nat, v: Item)
    requires i < |ks| == |vs| && IsPlace(ks, ks[i], i)
    ensures Put(Zip(ks, vs), ks[i], v) == Zip(ks, vs[i := v]) && Present(Zip(ks, vs), ks[i])
  {
    RankIs(Zip(ks, vs), ks[i], i);
  }

  lemma {:induction false} ZipCut(ks: seq<Key>, vs: seq<Item>, i: nat)
    requires i <= |ks| == |vs|
    ensures Zip(ks[..i], vs[..i]) == Zip(ks, vs)[..i] && Zip(ks[i..], vs[i..]) == Zip(ks, vs)[i..]
  {
  }

  lemma {:induction false} ZipInserted(ks: seq<Key>, vs: seq<Item>, i: nat, k: Key, v: Item)
    requires i <= |ks| == |vs| && IsPlace(ks, k, i) && (i < |ks| ==> ks[i] != k)
    ensures Put(Zip(ks, vs), k, v) == Zip(ks[..i] + [k] + ks[i..], vs[..i] + [v] + vs[i..]) && !Present(Zip(ks, vs), k)
  {
    RankIs(Zip(ks, vs), k, i);
    ZipConcat(ks[..i] + [k], vs[..i] + [v], ks[i..], vs[i..]);
    ZipConcat(ks[..i], vs[..i], [k], [v]);
    ZipCut(ks, vs, i);
  }

  lemma {:induction false} ZipRemoved(ks: seq<Key>, vs: seq<Item>, i: nat)
    requires i < |ks| == |vs| && IsPlace(ks, ks[i], i)
    ensures Without(Zip(ks, vs), ks[i]) == Zip(ks[..i] + ks[i + 1..], vs[..i] + vs[i + 1..]) && Present(Zip(ks, vs), ks[i])
  {
    RankIs(Zip(ks, vs), ks[i], i);
    ZipConcat(ks[..i], vs[..i], ks[i + 1..], vs[i + 1..]);
    ZipCut(ks, vs, i);
    ZipCut(ks, vs, i + 1);
  }

  lemma {:induction false} ZipAbsent(ks: seq<Key>, vs: seq<Item>, i: nat, k: Key)
    requires i <= |ks| == |vs| && IsPlace(ks, k, i) && (i < |ks| ==> ks[i] != k)
    ensures Without(Zip(ks, vs), k) == Zip(ks, vs) && !Present(Zip(ks, vs), k)
  {
    RankIs(Zip(ks, vs), k, i);
  }

  // ---- one subtree in its surroundings -----------------------------------------------------------------------------

  /** Everything about a subtree, with the leaves before and after it. */
  ghost predicate Subtree(sh: Shape, d: nat, lo: Bound, hi: Bound, before: seq<Node>, after: seq<Node>)
    reads Nodes(sh)`keys, Nodes(sh)`values, Nodes(sh)`children
    reads NodesIn(before + Leaves(sh) + after)`next, NodesIn(before + Leaves(sh) + after)`prev
  {
    && Formed(sh, d, lo, hi) && Filled(sh) && Distinct(sh) && Holds(sh)
    && Linked(before + Leaves(sh) + after) && Outside(before + after, Nodes(sh))
  }

  /** What a subtree becomes: itself changed, or two of them with a separator. */
  ghost predicate Subtrees(ks: seq<Key>, kids: seq<Shape>, d: nat, lo: Bound, hi: Bound, before: seq<Node>, after: seq<Node>)
    reads NodesOf(kids)`keys, NodesOf(kids)`values, NodesOf(kids)`children
    reads NodesIn(before + LeavesOf(kids) + after)`next, NodesIn(before + LeavesOf(kids) + after)`prev
  {
    && FormedKids(ks, kids, d + 1, lo, hi) && (forall i :: 0 <= i < |kids| ==> Filled(kids[i])) && DistinctOf(kids) && HoldsOf(kids)
    && Linked(before + LeavesOf(kids) + after) && Outside(before + after, NodesOf(kids))
  }

  lemma {:induction false} SingleSubtree(sh: Shape, d: nat, lo: Bound, hi: Bound, before: seq<Node>, after: seq<Node>)
    requires Subtree(sh, d, lo, hi, before, after)
    ensures Subtrees([], [sh], d, lo, hi, before, after)
    ensures EntriesOf([sh]) == Entries(sh) && LeavesOf([sh]) == Leaves(sh) && NodesOf([sh]) == Nodes(sh)
  {
    Single(sh);
    SingleFormed(sh, d, lo, hi);
  }

  lemma {:induction false} OnlySubtree(ks: seq<Key>, kids: seq<Shape>, d: nat, lo: Bound, hi: Bound, before: seq<Node>, after: seq<Node>)
    requires Subtrees(ks, kids, d, lo, hi, before, after) && |kids| == 1
    ensures Subtree(kids[0], d, lo, hi, before, after)
    ensures EntriesOf(kids) == Entries(kids[0]) && NodesOf(kids) == Nodes(kids[0])
  {
    assert kids == [kids[0]];
    Single(kids[0]);
  }

  lemma {:induction false} LeafHalves(sh: Shape, l: Shape, r: Shape, lo: Bound, hi: Bound, before: seq<Node>, after: seq<Node>)
    requires sh.LeafAt? && l.LeafAt? && r.LeafAt? && Formed(sh, 0, lo, hi) && sh.keys == l.keys + r.keys && sh.vals == l.vals + r.vals
    requires 0 < |l.keys| == |l.vals| <= 2 * ORDER && 0 < |r.keys| == |r.vals| <= 2 * ORDER && l.node != r.node
    requires Holds(l) && Holds(r) && Linked(before + [l.node, r.node] + after) && Outside(before + after, {l.node, r.node})
    ensures Subtrees([r.keys[0]], [l, r], 0, lo, hi, before, after)
    ensures EntriesOf([l, r]) == Entries(sh) && NodesOf([l, r]) == {l.node, r.node}
  {
    LeafCut(sh, l, r, lo, hi);
    Pair(l, r);
  }

  /** The parts of an internal node, seen from child `i`. */
  lemma {:induction false} AtChild(kids: seq<Shape>, i: nat)
    requires i < |kids| && DistinctOf(kids)
    ensures var a, b, c := kids[..i], kids[i], kids[i + 1..];
            && NodesOf(kids) == NodesOf(a) + Nodes(b) + NodesOf(c)
            && NodesOf(a) !! Nodes(b) && NodesOf(a) !! NodesOf(c) && Nodes(b) !! NodesOf(c)
            && DistinctOf(a) && Distinct(b) && DistinctOf(c) && (HoldsOf(kids) <==> HoldsOf(a) && Holds(b) && HoldsOf(c))
  {
    var a, b, c := kids[..i], kids[i], kids[i + 1..];
    assert kids == (a + [b]) + c;
    NodesConcat(a + [b], c);
    NodesConcat(a, [b]);
    HoldsConcat(a + [b], c);
    HoldsConcat(a, [b]);
    assert NodesOf([b]) == Nodes(b) && (DistinctOf([b]) <==> Distinct(b)) && (HoldsOf([b]) <==> Holds(b));
  }

  lemma {:induction false} Regrouped<T>(x: seq<T>, a: seq<T>, b: seq<T>, c: seq<T>, y: seq<T>)
    ensures x + (a + b + c) + y == (x + a) + b + (c + y)
  {
  }

  lemma {:induction false} ChildLeaves(kids: seq<Shape>, i: nat, before: seq<Node>, after: seq<Node>)
    requires i < |kids|
    ensures before + LeavesOf(kids) + after == (before + LeavesOf(kids[..i])) + Leaves(kids[i]) + (LeavesOf(kids[i + 1..]) + after)
  {
    LeavesAt(kids, i);
    Regrouped(before, LeavesOf(kids[..i]), Leaves(kids[i]), LeavesOf(kids[i + 1..]), after);
  }

  lemma {:induction false} ChildOutside(kids: seq<Shape>, i: nat, before: seq<Node>, after: seq<Node>)
    requires i < |kids| && DistinctOf(kids) && Outside(before + after, NodesOf(kids))
    ensures Outside((before + LeavesOf(kids[..i])) + (LeavesOf(kids[i + 1..]) + after), Nodes(kids[i]))
  {
    AtChild(kids, i);
    LeavesOfAreNodes(kids[..i]);
    LeavesOfAreNodes(kids[i + 1..]);
    assert forall n :: n in before || n in after ==> n in before + after;
  }

  lemma {:induction false} ChildSubtree(sh: Shape, d: nat, lo: Bound, hi: Bound, before: seq<Node>, after: seq<Node>, i: nat)
    requires Subtree(sh, d, lo, hi, before, after) && sh.InnerAt? && d > 0 && i < |sh.kids| == |sh.keys| + 1
    ensures Subtree(sh.kids[i], d - 1, Lo(sh.keys, lo, i), Hi(sh.keys, hi, i),
                    before + LeavesOf(sh.kids[..i]), LeavesOf(sh.kids[i + 1..]) + after)
  {
    assert FormedKids(sh.keys, sh.kids, d, lo, hi);
    AtChild(sh.kids, i);
    ChildLeaves(sh.kids, i, before, after);
    ChildOutside(sh.kids, i, before, after);
  }

  /** In an internal node, children i..j have given way to `mid`, with the separators `ms`. */
  ghost predicate IsSpliced(sh: Shape, i: nat, j: nat, ms: seq<Key>, mid: seq<Shape>, sh1: Shape) {
    && sh.InnerAt? && i < j <= |sh.kids| == |sh.keys| + 1
    && sh1 == InnerAt(sh.node, Splice(sh.keys, i, j - 1, ms), Splice(sh.kids, i, j, mid))
  }

  lemma {:induction false} SplicedForm(sh: Shape, d: nat, lo: Bound, hi: Bound, i: nat, j: nat, ms: seq<Key>, mid: seq<Shape>, sh1: Shape)
    requires Formed(sh, d, lo, hi) && IsSpliced(sh, i, j, ms, mid, sh1) && d > 0
    requires FormedKids(ms, mid, d, Lo(sh.keys, lo, i), Hi(sh.keys, hi, j - 1))
    ensures Formed(sh1, d, lo, hi)
    ensures Entries(sh1) == EntriesOf(sh.kids[..i]) + EntriesOf(mid) + EntriesOf(sh.kids[j..])
  {
    assert FormedKids(sh.keys, sh.kids, d, lo, hi);
    SpliceFormed(sh.keys, sh.kids, d, lo, hi, i, j, ms, mid);
    SpliceEntries(sh.kids, i, j, mid);
  }

  ghost predicate WellFilled(kids: seq<Shape>) {
    forall x :: 0 <= x < |kids| ==> |kids[x].keys| >= ORDER && Filled(kids[x])
  }

  lemma {:induction false} FilledParts(sh: Shape, i: nat, j: nat)
    requires sh.InnerAt? && Filled(sh) && i <= j <= |sh.kids|
    ensures WellFilled(sh.kids[..i]) && WellFilled(sh.kids[j..])
  {
  }

  lemma {:induction false} SplicedFirst(sh: Shape, i: nat, j: nat, ms: seq<Key>, mid: seq<Shape>, sh1: Shape)
    requires IsSpliced(sh, i, j, ms, mid, sh1) && mid != [] && (i == 0 ==> First(mid[0]) == First(sh.kids[0]))
    ensures First(sh1) == First(sh)
  {
    assert sh1.kids[0] == if i == 0 then mid[0] else sh.kids[0];
  }

  lemma {:induction false} SplicedFilled(sh: Shape, i: nat, j: nat, ms: seq<Key>, mid: seq<Shape>, sh1: Shape)
    requires IsSpliced(sh, i, j, ms, mid, sh1) && WellFilled(sh.kids[..i]) && WellFilled(mid) && WellFilled(sh.kids[j..])
    ensures Filled(sh1)
  {
    forall x | 0 <= x < |sh1.kids| ensures |sh1.kids[x].keys| >= ORDER && Filled(sh1.kids[x]) {
      if x < i {
        assert sh1.kids[x] == sh.kids[..i][x];
      } else if x < i + |mid| {
        assert sh1.kids[x] == mid[x - i];
      } else {
        assert sh1.kids[x] == sh.kids[j..][x - i - |mid|];
      }
    }
  }

  /** The children of `sh` left of `i` and from `j` on are in order, and `own` nodes are apart from everything else. */
  ghost predicate Flanked(sh: Shape, d: nat, lo: Bound, hi: Bound, i: nat, j: nat, before: seq<Node>, after: seq<Node>, own: set<Node>)
    requires sh.InnerAt? && i <= j <= |sh.kids|
    reads NodesOf(sh.kids[..i])`keys, NodesOf(sh.kids[..i])`values, NodesOf(sh.kids[..i])`children
    reads NodesOf(sh.kids[j..])`keys, NodesOf(sh.kids[j..])`values, NodesOf(sh.kids[j..])`children
  {
    && Formed(sh, d, lo, hi) && Distinct(sh)
    && WellFilled(sh.kids[..i]) && WellFilled(sh.kids[j..]) && HoldsOf(sh.kids[..i]) && HoldsOf(sh.kids[j..])
    && NodesOf(sh.kids[..i]) !! own && NodesOf(sh.kids[j..]) !! own && sh.node !in own && Outside(before + after, Nodes(sh) + own)
  }

  /** Subtrees `mid` stand ready to take the place of children i..j of `sh`, whose own object is still to be changed. */
  ghost predicate Placed(sh: Shape, d: nat, lo: Bound, hi: Bound, i: nat, j: nat, ms: seq<Key>, mid: seq<Shape>,
                         before: seq<Node>, after: seq<Node>)
    requires sh.InnerAt? && i < j <= |sh.kids| == |sh.keys| + 1 && d > 0
    reads NodesOf(sh.kids[..i])`keys, NodesOf(sh.kids[..i])`values, NodesOf(sh.kids[..i])`children
    reads NodesOf(sh.kids[j..])`keys, NodesOf(sh.kids[j..])`values, NodesOf(sh.kids[j..])`children
    reads NodesOf(mid)`keys, NodesOf(mid)`values, NodesOf(mid)`children
    reads NodesIn((before + LeavesOf(sh.kids[..i])) + LeavesOf(mid) + (LeavesOf(sh.kids[j..]) + after))`next
    reads NodesIn((before + LeavesOf(sh.kids[..i])) + LeavesOf(mid) + (LeavesOf(sh.kids[j..]) + after))`prev
  {
    && Flanked(sh, d, lo, hi, i, j, before, after, NodesOf(mid))
    && Subtrees(ms, mid, d - 1, Lo(sh.keys, lo, i), Hi(sh.keys, hi, j - 1),
                before + LeavesOf(sh.kids[..i]), LeavesOf(sh.kids[j..]) + after)
  }

  lemma {:induction false} NodeParts(kids: seq<Shape>, i: nat, j: nat)
    requires i <= j <= |kids|
    ensures NodesOf(kids) == NodesOf(kids[..i]) + NodesOf(kids[i..j]) + NodesOf(kids[j..])
    ensures DistinctOf(kids) ==> DistinctOf(kids[..i]) && DistinctOf(kids[i..j]) && DistinctOf(kids[j..])
                                 && NodesOf(kids[..i]) !! NodesOf(kids[j..]) && NodesOf(kids[..i]) !! NodesOf(kids[i..j])
                                 && NodesOf(kids[i..j]) !! NodesOf(kids[j..])
  {
    assert kids == kids[..i] + kids[i..] && kids[i..] == kids[i..j] + kids[j..];
    NodesConcat(kids[..i], kids[i..]);
    NodesConcat(kids[i..j], kids[j..]);
  }

  lemma {:induction false} PartNodes(kids: seq<Shape>, i: nat, j: nat)
    requires i <= j <= |kids|
    ensures NodesOf(kids[..i]) <= NodesOf(kids) && NodesOf(kids[j..]) <= NodesOf(kids)
  {
    NodeParts(kids, i, j);
  }

  lemma {:induction false} SplicedNodes(sh: Shape, i: nat, j: nat, ms: seq<Key>, mid: seq<Shape>, sh1: Shape)
    requires IsSpliced(sh, i, j, ms, mid, sh1) && Distinct(sh) && DistinctOf(mid)
    requires NodesOf(sh.kids[..i]) !! NodesOf(mid) && NodesOf(sh.kids[j..]) !! NodesOf(mid) && sh.node !in NodesOf(mid)
    ensures Distinct(sh1) && Nodes(sh1) == {sh.node} + NodesOf(sh.kids[..i]) + NodesOf(mid) + NodesOf(sh.kids[j..])
    ensures Roots(sh1.kids) == Splice(Roots(sh.kids), i, j, Roots(mid))
  {
    NodeParts(sh.kids, i, j);
    SpliceNodes(sh.kids, i, j, mid);
  }

  lemma {:induction false} SplicedSubtree(sh: Shape, d: nat, lo: Bound, hi: Bound, i: nat, j: nat, ms: seq<Key>, mid: seq<Shape>, sh1: Shape,
                       before: seq<Node>, after: seq<Node>)
    requires IsSpliced(sh, i, j, ms, mid, sh1) && d > 0 && Placed(sh, d, lo, hi, i, j, ms, mid, before, after) && WellFilled(mid)
    requires !sh.node.leaf && sh.node.keys == sh1.keys && sh.node.children == Splice(Roots(sh.kids), i, j, Roots(mid))
    ensures Subtree(sh1, d, lo, hi, before, after)
    ensures Entries(sh1) == EntriesOf(sh.kids[..i]) + EntriesOf(mid) + EntriesOf(sh.kids[j..])
    ensures Nodes(sh1) == {sh.node} + NodesOf(sh.kids[..i]) + NodesOf(mid) + NodesOf(sh.kids[j..])
  {
    SplicedForm(sh, d, lo, hi, i, j, ms, mid, sh1);
    SplicedFilled(sh, i, j, ms, mid, sh1);
    SplicedNodes(sh, i, j, ms, mid, sh1);
    SpliceHolds(sh.kids, i, j, mid);
    SpliceLeaves(sh.kids, i, j, mid, before, after);
    NodeParts(sh.kids, i, j);
  }

  lemma {:induction false} RootsKept(kids: seq<Shape>, i: nat, x: Shape)
    requires i < |kids| && x.node == kids[i].node
    ensures Splice(Roots(kids), i, i + 1, Roots([x])) == Roots(kids)
  {
  }

  lemma {:induction false} RootsPairKept(kids: seq<Shape>, p: nat, x: Shape, y: Shape)
    requires p + 1 < |kids| && x.node == kids[p].node && y.node == kids[p + 1].node
    ensures Splice(Roots(kids), p, p + 2, Roots([x, y])) == Roots(kids)
  {
  }

  lemma {:induction false} RootsDropped(kids: seq<Shape>, p: nat, x: Shape)
    requires p + 1 < |kids| && x.node == kids[p].node
    ensures Splice(Roots(kids), p, p + 2, Roots([x])) == Roots(kids)[..p + 1] + Roots(kids)[p + 2..]
  {
  }

  /** The object of a changed child is still in its place: its parent has nothing to write. */
  lemma {:induction false} KeptSubtree(sh: Shape, d: nat, lo: Bound, hi: Bound, i: nat, kid: Shape, sh1: Shape, before: seq<Node>, after: seq<Node>)
    requires IsSpliced(sh, i, i + 1, [], [kid], sh1) && d > 0 && Placed(sh, d, lo, hi, i, i + 1, [], [kid], before, after)
    requires WellFilled([kid]) && kid.node == sh.kids[i].node
    requires !sh.node.leaf && sh.node.keys == sh.keys && sh.node.children == Roots(sh.kids)
    ensures Subtree(sh1, d, lo, hi, before, after)
    ensures Entries(sh1) == EntriesOf(sh.kids[..i]) + EntriesOf([kid]) + EntriesOf(sh.kids[i + 1..])
    ensures Nodes(sh1) == {sh.node} + NodesOf(sh.kids[..i]) + NodesOf([kid]) + NodesOf(sh.kids[i + 1..])
  {
    RootsKept(sh.kids, i, kid);
    SplicedSubtree(sh, d, lo, hi, i, i + 1, [], [kid], sh1, before, after);
  }

  lemma {:induction false} RootsPair(x: Shape, y: Shape)
    ensures Roots([x, y]) == [x.node, y.node]
  {
  }

  /** An internal node cut at separator `m`, which moves up. */
  lemma {:induction false} InnerHalves(sh: Shape, d: nat, lo: Bound, hi: Bound, before: seq<Node>, after: seq<Node>, m: nat, l: Shape, r: Shape)
    requires sh.InnerAt? && d > 0 && Formed(sh, d, lo, hi) && Filled(sh) && Distinct(sh) && m < |sh.keys| && HoldsOf(sh.kids)
    requires |sh.kids| == |sh.keys| + 1 && l == InnerAt(sh.node, sh.keys[..m], sh.kids[..m + 1])
    requires r.InnerAt? && r == InnerAt(r.node, sh.keys[m + 1..], sh.kids[m + 1..]) && r.node !in Nodes(sh)
    requires !l.node.leaf && l.node.keys == l.keys && l.node.children == Roots(l.kids)
    requires !r.node.leaf && r.node.keys == r.keys && r.node.children == Roots(r.kids)
    requires Linked(before + Leaves(sh) + after) && Outside(before + after, Nodes(sh) + {r.node})
    ensures Subtrees([sh.keys[m]], [l, r], d, lo, hi, before, after)
    ensures EntriesOf([l, r]) == Entries(sh) && NodesOf([l, r]) == Nodes(sh) + {r.node}
  {
    var a, c := sh.kids[..m + 1], sh.kids[m + 1..];
    Seqs.Cut(sh.kids, m + 1);
    assert FormedKids(sh.keys, sh.kids, d, lo, hi);
    CutFormed(sh.keys, sh.kids, d, lo, hi, m);
    PairFormed(l, sh.keys[m], r, d, lo, hi);
    EntriesConcat(a, c);
    LeavesConcat(a, c);
    NodesConcat(a, c);
    HoldsConcat(a, c);
    Pair(l, r);
  }

  lemma {:induction false} RowAllocated(ns: seq<Node>)
    ensures forall n :: n in NodesIn(ns) ==> allocated(n)
  {
  }

  lemma {:induction false} SubtreeAllocated(sh: Shape, before: seq<Node>, after: seq<Node>)
    ensures forall n :: n in Nodes(sh) ==> allocated(n)
    ensures forall n :: n in NodesIn(before + Leaves(sh) + after) ==> allocated(n)
  {
    NodesAllocated(sh);
    LeavesAreNodes(sh);
  }

  lemma {:induction false} SubtreesAllocated(kids: seq<Shape>, before: seq<Node>, after: seq<Node>)
    ensures forall n :: n in NodesOf(kids) ==> allocated(n)
    ensures forall n :: n in NodesIn(before + LeavesOf(kids) + after) ==> allocated(n)
  {
    NodesOfAllocated(kids);
    LeavesOfAreNodes(kids);
  }

  datatype Split = NoSplit | SplitAt(key: Key, left: Node, right: Node)

  /** The subtree is still one, with no fewer keys, or has become two that are filled well. */
  ghost predicate Became(sh: Shape, split: Split, ks2: seq<Key>, kids2: seq<Shape>) {
    && kids2 != [] && kids2[0].node == sh.node && First(kids2[0]) == First(sh)
    && match split
       case NoSplit => |kids2| == 1 && |kids2[0].keys| >= |sh.keys|
       case SplitAt(sep, left, right) =>
         |kids2| == 2 && ks2 == [sep] && left == kids2[0].node && right == kids2[1].node
         && |kids2[0].keys| >= ORDER && |kids2[1].keys| >= ORDER
  }

  /** Child `i` has been changed into `mid`, using its own nodes and new ones. */
  lemma {:induction false} ChildPlaced(sh: Shape, d: nat, lo: Bound, hi: Bound, i: nat, ms: seq<Key>, mid: seq<Shape>, before: seq<Node>, after: seq<Node>)
    requires sh.InnerAt? && i < |sh.kids| == |sh.keys| + 1 && d > 0 && Formed(sh, d, lo, hi) && Filled(sh) && Distinct(sh)
    requires Subtrees(ms, mid, d - 1, Lo(sh.keys, lo, i), Hi(sh.keys, hi, i),
                      before + LeavesOf(sh.kids[..i]), LeavesOf(sh.kids[i + 1..]) + after)
    requires HoldsOf(sh.kids[..i]) && HoldsOf(sh.kids[i + 1..])
    requires (NodesOf(mid) - Nodes(sh.kids[i])) !! Nodes(sh) && Outside(before + after, Nodes(sh))
    ensures Placed(sh, d, lo, hi, i, i + 1, ms, mid, before, after)
  {
    AtChild(sh.kids, i);
    FilledParts(sh, i, i + 1);
    assert forall n :: n in before || n in after ==> n in (before + LeavesOf(sh.kids[..i])) + (LeavesOf(sh.kids[i + 1..]) + after);
    assert forall n :: n in before + after ==> n in before || n in after;
  }

  lemma {:induction false} BecameFilled(sh: Shape, i: nat, split: Split, ms: seq<Key>, mid: seq<Shape>)
    requires sh.InnerAt? && i < |sh.kids| && Filled(sh) && Became(sh.kids[i], split, ms, mid)
    requires forall x :: 0 <= x < |mid| ==> Filled(mid[x])
    ensures WellFilled(mid)
  {
  }

  lemma {:induction false} ChildPut(sh: Shape, d: nat, lo: Bound, hi: Bound, i: nat, key: Key, value: Item)
    requires sh.InnerAt? && d > 0 && i < |sh.kids| == |sh.keys| + 1 && Formed(sh, d, lo, hi)
    requires Above(Lo(sh.keys, lo, i), key) && Below(key, Hi(sh.keys, hi, i))
    ensures Put(Entries(sh), key, value) == EntriesOf(sh.kids[..i]) + Put(Entries(sh.kids[i]), key, value) + EntriesOf(sh.kids[i + 1..])
    ensures Present(Entries(sh), key) <==> Present(Entries(sh.kids[i]), key)
  {
    assert FormedKids(sh.keys, sh.kids, d, lo, hi);
    ChildAround(sh.keys, sh.kids, d, lo, hi, i, key);
    MiddlePut(EntriesOf(sh.kids[..i]), Entries(sh.kids[i]), EntriesOf(sh.kids[i + 1..]), key, value);
    MiddleRank(EntriesOf(sh.kids[..i]), Entries(sh.kids[i]), EntriesOf(sh.kids[i + 1..]), key);
  }

  lemma {:induction false} ChildWithout(sh: Shape, d: nat, lo: Bound, hi: Bound, i: nat, key: Key)
    requires sh.InnerAt? && d > 0 && i < |sh.kids| == |sh.keys| + 1 && Formed(sh, d, lo, hi)
    requires Above(Lo(sh.keys, lo, i), key) && Below(key, Hi(sh.keys, hi, i))
    ensures Without(Entries(sh), key) == EntriesOf(sh.kids[..i]) + Without(Entries(sh.kids[i]), key) + EntriesOf(sh.kids[i + 1..])
    ensures Present(Entries(sh), key) <==> Present(Entries(sh.kids[i]), key)
  {
    assert FormedKids(sh.keys, sh.kids, d, lo, hi);
    ChildAround(sh.keys, sh.kids, d, lo, hi, i, key);
    MiddleWithout(EntriesOf(sh.kids[..i]), Entries(sh.kids[i]), EntriesOf(sh.kids[i + 1..]), key);
    MiddleRank(EntriesOf(sh.kids[..i]), Entries(sh.kids[i]), EntriesOf(sh.kids[i + 1..]), key);
  }

  // ---- a child and its neighbour ------------------------------------------------------------------------------

  lemma {:induction false} FlankedOutside(sh: Shape, d: nat, lo: Bound, hi: Bound, i: nat, j: nat, before: seq<Node>, after: seq<Node>, own: set<Node>)
    requires sh.InnerAt? && i <= j <= |sh.kids| && Flanked(sh, d, lo, hi, i, j, before, after, own)
    ensures Outside((before + LeavesOf(sh.kids[..i])) + (LeavesOf(sh.kids[j..]) + after), own)
  {
    LeavesOfAreNodes(sh.kids[..i]);
    LeavesOfAreNodes(sh.kids[j..]);
    assert forall n :: n in before || n in after ==> n in before + after;
  }

  lemma {:induction false} FlankedRight(sh: Shape, d: nat, lo: Bound, hi: Bound, i: nat, before: seq<Node>, after: seq<Node>, own: set<Node>)
    requires sh.InnerAt? && i + 1 < |sh.kids| && Flanked(sh, d, lo, hi, i, i + 1, before, after, own)
    ensures Flanked(sh, d, lo, hi, i, i + 2, before, after, own + Nodes(sh.kids[i + 1]))
    ensures Holds(sh.kids[i + 1]) && Distinct(sh.kids[i + 1]) && Nodes(sh.kids[i + 1]) !! own
  {
    var y, c, c' := sh.kids[i + 1], sh.kids[i + 1..], sh.kids[i + 2..];
    assert c[0] == y && c[1..] == c';
    assert forall x :: 0 <= x < |c'| ==> c'[x] == c[x + 1];
    NodeParts(sh.kids, i, i + 1);
  }

  lemma {:induction false} FlankedLeft(sh: Shape, d: nat, lo: Bound, hi: Bound, i: nat, before: seq<Node>, after: seq<Node>, own: set<Node>)
    requires sh.InnerAt? && 0 < i < |sh.kids| && Flanked(sh, d, lo, hi, i, i + 1, before, after, own)
    ensures Flanked(sh, d, lo, hi, i - 1, i + 1, before, after, Nodes(sh.kids[i - 1]) + own)
    ensures Holds(sh.kids[i - 1]) && Distinct(sh.kids[i - 1]) && Nodes(sh.kids[i - 1]) !! own
  {
    var x, a, a' := sh.kids[i - 1], sh.kids[..i], sh.kids[..i - 1];
    assert a == a' + [x];
    NodesConcat(a', [x]);
    HoldsConcat(a', [x]);
    Single(x);
    NodeParts(sh.kids, i, i + 1);
  }

  /** Two neighbours, seen as a pair, and the row of leaves around them. */
  lemma {:induction false} PairPlaced(sh: Shape, d: nat, lo: Bound, hi: Bound, p: nat, x: Shape, y: Shape, before: seq<Node>, after: seq<Node>)
    requires sh.InnerAt? && p + 1 < |sh.kids| == |sh.keys| + 1 && d > 0
    requires Flanked(sh, d, lo, hi, p, p + 2, before, after, Nodes(x) + Nodes(y))
    requires Formed(x, d - 1, Lo(sh.keys, lo, p), At(sh.keys[p])) && Formed(y, d - 1, At(sh.keys[p]), Hi(sh.keys, hi, p + 1))
    requires Filled(x) && Filled(y) && Holds(x) && Holds(y) && Distinct(x) && Distinct(y) && Nodes(x) !! Nodes(y)
    requires Linked((before + LeavesOf(sh.kids[..p])) + (Leaves(x) + Leaves(y)) + (LeavesOf(sh.kids[p + 2..]) + after))
    ensures Placed(sh, d, lo, hi, p, p + 2, [sh.keys[p]], [x, y], before, after)
  {
    assert FormedKids(sh.keys, sh.kids, d, lo, hi);
    PairFormed(x, sh.keys[p], y, d - 1, Lo(sh.keys, lo, p), Hi(sh.keys, hi, p + 1));
    Pair(x, y);
    FlankedOutside(sh, d, lo, hi, p, p + 2, before, after, Nodes(x) + Nodes(y));
  }

  /** A child that stands ready in its place, and its right neighbour, stand ready in theirs. */
  lemma {:induction false} WithRight(sh: Shape, d: nat, lo: Bound, hi: Bound, i: nat, kid: Shape, before: seq<Node>, after: seq<Node>)
    requires sh.InnerAt? && i + 1 < |sh.kids| == |sh.keys| + 1 && d > 0 && Placed(sh, d, lo, hi, i, i + 1, [], [kid], before, after)
    ensures Placed(sh, d, lo, hi, i, i + 2, [sh.keys[i]], [kid, sh.kids[i + 1]], before, after)
  {
    var y, c, c' := sh.kids[i + 1], sh.kids[i + 1..], sh.kids[i + 2..];
    OnlySubtree([], [kid], d - 1, Lo(sh.keys, lo, i), Hi(sh.keys, hi, i), before + LeavesOf(sh.kids[..i]), LeavesOf(c) + after);
    FlankedRight(sh, d, lo, hi, i, before, after, Nodes(kid));
    assert FormedKids(sh.keys, sh.kids, d, lo, hi);
    assert c[0] == y && c[1..] == c';
    RowRight(before + LeavesOf(sh.kids[..i]), Leaves(kid), Leaves(y), LeavesOf(c'), after);
    PairPlaced(sh, d, lo, hi, i, kid, y, before, after);
  }

  lemma {:induction false} WithLeft(sh: Shape, d: nat, lo: Bound, hi: Bound, i: nat, kid: Shape, before: seq<Node>, after: seq<Node>)
    requires sh.InnerAt? && 0 < i < |sh.kids| == |sh.keys| + 1 && d > 0 && Placed(sh, d, lo, hi, i, i + 1, [], [kid], before, after)
    ensures Placed(sh, d, lo, hi, i - 1, i + 1, [sh.keys[i - 1]], [sh.kids[i - 1], kid], before, after)
  {
    var x, a, a' := sh.kids[i - 1], sh.kids[..i], sh.kids[..i - 1];
    OnlySubtree([], [kid], d - 1, Lo(sh.keys, lo, i), Hi(sh.keys, hi, i), before + LeavesOf(a), LeavesOf(sh.kids[i + 1..]) + after);
    FlankedLeft(sh, d, lo, hi, i, before, after, Nodes(kid));
    assert FormedKids(sh.keys, sh.kids, d, lo, hi);
    assert a == a' + [x];
    LeavesConcat(a', [x]);
    Single(x);
    RowLeft(before, LeavesOf(a'), Leaves(x), Leaves(kid), LeavesOf(sh.kids[i + 1..]) + after);
    assert a[i - 1] == x;
    PairPlaced(sh, d, lo, hi, i - 1, x, kid, before, after);
  }

  lemma {:induction false} RowRight(x: seq<Node>, k: seq<Node>, y: seq<Node>, c: seq<Node>, after: seq<Node>)
    ensures x + k + ((y + c) + after) == x + (k + y) + (c + after)
  {
  }

  lemma {:induction false} RowLeft(before: seq<Node>, a: seq<Node>, x: seq<Node>, k: seq<Node>, rest: seq<Node>)
    ensures (before + (a + x)) + k + rest == (before + a) + (x + k) + rest
  {
  }

  /** The parts of a pair. */
  lemma {:induction false} OfPair(x: Shape, sep: Key, y: Shape, d: nat, lo: Bound, hi: Bound, before: seq<Node>, after: seq<Node>)
    requires Subtrees([sep], [x, y], d, lo, hi, before, after)
    ensures Formed(x, d, lo, At(sep)) && Formed(y, d, At(sep), hi) && Inside(lo, sep, hi)
    ensures Filled(x) && Filled(y) && Holds(x) && Holds(y) && Distinct(x) && Distinct(y) && Nodes(x) !! Nodes(y)
    ensures Linked(before + (Leaves(x) + Leaves(y)) + after) && Outside(before + after, Nodes(x) + Nodes(y))
    ensures NodesOf([x, y]) == Nodes(x) + Nodes(y) && EntriesOf([x, y]) == Entries(x) + Entries(y)
  {
    Pair(x, y);
    assert [x, y][0] == x && [x, y][1] == y && [sep][0] == sep;
    assert Lo([sep], lo, 1) == At(sep) && Hi([sep], hi, 0) == At(sep);
  }

  lemma {:induction false} LeafJoin(x: Shape, sep: Key, y: Shape, lo: Bound, hi: Bound, whole: Shape)
    requires x.LeafAt? && y.LeafAt? && Formed(x, 0, lo, At(sep)) && Formed(y, 0, At(sep), hi) && Inside(lo, sep, hi)
    requires whole == LeafAt(x.node, x.keys + y.keys, x.vals + y.vals)
    ensures Formed(whole, 0, lo, hi) && Entries(whole) == Entries(x) + Entries(y)
  {
    ZipConcat(x.keys, x.vals, y.keys, y.vals);
    KeysJoin(x.keys, sep, y.keys, lo, hi);
  }

  lemma {:induction false} KeysJoin(ks1: seq<Key>, sep: Key, ks2: seq<Key>, lo: Bound, hi: Bound)
    requires KeysIn(ks1, lo, At(sep)) && KeysIn(ks2, At(sep), hi) && Inside(lo, sep, hi)
    ensures KeysIn(ks1 + ks2, lo, hi)
  {
    var ks, n := ks1 + ks2, |ks1|;
    assert forall x :: 0 <= x < n ==> ks[x] == ks1[x];
    assert forall x :: n <= x < |ks| ==> ks[x] == ks2[x - n];
  }

  /** A pair of leaves keeps its entries when the cut between them moves. */
  lemma {:induction false} LeafShift(x: Shape, sep: Key, y: Shape, lo: Bound, hi: Bound, before: seq<Node>, after: seq<Node>, x1: Shape, y1: Shape)
    requires x.LeafAt? && y.LeafAt? && Formed(x, 0, lo, At(sep)) && Formed(y, 0, At(sep), hi) && Inside(lo, sep, hi)
    requires x1.LeafAt? && y1.LeafAt? && x1.node == x.node && y1.node == y.node && x.node != y.node
    requires x1.keys + y1.keys == x.keys + y.keys && x1.vals + y1.vals == x.vals + y.vals
    requires ORDER <= |x1.keys| == |x1.vals| <= 2 * ORDER && ORDER <= |y1.keys| == |y1.vals| <= 2 * ORDER
    requires Holds(x1) && Holds(y1) && Linked(before + [x.node, y.node] + after) && Outside(before + after, {x.node, y.node})
    ensures Subtrees([y1.keys[0]], [x1, y1], 0, lo, hi, before, after) && WellFilled([x1, y1])
    ensures EntriesOf([x1, y1]) == Entries(x) + Entries(y) && NodesOf([x1, y1]) == {x.node, y.node}
  {
    var whole := LeafAt(x.node, x.keys + y.keys, x.vals + y.vals);
    LeafJoin(x, sep, y, lo, hi, whole);
    LeafHalves(whole, x1, y1, lo, hi, before, after);
  }

  /** Two internal nodes joined around their separator. */
  lemma {:induction false} InnerJoin(x: Shape, sep: Key, y: Shape, d: nat, lo: Bound, hi: Bound, whole: Shape)
    requires x.InnerAt? && y.InnerAt? && Formed(x, d, lo, At(sep)) && Formed(y, d, At(sep), hi) && Inside(lo, sep, hi) && d > 0
    requires whole == InnerAt(x.node, x.keys + [sep] + y.keys, x.kids + y.kids)
    ensures Formed(whole, d, lo, hi) && Entries(whole) == Entries(x) + Entries(y) && Leaves(whole) == Leaves(x) + Leaves(y)
    ensures Filled(x) && Filled(y) ==> Filled(whole)
    ensures Distinct(x) && Distinct(y) && Nodes(x) !! Nodes(y) ==> Distinct(whole)
    ensures Nodes(whole) == {x.node} + NodesOf(x.kids) + NodesOf(y.kids)
    ensures HoldsOf(x.kids) && HoldsOf(y.kids) ==> HoldsOf(whole.kids)
    ensures Roots(whole.kids) == Roots(x.kids) + Roots(y.kids)
  {
    assert FormedKids(x.keys, x.kids, d, lo, At(sep)) && FormedKids(y.keys, y.kids, d, At(sep), hi);
    JoinFormed(x.keys, x.kids, sep, y.keys, y.kids, d, lo, hi);
    EntriesConcat(x.kids, y.kids);
    LeavesConcat(x.kids, y.kids);
    NodesConcat(x.kids, y.kids);
    HoldsConcat(x.kids, y.kids);
  }

  /** The pair gives way to subtrees made of its nodes. */
  lemma {:induction false} PairReplaced(sh: Shape, d: nat, lo: Bound, hi: Bound, p: nat, pair: seq<Shape>, ms: seq<Key>, mid: seq<Shape>,
                     before: seq<Node>, after: seq<Node>)
    requires sh.InnerAt? && p + 1 < |sh.kids| == |sh.keys| + 1 && d > 0
    requires Flanked(sh, d, lo, hi, p, p + 2, before, after, NodesOf(pair)) && NodesOf(mid) <= NodesOf(pair)
    requires Subtrees(ms, mid, d - 1, Lo(sh.keys, lo, p), Hi(sh.keys, hi, p + 1),
                      before + LeavesOf(sh.kids[..p]), LeavesOf(sh.kids[p + 2..]) + after)
    ensures Placed(sh, d, lo, hi, p, p + 2, ms, mid, before, after)
  {
  }

  lemma {:induction false} RightPairEntries(kids: seq<Shape>, i: nat, kid: Shape)
    requires i + 1 < |kids|
    ensures EntriesOf(kids[..i]) + EntriesOf([kid, kids[i + 1]]) + EntriesOf(kids[i + 2..])
         == EntriesOf(kids[..i]) + Entries(kid) + EntriesOf(kids[i + 1..])
  {
    assert kids[i + 1..][0] == kids[i + 1] && kids[i + 1..][1..] == kids[i + 2..];
    Pair(kid, kids[i + 1]);
    Reassociate(EntriesOf(kids[..i]), Entries(kid), Entries(kids[i + 1]), EntriesOf(kids[i + 2..]));
  }

  lemma {:induction false} LeftPairEntries(kids: seq<Shape>, i: nat, kid: Shape)
    requires 0 < i < |kids|
    ensures EntriesOf(kids[..i - 1]) + EntriesOf([kids[i - 1], kid]) + EntriesOf(kids[i + 1..])
         == EntriesOf(kids[..i]) + Entries(kid) + EntriesOf(kids[i + 1..])
  {
    assert kids[..i] == kids[..i - 1] + [kids[i - 1]];
    EntriesConcat(kids[..i - 1], [kids[i - 1]]);
    Single(kids[i - 1]);
    Pair(kids[i - 1], kid);
    Reassociate(EntriesOf(kids[..i - 1]), Entries(kids[i - 1]), Entries(kid), EntriesOf(kids[i + 1..]));
  }

  lemma {:induction false} Reassociate(a: seq<Entry>, x: seq<Entry>, y: seq<Entry>, c: seq<Entry>)
    ensures a + (x + y) + c == a + x + (y + c) && a + (x + y) + c == (a + x) + y + c
  {
  }

  lemma {:induction false} KidNodes(sh: Shape, i: nat)
    requires sh.InnerAt? && i < |sh.kids|
    ensures sh.kids[i].node in Nodes(sh.kids[i]) && Nodes(sh.kids[i]) <= NodesOf(sh.kids) <= Nodes(sh)
  {
    var rest := sh.kids[i..];
    assert sh.kids == sh.kids[..i] + rest && rest[0] == sh.kids[i];
    NodesConcat(sh.kids[..i], rest);
  }

  /** Child `i` has become `kid`, which has lost one key too many. */
  ghost predicate Underfull(sh: Shape, d: nat, lo: Bound, hi: Bound, i: nat, kid: Shape, before: seq<Node>, after: seq<Node>)
    requires sh.InnerAt? && i < |sh.kids| == |sh.keys| + 1 && d > 0
    reads sh.node, NodesOf(sh.kids[..i])`keys, NodesOf(sh.kids[..i])`values, NodesOf(sh.kids[..i])`children
    reads NodesOf(sh.kids[i + 1..])`keys, NodesOf(sh.kids[i + 1..])`values, NodesOf(sh.kids[i + 1..])`children
    reads NodesOf([kid])`keys, NodesOf([kid])`values, NodesOf([kid])`children
    reads NodesIn((before + LeavesOf(sh.kids[..i])) + LeavesOf([kid]) + (LeavesOf(sh.kids[i + 1..]) + after))`next
    reads NodesIn((before + LeavesOf(sh.kids[..i])) + LeavesOf([kid]) + (LeavesOf(sh.kids[i + 1..]) + after))`prev
  {
    && Placed(sh, d, lo, hi, i, i + 1, [], [kid], before, after) && sh.keys != []
    && kid.node == sh.kids[i].node && Nodes(kid) <= Nodes(sh.kids[i]) && First(kid) == First(sh.kids[i]) && |kid.keys| == ORDER - 1
    && !sh.node.leaf && sh.node.keys == sh.keys && sh.node.children == Roots(sh.kids)
  }

  /** With child `i` become `kid`, the internal node `sh` is now `sh1`, well filled below. */
  ghost predicate Mended(sh: Shape, d: nat, lo: Bound, hi: Bound, i: nat, kid: Shape, before: seq<Node>, after: seq<Node>, sh1: Shape)
    requires sh.InnerAt? && i < |sh.kids|
    reads Nodes(sh1)`keys, Nodes(sh1)`values, Nodes(sh1)`children
    reads NodesIn(before + Leaves(sh1) + after)`next, NodesIn(before + Leaves(sh1) + after)`prev
  {
    && sh1.InnerAt? && sh1.node == sh.node && Subtree(sh1, d, lo, hi, before, after) && |sh1.keys| >= |sh.keys| - 1
    && Entries(sh1) == EntriesOf(sh.kids[..i]) + Entries(kid) + EntriesOf(sh.kids[i + 1..])
    && Nodes(sh1) <= Nodes(sh) && First(sh1) == First(sh)
  }

  /** What can be said of an underfull child together with its right neighbour. */
  lemma {:induction false} RightPair(sh: Shape, d: nat, lo: Bound, hi: Bound, i: nat, kid: Shape, before: seq<Node>, after: seq<Node>)
    requires sh.InnerAt? && i + 1 < |sh.kids| == |sh.keys| + 1 && d > 0 && Underfull(sh, d, lo, hi, i, kid, before, after)
    ensures Placed(sh, d, lo, hi, i, i + 2, [sh.keys[i]], [kid, sh.kids[i + 1]], before, after)
    ensures NodesOf([kid, sh.kids[i + 1]]) == Nodes(kid) + Nodes(sh.kids[i + 1]) <= Nodes(sh)
    ensures kid.node in Nodes(kid) && sh.kids[i + 1].node in Nodes(sh.kids[i + 1])
  {
    WithRight(sh, d, lo, hi, i, kid, before, after);
    KidNodes(sh, i);
    KidNodes(sh, i + 1);
    Pair(kid, sh.kids[i + 1]);
  }

  lemma {:induction false} LeftPair(sh: Shape, d: nat, lo: Bound, hi: Bound, i: nat, kid: Shape, before: seq<Node>, after: seq<Node>)
    requires sh.InnerAt? && 0 < i < |sh.kids| == |sh.keys| + 1 && d > 0 && Underfull(sh, d, lo, hi, i, kid, before, after)
    ensures Placed(sh, d, lo, hi, i - 1, i + 1, [sh.keys[i - 1]], [sh.kids[i - 1], kid], before, after)
    ensures NodesOf([sh.kids[i - 1], kid]) == Nodes(sh.kids[i - 1]) + Nodes(kid) <= Nodes(sh)
    ensures kid.node in Nodes(kid) && sh.kids[i - 1].node in Nodes(sh.kids[i - 1])
  {
    WithLeft(sh, d, lo, hi, i, kid, before, after);
    KidNodes(sh, i);
    KidNodes(sh, i - 1);
    Pair(sh.kids[i - 1], kid);
  }

  lemma {:induction false} MendedRight(sh: Shape, d: nat, lo: Bound, hi: Bound, i: nat, kid: Shape, ms: seq<Key>, mid: seq<Shape>,
                    before: seq<Node>, after: seq<Node>, sh1: Shape)
    requires sh.InnerAt? && i + 1 < |sh.kids| == |sh.keys| + 1 && IsSpliced(sh, i, i + 2, ms, mid, sh1) && Subtree(sh1, d, lo, hi, before, after)
    requires Entries(sh1) == EntriesOf(sh.kids[..i]) + EntriesOf(mid) + EntriesOf(sh.kids[i + 2..])
    requires Nodes(sh1) == {sh.node} + NodesOf(sh.kids[..i]) + NodesOf(mid) + NodesOf(sh.kids[i + 2..])
    requires NodesOf(mid) <= Nodes(sh) && EntriesOf(mid) == EntriesOf([kid, sh.kids[i + 1]])
    requires mid != [] && First(mid[0]) == First(kid) == First(sh.kids[i])
    ensures Mended(sh, d, lo, hi, i, kid, before, after, sh1)
  {
    SplicedFirst(sh, i, i + 2, ms, mid, sh1);
    RightPairEntries(sh.kids, i, kid);
    PartNodes(sh.kids, i, i + 2);
  }

  lemma {:induction false} MendedLeft(sh: Shape, d: nat, lo: Bound, hi: Bound, i: nat, kid: Shape, ms: seq<Key>, mid: seq<Shape>,
                   before: seq<Node>, after: seq<Node>, sh1: Shape)
    requires sh.InnerAt? && 0 < i < |sh.kids| == |sh.keys| + 1 && IsSpliced(sh, i - 1, i + 1, ms, mid, sh1) && Subtree(sh1, d, lo, hi, before, after)
    requires Entries(sh1) == EntriesOf(sh.kids[..i - 1]) + EntriesOf(mid) + EntriesOf(sh.kids[i + 1..])
    requires Nodes(sh1) == {sh.node} + NodesOf(sh.kids[..i - 1]) + NodesOf(mid) + NodesOf(sh.kids[i + 1..])
    requires NodesOf(mid) <= Nodes(sh) && EntriesOf(mid) == EntriesOf([sh.kids[i - 1], kid])
    requires mid != [] && First(mid[0]) == First(sh.kids[i - 1])
    ensures Mended(sh, d, lo, hi, i, kid, before, after, sh1)
  {
    SplicedFirst(sh, i - 1, i + 1, ms, mid, sh1);
    LeftPairEntries(sh.kids, i, kid);
    PartNodes(sh.kids, i - 1, i + 1);
  }

  /** The neighbours of child `i`: their objects show what the picture shows. */
  lemma {:induction false} Neighbours(sh: Shape, d: nat, lo: Bound, hi: Bound, i: nat, before: seq<Node>, after: seq<Node>, own: set<Node>)
    requires sh.InnerAt? && i < |sh.kids| == |sh.keys| + 1 && d > 0 && Flanked(sh, d, lo, hi, i, i + 1, before, after, own)
    ensures i + 1 < |sh.kids| ==> sh.kids[i + 1].node.keys == sh.kids[i + 1].keys && |sh.kids[i + 1].keys| >= ORDER
                                  && (if d == 1 then sh.kids[i + 1].LeafAt? else sh.kids[i + 1].InnerAt?)
    ensures i > 0 ==> sh.kids[i - 1].node.keys == sh.kids[i - 1].keys && |sh.kids[i - 1].keys| >= ORDER
                      && (if d == 1 then sh.kids[i - 1].LeafAt? else sh.kids[i - 1].InnerAt?)
  {
    assert FormedKids(sh.keys, sh.kids, d, lo, hi);
    if i + 1 < |sh.kids| {
      FlankedRight(sh, d, lo, hi, i, before, after, own);
      assert sh.kids[i + 1..][0] == sh.kids[i + 1];
    }
    if i > 0 {
      FlankedLeft(sh, d, lo, hi, i, before, after, own);
      assert sh.kids[..i][i - 1] == sh.kids[i - 1];
    }
  }

  /** `key` has been taken out of the subtree `sh`, which is now `sh1` and may have one key less at its top. */
  ghost predicate Deleted(key: Key, sh: Shape, d: nat, lo: Bound, hi: Bound, before: seq<Node>, after: seq<Node>, deleted: bool, sh1: Shape)
    reads Nodes(sh1)`keys, Nodes(sh1)`values, Nodes(sh1)`children
    reads NodesIn(before + Leaves(sh1) + after)`next, NodesIn(before + Leaves(sh1) + after)`prev
  {
    && Subtree(sh1, d, lo, hi, before, after) && Entries(sh1) == Without(Entries(sh), key)
    && (deleted <==> Present(Entries(sh), key))
    && sh1.node == sh.node && (sh1.LeafAt? <==> sh.LeafAt?) && First(sh1) == First(sh) && Nodes(sh1) <= Nodes(sh)
    && |sh1.keys| >= |sh.keys| - (if deleted then 1 else 0)
  }

  lemma {:induction false} NothingDeleted(key: Key, sh: Shape, d: nat, lo: Bound, hi: Bound, before: seq<Node>, after: seq<Node>)
    requires Subtree(sh, d, lo, hi, before, after) && !Present(Entries(sh), key) && Without(Entries(sh), key) == Entries(sh)
    ensures Deleted(key, sh, d, lo, hi, before, after, false, sh)
  {
  }

  lemma {:induction false} KeysRemoved(ks: seq<Key>, lo: Bound, hi: Bound, i: nat)
    requires KeysIn(ks, lo, hi) && i < |ks|
    ensures KeysIn(ks[..i] + ks[i + 1..], lo, hi)
  {
  }

  lemma {:induction false} MendedDeleted(key: Key, sh: Shape, d: nat, lo: Bound, hi: Bound, i: nat, kid: Shape, before: seq<Node>, after: seq<Node>, sh1: Shape)
    requires sh.InnerAt? && i < |sh.kids| == |sh.keys| + 1 && d > 0 && Formed(sh, d, lo, hi)
    requires Above(Lo(sh.keys, lo, i), key) && Below(key, Hi(sh.keys, hi, i))
    requires Entries(kid) == Without(Entries(sh.kids[i]), key) && Present(Entries(sh.kids[i]), key)
    requires Mended(sh, d, lo, hi, i, kid, before, after, sh1)
    ensures Deleted(key, sh, d, lo, hi, before, after, true, sh1)
  {
    ChildWithout(sh, d, lo, hi, i, key);
  }

  lemma {:induction false} KeptDeleted(key: Key, sh: Shape, d: nat, lo: Bound, hi: Bound, i: nat, kid: Shape, before: seq<Node>, after: seq<Node>,
                    deleted: bool, sh1: Shape)
    requires sh.InnerAt? && i < |sh.kids| == |sh.keys| + 1 && d > 0 && Placed(sh, d, lo, hi, i, i + 1, [], [kid], before, after)
    requires Above(Lo(sh.keys, lo, i), key) && Below(key, Hi(sh.keys, hi, i))
    requires Entries(kid) == Without(Entries(sh.kids[i]), key) && (deleted <==> Present(Entries(sh.kids[i]), key))
    requires kid.node == sh.kids[i].node && First(kid) == First(sh.kids[i]) && Nodes(kid) <= Nodes(sh.kids[i]) && |kid.keys| >= ORDER
    requires !sh.node.leaf && sh.node.keys == sh.keys && sh.node.children == Roots(sh.kids)
    requires sh1 == InnerAt(sh.node, Splice(sh.keys, i, i, []), Splice(sh.kids, i, i + 1, [kid]))
    ensures Deleted(key, sh, d, lo, hi, before, after, deleted, sh1)
  {
    KeptSubtree(sh, d, lo, hi, i, kid, sh1, before, after);
    ChildWithout(sh, d, lo, hi, i, key);
    SplicedFirst(sh, i, i + 1, [], [kid], sh1);
    PartNodes(sh.kids, i, i + 1);
    KidNodes(sh, i);
    Single(kid);
  }

  /** A root without separators hands over to its only child. */
  lemma {:induction false} OnlyChild(sh: Shape, d: nat, lo: Bound, hi: Bound)
    requires Subtree(sh, d, lo, hi, [], []) && sh.InnerAt? && sh.keys == []
    ensures d > 0 && |sh.kids| == 1 && Subtree(sh.kids[0], d - 1, lo, hi, [], []) && |sh.kids[0].keys| >= ORDER
    ensures Entries(sh.kids[0]) == Entries(sh) && Nodes(sh.kids[0]) <= Nodes(sh) && First(sh.kids[0]) == First(sh)
    ensures sh.node.children == [sh.kids[0].node]
  {
    assert FormedKids(sh.keys, sh.kids, d, lo, hi);
    var kid := sh.kids[0];
    assert sh.kids == [kid];
    Single(kid);
    assert [] + Leaves(sh) + [] == [] + Leaves(kid) + [];
  }

  // ---- the leaves as a list --------------------------------------------------------------------------------------

  ghost function LeafList(sh: Shape): seq<Shape> {
    match sh
    case LeafAt(_, _, _) => [sh]
    case InnerAt(_, _, kids) => LeafListOf(kids)
  }

  ghost function LeafListOf(kids: seq<Shape>): seq<Shape> {
    if kids == [] then [] else LeafList(kids[0]) + LeafListOf(kids[1..])
  }

  lemma {:induction false} LeafListConcat(a: seq<Shape>, b: seq<Shape>)
    ensures LeafListOf(a + b) == LeafListOf(a) + LeafListOf(b)
  {
    if a == [] {
      assert a + b == b;
    } else {
      LeafListConcat(a[1..], b);
      assert (a + b)[1..] == a[1..] + b;
      assert LeafListOf(a + b) == LeafList(a[0]) + (LeafListOf(a[1..]) + LeafListOf(b));
    }
  }

  lemma {:induction false} LeafListAt(kids: seq<Shape>, i: nat)
    requires i < |kids|
    ensures LeafListOf(kids) == LeafListOf(kids[..i]) + LeafList(kids[i]) + LeafListOf(kids[i + 1..])
  {
    var rest := kids[i..];
    assert kids == kids[..i] + rest && rest[1..] == kids[i + 1..];
    LeafListConcat(kids[..i], rest);
    assert LeafListOf(rest) == LeafList(kids[i]) + LeafListOf(kids[i + 1..]);
  }

  /** Reading the leaves from left to right reads all entries in order. */
  lemma {:induction false} LeafListEntries(sh: Shape)
    ensures EntriesOf(LeafList(sh)) == Entries(sh)
    decreases sh, 0
  {
    if sh.InnerAt? { LeafListOfEntries(sh.kids); } else { Single(sh); }
  }

  lemma {:induction false} LeafListOfEntries(kids: seq<Shape>)
    ensures EntriesOf(LeafListOf(kids)) == EntriesOf(kids)
    decreases kids
  {
    if kids != [] {
      LeafListEntries(kids[0]);
      LeafListOfEntries(kids[1..]);
      EntriesConcat(LeafList(kids[0]), LeafListOf(kids[1..]));
    }
  }

  /** The objects of the list are the row of leaves, and hold what it shows. */
  lemma {:induction false} LeafListNodes(sh: Shape)
    ensures Roots(LeafList(sh)) == Leaves(sh)
    ensures Holds(sh) ==> forall x :: x in LeafList(sh) ==> x.LeafAt? && Holds(x)
    decreases sh, 0
  {
    if sh.InnerAt? { LeafListOfNodes(sh.kids); }
  }

  lemma {:induction false} LeafListOfNodes(kids: seq<Shape>)
    ensures Roots(LeafListOf(kids)) == LeavesOf(kids)
    ensures HoldsOf(kids) ==> forall x :: x in LeafListOf(kids) ==> x.LeafAt? && Holds(x)
    decreases kids
  {
    if kids != [] {
      LeafListNodes(kids[0]);
      LeafListOfNodes(kids[1..]);
    }
  }

  lemma {:induction false} LeafListFormed(sh: Shape, d: nat, lo: Bound, hi: Bound)
    requires Formed(sh, d, lo, hi)
    ensures forall x :: x in LeafList(sh) ==> x.LeafAt? && |x.keys| == |x.vals| && KeysIn(x.keys, Open, Open)
    decreases sh, 0
  {
    if sh.InnerAt? {
      assert FormedKids(sh.keys, sh.kids, d, lo, hi);
      forall i | 0 <= i < |sh.kids| ensures forall x :: x in LeafList(sh.kids[i]) ==> x.LeafAt? && |x.keys| == |x.vals| && KeysIn(x.keys, Open, Open) {
        LeafListFormed(sh.kids[i], d - 1, Lo(sh.keys, lo, i), Hi(sh.keys, hi, i));
      }
      LeafListMembers(sh.kids);
    }
  }

  lemma {:induction false} LeafListMembers(kids: seq<Shape>)
    ensures forall x :: x in LeafListOf(kids) ==> exists i :: 0 <= i < |kids| && x in LeafList(kids[i])
  {
    if kids != [] {
      LeafListMembers(kids[1..]);
      forall x | x in LeafListOf(kids) ensures exists i :: 0 <= i < |kids| && x in LeafList(kids[i]) {
        if x !in LeafList(kids[0]) {
          assert x in LeafListOf(kids[1..]);
          var i :| 0 <= i < |kids[1..]| && x in LeafList(kids[1..][i]);
          assert x in LeafList(kids[i + 1]);
        }
      }
    }
  }

  /** The leaf found below child `i`, seen from the whole node: everything left of it is still smaller than the key. */
  lemma {:induction false} LeafBelow(ks: seq<Key>, kids: seq<Shape>, d: nat, lo: Bound, hi: Bound, i: nat, key: Key, p: nat)
    requires d > 0 && FormedKids(ks, kids, d, lo, hi) && i < |kids|
    requires Above(Lo(ks, lo, i), key) && Below(key, Hi(ks, hi, i))
    requires p < |LeafList(kids[i])| && forall e :: e in EntriesOf(LeafList(kids[i])[..p]) ==> e.0 < key
    ensures var q := |LeafListOf(kids[..i])| + p;
            && q < |LeafListOf(kids)| && LeafListOf(kids)[q] == LeafList(kids[i])[p]
            && forall e :: e in EntriesOf(LeafListOf(kids)[..q]) ==> e.0 < key
  {
    LeafListAt(kids, i);
    var a, b, q := LeafListOf(kids[..i]), LeafList(kids[i]), |LeafListOf(kids[..i])| + p;
    assert LeafListOf(kids)[..q] == a + b[..p];
    EntriesConcat(a, b[..p]);
    LeafListOfEntries(kids[..i]);
    ChildAround(ks, kids, d, lo, hi, i, key);
  }

  /** A leaf object and its picture. */
  ghost predicate Shows(x: Shape)
    reads x.node`keys, x.node`values
  {
    x.LeafAt? && x.node.keys == x.keys && x.node.values == x.vals && |x.keys| == |x.vals| && KeysIn(x.keys, Open, Open)
  }

  lemma {:induction false} LeafListShows(sh: Shape, d: nat, lo: Bound, hi: Bound)
    requires Holds(sh) && Formed(sh, d, lo, hi)
    ensures forall x :: x in LeafList(sh) ==> Shows(x)
  {
    LeafListNodes(sh);
    LeafListFormed(sh, d, lo, hi);
  }

  lemma {:induction false} BetweenNext(ls: seq<Shape>, p: nat, lo: Key, hi: Key)
    requires p < |ls|
    ensures Between(EntriesOf(ls[..p + 1]), lo, hi) == Between(EntriesOf(ls[..p]), lo, hi) + Between(Entries(ls[p]), lo, hi)
  {
    assert ls[..p + 1] == ls[..p] + [ls[p]];
    EntriesConcat(ls[..p], [ls[p]]);
    Single(ls[p]);
    BetweenSplit(EntriesOf(ls[..p]), Entries(ls[p]), lo, hi);
  }

  /** Once a key beyond `hi` has been met, no later leaf has anything to add. */
  lemma {:induction false} RestBeyond(ls: seq<Shape>, p: nat, i: nat, lo: Key, hi: Key)
    requires Sorted(EntriesOf(ls)) && p < |ls| && i < |Entries(ls[p])| && Entries(ls[p])[i].0 > hi
    ensures Between(EntriesOf(ls), lo, hi) == Between(EntriesOf(ls[..p]), lo, hi) + Between(Entries(ls[p]), lo, hi)
  {
    EntriesAt(ls, p);
    var a, b, c := EntriesOf(ls[..p]), Entries(ls[p]), EntriesOf(ls[p + 1..]);
    var es := a + b + c;
    forall e | e in c ensures hi < e.0 {
      var x :| 0 <= x < |c| && c[x] == e;
      assert es[|a| + i] == b[i] && es[|a| + |b| + x] == e;
    }
    BetweenNone(c, lo, hi);
    BetweenSplit(a + b, c, lo, hi);
    BetweenSplit(a, b, lo, hi);
  }
}
