/** Lending an entry to a sibling in memory: the boundary between the two moves by one. */
module BpLend {
  import opened BpNode
  import opened BpStore
  import opened BpGrow
  import opened BpShrink
  import opened BpArrays
  import opened BpHeap

  /** The next leaf after left is its right sibling. */
  lemma NextIsRight(S: Store, R: Records, M: Entries, root: Node, p: Node, j: nat, left: Node, right: Node)
    requires Linked(S, R, M, root, NoPend) && Siblings(S, p, j, left, right) && S[left].h == 0
    ensures S[left].next == ToNode(right)
  {
    SiblingFacts(S, R, M, root, p, j, left, right);
    var d := S[left].next.node;
    assert NodeOk(S, R, M, root, NoPend, d);
    OneNode(S, R, M, root, d, right, S[right].lo.k);
  }

  /** p with a new key between children j and j + 1. */
  ghost function Rekeyed(v: NodeVal, j: nat, key: int): NodeVal
    requires j < |v.keys|
  {
    v.(keys := v.keys[j := key])
  }

  lemma RekeyedIs(v: NodeVal, j: nat, key: int, right: Node)
    requires j < |v.keys| && j + 1 < |v.ptrs| && v.ptrs[j + 1] == ToNode(right)
    ensures WithChild(WithoutChild(v, j), j, key, right) == Rekeyed(v, j, key)
  {
  }

  /** s is a boundary at which the entries of the two siblings can be split again. */
  ghost predicate Boundary(S: Store, p: Node, j: nat, left: Node, right: Node, s: nat) {
    && Siblings(S, p, j, left, right) && left != right && left != p && right != p
    && 0 < s < |MergedVal(S[left], S[right], S[p].keys[j]).keys| && |S[left].ptrs| + |S[right].ptrs| >= s + 1
  }

  /** What becomes of the two siblings and their parent when the boundary moves to s. */
  ghost function LeftAt(S: Store, p: Node, j: nat, left: Node, right: Node, s: nat): NodeVal
    requires Boundary(S, p, j, left, right, s)
  {
    var w := MergedVal(S[left], S[right], S[p].keys[j]);
    if w.h == 0 then LeftHalf(w, s, right) else LeftPart(w, s)
  }

  ghost function RightAt(S: Store, p: Node, j: nat, left: Node, right: Node, s: nat): NodeVal
    requires Boundary(S, p, j, left, right, s)
  {
    var w := MergedVal(S[left], S[right], S[p].keys[j]);
    if w.h == 0 then RightHalf(w, s) else RightPart(w, s)
  }

  lemma LentLeaves(S: Store, R: Records, M: Entries, root: Node, p: Node, j: nat, left: Node, right: Node, s: nat)
    requires Linked(S, R, M, root, NoPend) && Boundary(S, p, j, left, right, s) && S[left].h == 0
    ensures var w, U := MergedVal(S[left], S[right], S[p].keys[j]), Resplit(S, p, j, left, right, s);
      && U.Keys == S.Keys && U[left] == LeftHalf(w, s, right) && U[right] == RightHalf(w, s)
      && U[p] == Rekeyed(S[p], j, w.keys[s])
  {
    MergeValues(S, R, M, root, p, j, left, right, left);
    var w := MergedVal(S[left], S[right], S[p].keys[j]);
    RekeyedIs(S[p], j, w.keys[s], right);
    hide Linked, Merge, InsertAt, RemoveAt, WithChild, Rekeyed, LeftHalf, RightHalf;
  }

  lemma ParentNotBelow(S: Store, R: Records, M: Entries, root: Node, p: Node, j: nat, left: Node, right: Node)
    requires Linked(S, R, M, root, NoPend) && Siblings(S, p, j, left, right) && S[left].h > 0
    ensures ToNode(p) !in S[left].ptrs + S[right].ptrs
  {
    SiblingFacts(S, R, M, root, p, j, left, right);
    forall i | 0 <= i < |S[left].ptrs| ensures S[left].ptrs[i] != ToNode(p) {
      assert ChildOk(S, NoPend, left, S[left], i);
    }
    forall i | 0 <= i < |S[right].ptrs| ensures S[right].ptrs[i] != ToNode(p) {
      assert ChildOk(S, NoPend, right, S[right], i);
    }
  }

  lemma LentInner(S: Store, R: Records, M: Entries, root: Node, p: Node, j: nat, left: Node, right: Node, s: nat)
    requires Linked(S, R, M, root, NoPend) && Boundary(S, p, j, left, right, s) && S[left].h > 0
    ensures var w, U := MergedVal(S[left], S[right], S[p].keys[j]), Resplit(S, p, j, left, right, s);
      && U.Keys == S.Keys && U[left] == LeftPart(w, s) && U[right] == RightPart(w, s)
      && U[p] == Rekeyed(S[p], j, w.keys[s])
  {
    MergeValues(S, R, M, root, p, j, left, right, left);
    ParentNotBelow(S, R, M, root, p, j, left, right);
    var w := MergedVal(S[left], S[right], S[p].keys[j]);
    RekeyedIs(S[p], j, w.keys[s], right);
    assert ToNode(p) !in w.ptrs[s + 1..];
    hide Linked, Merge, InsertAt, RemoveAt, WithChild, Rekeyed, LeftPart, RightPart;
  }

  lemma LentEnds(S: Store, R: Records, M: Entries, root: Node, p: Node, j: nat, left: Node, right: Node, s: nat)
    requires Linked(S, R, M, root, NoPend) && Boundary(S, p, j, left, right, s)
    ensures var w, U := MergedVal(S[left], S[right], S[p].keys[j]), Resplit(S, p, j, left, right, s);
      && U.Keys == S.Keys && U[left] == LeftAt(S, p, j, left, right, s) && U[right] == RightAt(S, p, j, left, right, s)
      && U[p] == Rekeyed(S[p], j, w.keys[s])
  {
    if S[left].h == 0 {
      LentLeaves(S, R, M, root, p, j, left, right, s);
    } else {
      LentInner(S, R, M, root, p, j, left, right, s);
    }
  }

  /** Where any other node hangs once the boundary has moved. */
  lemma Hangs(S: Store, R: Records, M: Entries, root: Node, p: Node, j: nat, left: Node, right: Node, s: nat, m: Node)
    requires Linked(S, R, M, root, NoPend) && Boundary(S, p, j, left, right, s)
    requires m in S && m != p && m != left && m != right
    ensures var w, U := MergedVal(S[left], S[right], S[p].keys[j]), Resplit(S, p, j, left, right, s);
      m in U && U[m] == if S[left].h == 0 then S[m] else if ToNode(m) in w.ptrs[s + 1..] then S[m].(parent := right)
                        else if ToNode(m) in S[right].ptrs then S[m].(parent := left) else S[m]
  {
    MergeValues(S, R, M, root, p, j, left, right, m);
  }

  /** With one entry lent to the right, only the last child of left changes its parent. */
  lemma HangsLentRight(S: Store, R: Records, M: Entries, root: Node, p: Node, j: nat, left: Node, right: Node, m: Node)
    requires Linked(S, R, M, root, NoPend) && left in S && |S[left].keys| > 0
    requires Boundary(S, p, j, left, right, |S[left].keys| - 1)
    requires m in S && m != p && m != left && m != right && S[left].h > 0
    ensures var l, U := S[left], Resplit(S, p, j, left, right, |S[left].keys| - 1);
      && |l.ptrs| == |l.keys| + 1
      && m in U && U[m] == if ToNode(m) == l.ptrs[|l.keys|] then S[m].(parent := right) else S[m]
  {
    hide Linked, Resplit;
    Hangs(S, R, M, root, p, j, left, right, |S[left].keys| - 1, m);
    SiblingFacts(S, R, M, root, p, j, left, right);
    var l, r := S[left], S[right];
    var w := MergedVal(l, r, S[p].keys[j]);
    assert w.ptrs[|l.keys|..] == [l.ptrs[|l.keys|]] + r.ptrs;
    if ToNode(m) in r.ptrs {
      ChildHas(S, NoPend, right, r, m);
    }
  }

  /** With one entry lent to the left, only the first child of right changes its parent. */
  lemma HangsLentLeft(S: Store, R: Records, M: Entries, root: Node, p: Node, j: nat, left: Node, right: Node, m: Node)
    requires Linked(S, R, M, root, NoPend) && left in S && Boundary(S, p, j, left, right, |S[left].keys| + 1)
    requires m in S && m != p && m != left && m != right && S[left].h > 0
    ensures var r, U := S[right], Resplit(S, p, j, left, right, |S[left].keys| + 1);
      && |r.ptrs| == |r.keys| + 1
      && m in U && U[m] == if ToNode(m) == r.ptrs[0] then S[m].(parent := left) else S[m]
  {
    hide Linked, Resplit;
    Hangs(S, R, M, root, p, j, left, right, |S[left].keys| + 1, m);
    SiblingFacts(S, R, M, root, p, j, left, right);
    var l, r := S[left], S[right];
    var w := MergedVal(l, r, S[p].keys[j]);
    assert w.ptrs[|l.keys| + 2..] == r.ptrs[1..];
    if ToNode(m) in r.ptrs {
      ChildHas(S, NoPend, right, r, m);
      assert r.ptrs == [r.ptrs[0]] + r.ptrs[1..];
      if ToNode(m) in r.ptrs[1..] {
        var i :| 0 <= i < |r.ptrs[1..]| && r.ptrs[1..][i] == ToNode(m);
        DistinctChildren(S, NoPend, right, r, 0, i + 1);
      }
    }
  }

  /** v and w look the same in memory. */
  ghost predicate Alike(v: NodeVal, w: NodeVal) {
    v.keys == w.keys && v.ptrs == w.ptrs && v.parent == w.parent && v.h == w.h && (v.h == 0 ==> v.next == w.next)
  }

  ghost function LastLent(l: NodeVal): NodeVal
    requires |l.keys| > 0 && |l.ptrs| > 0
  {
    l.(keys := l.keys[..|l.keys| - 1], ptrs := l.ptrs[..|l.ptrs| - 1])
  }

  ghost function FirstLent(r: NodeVal): NodeVal
    requires |r.keys| > 0 && |r.ptrs| > 0
  {
    r.(keys := r.keys[1..], ptrs := r.ptrs[1..])
  }

  ghost function InFront(key: int, ptr: Ptr, r: NodeVal): NodeVal {
    r.(keys := [key] + r.keys, ptrs := [ptr] + r.ptrs)
  }

  ghost function Behind(l: NodeVal, key: int, ptr: Ptr): NodeVal {
    l.(keys := l.keys + [key], ptrs := l.ptrs + [ptr])
  }

  lemma RightLeafVals(l: NodeVal, r: NodeVal, sep: int, right: Node)
    requires l.h == 0 && r.h == 0 && 0 < |l.keys| == |l.ptrs| && |r.keys| == |r.ptrs| && l.parent == r.parent
    requires l.next == ToNode(right)
    requires 1 < |l.keys| + |r.keys|
    ensures var s, w := |l.keys| - 1, MergedVal(l, r, sep);
      && w.keys[s] == l.keys[s] && Alike(LastLent(l), LeftHalf(w, s, right))
      && Alike(InFront(l.keys[s], l.ptrs[s], r), RightHalf(w, s))
  {
  }

  lemma RightInnerVals(l: NodeVal, r: NodeVal, sep: int)
    requires l.h == r.h > 0 && 0 < |l.keys| && |l.ptrs| == |l.keys| + 1 && |r.ptrs| == |r.keys| + 1
    requires l.parent == r.parent
    ensures var s, w := |l.keys| - 1, MergedVal(l, r, sep);
      && w.keys[s] == l.keys[s] && Alike(LastLent(l), LeftPart(w, s))
      && Alike(InFront(sep, l.ptrs[s + 1], r), RightPart(w, s))
  {
  }

  lemma LeftLeafVals(l: NodeVal, r: NodeVal, sep: int, right: Node)
    requires l.h == 0 && r.h == 0 && |l.keys| == |l.ptrs| && 1 < |r.keys| == |r.ptrs| && l.parent == r.parent
    requires l.next == ToNode(right)
    ensures var s, w := |l.keys| + 1, MergedVal(l, r, sep);
      && w.keys[s] == r.keys[1] && Alike(Behind(l, r.keys[0], r.ptrs[0]), LeftHalf(w, s, right))
      && Alike(FirstLent(r), RightHalf(w, s))
  {
  }

  lemma LeftInnerVals(l: NodeVal, r: NodeVal, sep: int)
    requires l.h == r.h > 0 && |l.ptrs| == |l.keys| + 1 && 0 < |r.keys| && |r.ptrs| == |r.keys| + 1
    requires l.parent == r.parent
    ensures var s, w := |l.keys| + 1, MergedVal(l, r, sep);
      && w.keys[s] == r.keys[0] && Alike(Behind(l, sep, r.ptrs[0]), LeftPart(w, s))
      && Alike(FirstLent(r), RightPart(w, s))
  {
  }

  /** The boundary one entry to the left. */
  lemma LentRightVals(S: Store, R: Records, M: Entries, root: Node, p: Node, j: nat, left: Node, right: Node)
    requires Linked(S, R, M, root, NoPend) && left in S && |S[left].keys| > 0
    requires Boundary(S, p, j, left, right, |S[left].keys| - 1)
    ensures var l, r, s, m := S[left], S[right], |S[left].keys| - 1, |S[left].ptrs| - 1;
      var w := MergedVal(l, r, S[p].keys[j]);
      && m >= 0 && w.keys[s] == l.keys[s]
      && Alike(LastLent(l), LeftAt(S, p, j, left, right, s))
      && Alike(InFront(if l.h == 0 then l.keys[s] else S[p].keys[j], l.ptrs[m], r), RightAt(S, p, j, left, right, s))
  {
    hide Linked, NodeOk, Merge, ChildrenOk, LeftHalf, RightHalf, LeftPart, RightPart;
    SiblingFacts(S, R, M, root, p, j, left, right);
    if S[left].h == 0 {
      NextIsRight(S, R, M, root, p, j, left, right);
      RightLeafVals(S[left], S[right], S[p].keys[j], right);
    } else {
      RightInnerVals(S[left], S[right], S[p].keys[j]);
    }
  }

  /** The boundary one entry to the right. */
  lemma LentLeftVals(S: Store, R: Records, M: Entries, root: Node, p: Node, j: nat, left: Node, right: Node)
    requires Linked(S, R, M, root, NoPend) && left in S && Boundary(S, p, j, left, right, |S[left].keys| + 1)
    ensures var l, r, s := S[left], S[right], |S[left].keys| + 1;
      var w := MergedVal(l, r, S[p].keys[j]);
      && |r.keys| > (if l.h == 0 then 1 else 0) && |r.ptrs| > 0 && w.keys[s] == r.keys[if l.h == 0 then 1 else 0]
      && Alike(Behind(l, if l.h == 0 then r.keys[0] else S[p].keys[j], r.ptrs[0]), LeftAt(S, p, j, left, right, s))
      && Alike(FirstLent(r), RightAt(S, p, j, left, right, s))
  {
    hide Linked, NodeOk, Merge, ChildrenOk, LeftHalf, RightHalf, LeftPart, RightPart;
    SiblingFacts(S, R, M, root, p, j, left, right);
    if S[left].h == 0 {
      NextIsRight(S, R, M, root, p, j, left, right);
      LeftLeafVals(S[left], S[right], S[p].keys[j], right);
    } else {
      LeftInnerVals(S[left], S[right], S[p].keys[j]);
    }
  }

  method SetKey(p: Node, j: nat, key: int, order: nat, ghost v: NodeVal)
    requires Shows(p, v, order) && j < |v.keys|
    modifies p.keys
    ensures Shows(p, Rekeyed(v, j, key), order)
  {
    p.keys[j] := key;
  }

  /** Three nodes and their arrays are different. */
  ghost predicate Three(a: Node, b: Node, c: Node) {
    && a != b && b != c && a != c && a.keys != b.keys && b.keys != c.keys && a.keys != c.keys
    && a.pointers != b.pointers && b.pointers != c.pointers && a.pointers != c.pointers
  }

  /** The nodes, besides the siblings, that get a new parent when v hands on pointer ptr. */
  ghost predicate Moves(moved: set<Node>, h: nat, ptr: Ptr) {
    if h == 0 then moved == {} else ptr.ToNode? && moved == {ptr.node}
  }

  /** redistribute_nodes, when the neighbour is to the left. */
  method TakeFromLeft(n: Node, neighbor: Node, parent: Node, j: nat, kPrime: int, order: nat,
                      ghost v: NodeVal, ghost w: NodeVal, ghost u: NodeVal, ghost moved: set<Node>)
    requires Three(n, neighbor, parent) && Shows(n, v, order) && Shows(neighbor, w, order) && Shows(parent, u, order)
    requires v.h == w.h && |v.keys| < order - 1 && 0 < |w.keys| && j < |u.keys|
    requires Moves(moved, v.h, w.ptrs[|w.ptrs| - 1]) && {n, neighbor, parent} !! moved
    modifies n`numKeys, n.keys, n.pointers, neighbor`numKeys, neighbor.pointers, parent.keys, moved`parent
    ensures var key := w.keys[|w.keys| - 1];
      && Shows(n, InFront(if v.h == 0 then key else kPrime, w.ptrs[|w.ptrs| - 1], v), order)
      && Shows(neighbor, LastLent(w), order) && Shows(parent, Rekeyed(u, j, key), order)
    ensures forall c | c in moved :: c.parent == n
  {
    var key := neighbor.keys[neighbor.numKeys - 1];
    if !n.isLeaf {
      var child := neighbor.pointers[neighbor.numKeys].node;
      child.parent := n;
      BorrowLeftInner(n, neighbor, kPrime, order, v, w);
    } else {
      BorrowLeftLeaf(n, neighbor, order, v, w);
    }
    SetKey(parent, j, key, order, u);
  }

  /** redistribute_nodes, when the neighbour is to the right. */
  method TakeFromRight(n: Node, neighbor: Node, parent: Node, j: nat, kPrime: int, order: nat,
                       ghost v: NodeVal, ghost w: NodeVal, ghost u: NodeVal, ghost moved: set<Node>)
    requires Three(n, neighbor, parent) && Shows(n, v, order) && Shows(neighbor, w, order) && Shows(parent, u, order)
    requires v.h == w.h && |v.keys| < order - 1 && (if v.h == 0 then 1 else 0) < |w.keys| && j < |u.keys|
    requires Moves(moved, v.h, w.ptrs[0]) && {n, neighbor, parent} !! moved
    modifies n`numKeys, n.keys, n.pointers, neighbor`numKeys, neighbor.keys, neighbor.pointers, parent.keys,
              moved`parent
    ensures Shows(n, Behind(v, if v.h == 0 then w.keys[0] else kPrime, w.ptrs[0]), order)
    ensures Shows(neighbor, FirstLent(w), order)
    ensures Shows(parent, Rekeyed(u, j, w.keys[if v.h == 0 then 1 else 0]), order)
    ensures forall c | c in moved :: c.parent == n
  {
    if n.isLeaf {
      SetKey(parent, j, neighbor.keys[1], order, u);
      BorrowRightLeaf(n, neighbor, order, v, w);
    } else {
      var child := neighbor.pointers[0].node;
      child.parent := n;
      SetKey(parent, j, neighbor.keys[0], order, u);
      BorrowRightInner(n, neighbor, kPrime, order, v, w);
    }
  }

  /** The child that goes along when the boundary moves, if there is one. */
  ghost function Moved(h: nat, ptr: Ptr): set<Node> {
    if h > 0 && ptr.ToNode? then {ptr.node} else {}
  }

  /** U is S with other values at the two siblings and their parent, and the moved child under q. */
  ghost predicate Shifted(S: Store, U: Store, p: Node, left: Node, right: Node, moved: set<Node>, q: Node)
    requires U.Keys == S.Keys
  {
    forall m {:trigger U[m]} | m in S && m != p && m != left && m != right ::
      U[m] == if m in moved then S[m].(parent := q) else S[m]
  }

  /** A child of one of the siblings is none of the three nodes. */
  lemma MovedChild(S: Store, R: Records, M: Entries, root: Node, p: Node, j: nat, left: Node, right: Node, q: Node,
                   i: nat)
    requires Linked(S, R, M, root, NoPend) && Siblings(S, p, j, left, right) && (q == left || q == right)
    requires i < |S[q].ptrs|
    ensures var ptr := S[q].ptrs[i]; var moved := Moved(S[left].h, ptr);
      Moves(moved, S[left].h, ptr) && {right, left, p} !! moved && moved <= S.Keys
  {
    SiblingFacts(S, R, M, root, p, j, left, right);
    if S[left].h > 0 {
      assert ChildOk(S, NoPend, q, S[q], i);
    }
  }

  lemma LentRightRest(S: Store, R: Records, M: Entries, root: Node, p: Node, j: nat, left: Node, right: Node)
    requires Linked(S, R, M, root, NoPend) && left in S && |S[left].keys| > 0 && |S[left].ptrs| > 0
    requires Boundary(S, p, j, left, right, |S[left].keys| - 1)
    ensures var ptr, U := S[left].ptrs[|S[left].ptrs| - 1], Resplit(S, p, j, left, right, |S[left].keys| - 1);
      var moved := Moved(S[left].h, ptr);
      && Moves(moved, S[left].h, ptr) && {right, left, p} !! moved && moved <= S.Keys
      && U.Keys == S.Keys && Shifted(S, U, p, left, right, moved, right)
  {
    SiblingFacts(S, R, M, root, p, j, left, right);
    LentEnds(S, R, M, root, p, j, left, right, |S[left].keys| - 1);
    var ptr, U := S[left].ptrs[|S[left].ptrs| - 1], Resplit(S, p, j, left, right, |S[left].keys| - 1);
    MovedChild(S, R, M, root, p, j, left, right, left, |S[left].ptrs| - 1);
    hide Linked, Resplit, MergedVal, LeftAt, RightAt, Ordered, NodeOk;
    forall m | m in S && m != p && m != left && m != right
      ensures U[m] == if m in Moved(S[left].h, ptr) then S[m].(parent := right) else S[m]
    {
      if S[left].h > 0 {
        HangsLentRight(S, R, M, root, p, j, left, right, m);
      } else {
        Hangs(S, R, M, root, p, j, left, right, |S[left].keys| - 1, m);
      }
    }
  }

  lemma LentLeftRest(S: Store, R: Records, M: Entries, root: Node, p: Node, j: nat, left: Node, right: Node)
    requires Linked(S, R, M, root, NoPend) && left in S && right in S && |S[right].ptrs| > 0
    requires Boundary(S, p, j, left, right, |S[left].keys| + 1)
    ensures var ptr, U := S[right].ptrs[0], Resplit(S, p, j, left, right, |S[left].keys| + 1);
      var moved := Moved(S[left].h, ptr);
      && Moves(moved, S[left].h, ptr) && {left, right, p} !! moved && moved <= S.Keys
      && U.Keys == S.Keys && Shifted(S, U, p, left, right, moved, left)
  {
    SiblingFacts(S, R, M, root, p, j, left, right);
    LentEnds(S, R, M, root, p, j, left, right, |S[left].keys| + 1);
    var ptr, U := S[right].ptrs[0], Resplit(S, p, j, left, right, |S[left].keys| + 1);
    MovedChild(S, R, M, root, p, j, left, right, right, 0);
    hide Linked, Resplit, MergedVal, LeftAt, RightAt, Ordered, NodeOk;
    forall m | m in S && m != p && m != left && m != right
      ensures U[m] == if m in Moved(S[left].h, ptr) then S[m].(parent := left) else S[m]
    {
      if S[left].h > 0 {
        HangsLentLeft(S, R, M, root, p, j, left, right, m);
      } else {
        Hangs(S, R, M, root, p, j, left, right, |S[left].keys| + 1, m);
      }
    }
  }

  ghost function ToParent(v: NodeVal, m: Node, moved: set<Node>, q: Node): NodeVal {
    if m in moved then v.(parent := q) else v
  }

  /** Everything but the siblings n, neighbor and their parent shows what it did, the moved child under n. */
  ghost predicate RestShows(S: Store, n: Node, neighbor: Node, p: Node, moved: set<Node>, order: nat)
    reads Foot(S.Keys)
  {
    forall m {:trigger ToParent(S[m], m, moved, n)} | m in S && m != n && m != neighbor && m != p ::
      Shows(m, ToParent(S[m], m, moved, n), order)
  }

  method StoredTakeFromLeft(n: Node, neighbor: Node, p: Node, j: nat, kPrime: int, order: nat, ghost S: Store,
                            ghost moved: set<Node>)
    requires Stored(S, order) && n in S && neighbor in S && p in S && n != neighbor && n != p && neighbor != p
    requires S[n].h == S[neighbor].h && |S[n].keys| < order - 1 && 0 < |S[neighbor].keys| && j < |S[p].keys|
    requires |S[neighbor].ptrs| > 0 && Moves(moved, S[n].h, S[neighbor].ptrs[|S[neighbor].ptrs| - 1])
    requires {n, neighbor, p} !! moved && moved <= S.Keys
    modifies n`numKeys, n.keys, n.pointers, neighbor`numKeys, neighbor.pointers, p.keys, moved`parent
    ensures var v, w := S[n], S[neighbor]; var key := w.keys[|w.keys| - 1];
      && Shows(n, InFront(if v.h == 0 then key else kPrime, w.ptrs[|w.ptrs| - 1], v), order)
      && Shows(neighbor, LastLent(w), order) && Shows(p, Rekeyed(S[p], j, key), order)
    ensures RestShows(S, n, neighbor, p, moved, order)
  {
    assert Shows(n, S[n], order) && Shows(neighbor, S[neighbor], order) && Shows(p, S[p], order);
    assert Distinct(n, neighbor) && Distinct(n, p) && Distinct(neighbor, p);
    TakeFromLeft(n, neighbor, p, j, kPrime, order, S[n], S[neighbor], S[p], moved);
    forall m | m in S && m != n && m != neighbor && m != p ensures Shows(m, ToParent(S[m], m, moved, n), order) {
      assert Distinct(m, n) && Distinct(m, neighbor) && Distinct(m, p) && old(Shows(m, S[m], order));
    }
  }

  method StoredTakeFromRight(n: Node, neighbor: Node, p: Node, j: nat, kPrime: int, order: nat, ghost S: Store,
                             ghost moved: set<Node>)
    requires Stored(S, order) && n in S && neighbor in S && p in S && n != neighbor && n != p && neighbor != p
    requires S[n].h == S[neighbor].h && |S[n].keys| < order - 1 && (if S[n].h == 0 then 1 else 0) < |S[neighbor].keys|
    requires j < |S[p].keys| && |S[neighbor].ptrs| > 0 && Moves(moved, S[n].h, S[neighbor].ptrs[0])
    requires {n, neighbor, p} !! moved && moved <= S.Keys
    modifies n`numKeys, n.keys, n.pointers, neighbor`numKeys, neighbor.keys, neighbor.pointers, p.keys, moved`parent
    ensures var v, w := S[n], S[neighbor];
      && Shows(n, Behind(v, if v.h == 0 then w.keys[0] else kPrime, w.ptrs[0]), order)
      && Shows(neighbor, FirstLent(w), order) && Shows(p, Rekeyed(S[p], j, w.keys[if v.h == 0 then 1 else 0]), order)
    ensures RestShows(S, n, neighbor, p, moved, order)
  {
    assert Shows(n, S[n], order) && Shows(neighbor, S[neighbor], order) && Shows(p, S[p], order);
    assert Distinct(n, neighbor) && Distinct(n, p) && Distinct(neighbor, p);
    TakeFromRight(n, neighbor, p, j, kPrime, order, S[n], S[neighbor], S[p], moved);
    forall m | m in S && m != n && m != neighbor && m != p ensures Shows(m, ToParent(S[m], m, moved, n), order) {
      assert Distinct(m, n) && Distinct(m, neighbor) && Distinct(m, p) && old(Shows(m, S[m], order));
    }
  }

  /** The three nodes show their new values and the others are as before but for the moved child: U stands. */
  lemma ShiftedStored(S: Store, U: Store, p: Node, n: Node, neighbor: Node, v: NodeVal, w: NodeVal, moved: set<Node>,
                      order: nat)
    requires p in U && n in U && neighbor in U && Apart(U.Keys) && U.Keys == S.Keys
    requires Shifted(S, U, p, n, neighbor, moved, n)
    requires Shows(n, v, order) && Alike(v, U[n]) && Shows(neighbor, w, order) && Alike(w, U[neighbor])
    requires Shows(p, U[p], order)
    requires RestShows(S, n, neighbor, p, moved, order)
    ensures Stored(U, order)
  {
    forall m | m in U ensures Shows(m, U[m], order) {
      if m != p && m != n && m != neighbor {
        assert U[m] == ToParent(S[m], m, moved, n);
      }
    }
  }

  /** The left sibling gives its last entry to the right one. */
  method LendRight(p: Node, j: nat, left: Node, right: Node, kPrime: int, order: nat,
                   ghost S: Store, ghost R: Records, ghost M: Entries, ghost root: Node)
    requires Stored(S, order) && Linked(S, R, M, root, NoPend) && left in S && |S[left].keys| > 0
    requires Boundary(S, p, j, left, right, |S[left].keys| - 1) && |S[right].keys| < order - 1 && kPrime == S[p].keys[j]
    modifies Foot(S.Keys)
    ensures Stored(Resplit(S, p, j, left, right, |S[left].keys| - 1), order)
  {
    LentRightVals(S, R, M, root, p, j, left, right);
    LentEnds(S, R, M, root, p, j, left, right, |S[left].keys| - 1);
    LentRightRest(S, R, M, root, p, j, left, right);
    ghost var U := Resplit(S, p, j, left, right, |S[left].keys| - 1);
    ghost var moved := Moved(S[left].h, S[left].ptrs[|S[left].ptrs| - 1]);
    hide Linked, Resplit, MergedVal, LeftAt, RightAt, Moved, Moves, Alike, Shows;
    StoredTakeFromLeft(right, left, p, j, kPrime, order, S, moved);
    ShiftedStored(S, U, p, right, left,
      InFront(if S[left].h == 0 then S[left].keys[|S[left].keys| - 1] else kPrime,
              S[left].ptrs[|S[left].ptrs| - 1], S[right]),
      LastLent(S[left]), moved, order);
  }

  /** The right sibling gives its first entry to the left one. */
  method LendLeft(p: Node, j: nat, left: Node, right: Node, kPrime: int, order: nat,
                  ghost S: Store, ghost R: Records, ghost M: Entries, ghost root: Node)
    requires Stored(S, order) && Linked(S, R, M, root, NoPend) && left in S
    requires Boundary(S, p, j, left, right, |S[left].keys| + 1) && |S[left].keys| < order - 1 && kPrime == S[p].keys[j]
    modifies Foot(S.Keys)
    ensures Stored(Resplit(S, p, j, left, right, |S[left].keys| + 1), order)
  {
    LentLeftVals(S, R, M, root, p, j, left, right);
    LentEnds(S, R, M, root, p, j, left, right, |S[left].keys| + 1);
    LentLeftRest(S, R, M, root, p, j, left, right);
    ghost var U := Resplit(S, p, j, left, right, |S[left].keys| + 1);
    ghost var moved := Moved(S[left].h, S[right].ptrs[0]);
    hide Linked, Resplit, MergedVal, LeftAt, RightAt, Moved, Moves, Alike, Shows;
    StoredTakeFromRight(left, right, p, j, kPrime, order, S, moved);
    ShiftedStored(S, U, p, left, right,
      Behind(S[left], if S[left].h == 0 then S[right].keys[0] else kPrime, S[right].ptrs[0]), FirstLent(S[right]),
        moved, order);
  }
}
