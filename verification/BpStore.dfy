/**
 * Well-formedness of a B+ tree, node by node. Every condition on a node speaks only of the node, its
 * parent, its children and its successor in the leaf chain; that the whole is a tree follows.
 */
module BpStore {
  import opened BpNode

  /** A split under way: `right` has been split off `left` and is not yet known to their parent. */
  datatype Pend = NoPend | Pend(left: Node, right: Node)

  /** The upper bound that the parent still believes n to have. */
  function Hi(S: Store, pend: Pend, n: Node): Bound
    requires n in S
  {
    if pend.Pend? && n == pend.left && pend.right in S then S[pend.right].hi else S[n].hi
  }

  /** Keys ascend strictly inside the interval; an inner node has one more child than keys. */
  ghost predicate Ordered(v: NodeVal) {
    && Less(v.lo, v.hi)
    && Sorted(v.keys)
    && |v.ptrs| == (if v.h == 0 then |v.keys| else |v.keys| + 1)
    && forall i | 0 <= i < |v.keys| ::
         Below(v.keys[i], v.hi) && (if v.h == 0 then AtOrAbove(v.keys[i], v.lo) else Less(v.lo, At(v.keys[i])))
  }

  /** A leaf's pointers are the records of its keys, and it has every key of M in its interval. */
  ghost predicate EntriesOk(R: Records, M: Entries, v: NodeVal) {
    && (forall i | 0 <= i < |v.keys| && i < |v.ptrs| ::
          v.ptrs[i].ToRecord? && v.ptrs[i].rec in R && v.ptrs[i].rec.key == v.keys[i])
    && (forall k | k in M && In(k, v.lo, v.hi) :: k in v.keys)
  }

  /** The next leaf is the one whose interval starts where this one's ends. */
  ghost predicate NextOk(S: Store, v: NodeVal) {
    if v.hi.PosInf? then v.next == Null
    else v.next.ToNode? && v.next.node in S && S[v.next.node].h == 0 && S[v.next.node].lo == v.hi
  }

  ghost predicate ChildOk(S: Store, pend: Pend, n: Node, v: NodeVal, i: nat)
    requires i < |v.ptrs| && i <= |v.keys|
  {
    && v.ptrs[i].ToNode?
    && var c := v.ptrs[i].node;
       c in S && S[c].parent == n && S[c].h + 1 == v.h && S[c].lo == LoAt(v, i) && Hi(S, pend, c) == HiAt(v, i)
  }

  ghost predicate ChildrenOk(S: Store, pend: Pend, n: Node, v: NodeVal) {
    forall i {:trigger ChildOk(S, pend, n, v, i)} | 0 <= i < |v.ptrs| && i <= |v.keys| :: ChildOk(S, pend, n, v, i)
  }

  /** Every node but the root and a pending right half is a child of its parent, and lower than the root. */
  ghost predicate UpOk(S: Store, root: Node, pend: Pend, n: Node, v: NodeVal) {
    n == root || (pend.Pend? && n == pend.right) || (
      && v.parent != null && v.parent in S && S[v.parent].h > 0
      && ToNode(n) in S[v.parent].ptrs
      && root in S && v.h < S[root].h)
  }

  ghost predicate NodeOk(S: Store, R: Records, M: Entries, root: Node, pend: Pend, n: Node)
    requires n in S
  {
    var v := S[n];
    && Ordered(v)
    && (if v.h == 0 then EntriesOk(R, M, v) && NextOk(S, v) else ChildrenOk(S, pend, n, v))
    && UpOk(S, root, pend, n, v)
  }

  ghost predicate PendOk(S: Store, root: Node, pend: Pend) {
    pend.Pend? ==>
      && pend.left in S && pend.right in S && pend.left != pend.right && pend.right != root
      && S[pend.left].hi == S[pend.right].lo && S[pend.right].lo.At?
      && S[pend.left].h == S[pend.right].h && S[pend.left].parent == S[pend.right].parent
  }

  ghost predicate RootOk(S: Store, root: Node, pend: Pend) {
    root in S && S[root].parent == null && S[root].lo == NegInf && Hi(S, pend, root) == PosInf
  }

  /** Records correspond one to one to the entries of M. */
  ghost predicate RecsOk(R: Records, M: Entries) {
    && (forall r | r in R :: r.key in M && M[r.key] == R[r])
    && (forall r, q | r in R && q in R && r.key == q.key :: r == q)
  }

  /** The nodes of S form a B+ tree with this root for the map M, records R, up to the pending split. */
  ghost predicate Linked(S: Store, R: Records, M: Entries, root: Node, pend: Pend) {
    && RootOk(S, root, pend) && PendOk(S, root, pend) && RecsOk(R, M)
    && forall n {:trigger NodeOk(S, R, M, root, pend, n)} | n in S :: NodeOk(S, R, M, root, pend, n)
  }

  // ---- first consequences ----

  lemma ChildBounds(v: NodeVal, i: nat, k: int)
    requires Ordered(v) && i <= |v.keys| && v.h > 0 && In(k, LoAt(v, i), HiAt(v, i))
    ensures In(k, v.lo, v.hi)
  {
  }

  /** A key lies in the interval of only one child. */
  lemma OneChild(v: NodeVal, i: nat, j: nat, k: int)
    requires Ordered(v) && i <= |v.keys| && j <= |v.keys|
    requires In(k, LoAt(v, i), HiAt(v, i)) && In(k, LoAt(v, j), HiAt(v, j))
    ensures i == j
  {
  }

  /** Which child of its parent n is. */
  lemma WhichChild(S: Store, R: Records, M: Entries, root: Node, pend: Pend, n: Node) returns (p: Node, i: nat)
    requires Linked(S, R, M, root, pend) && n in S && n != root && !(pend.Pend? && n == pend.right)
    ensures p in S && S[n].parent == p && S[p].h == S[n].h + 1 && i < |S[p].ptrs| == |S[p].keys| + 1
    ensures S[p].ptrs[i] == ToNode(n)
    ensures S[n].lo == LoAt(S[p], i) && Hi(S, pend, n) == HiAt(S[p], i)
    ensures Ordered(S[p]) && ChildrenOk(S, pend, p, S[p])
  {
    assert NodeOk(S, R, M, root, pend, n);
    p := S[n].parent;
    assert NodeOk(S, R, M, root, pend, p);
    i :| 0 <= i < |S[p].ptrs| && S[p].ptrs[i] == ToNode(n);
    assert ChildOk(S, pend, p, S[p], i);
  }

  /** At each height, one node is responsible for a key. */
  lemma {:induction false} OneNode(S: Store, R: Records, M: Entries, root: Node, a: Node, b: Node, k: int)
    requires Linked(S, R, M, root, NoPend) && a in S && b in S && S[a].h == S[b].h
    requires In(k, S[a].lo, S[a].hi) && In(k, S[b].lo, S[b].hi)
    ensures a == b
    decreases S[root].h - S[a].h
  {
    assert NodeOk(S, R, M, root, NoPend, a) && NodeOk(S, R, M, root, NoPend, b);
    if a != root && b != root {
      var p, i := WhichChild(S, R, M, root, NoPend, a);
      var q, j := WhichChild(S, R, M, root, NoPend, b);
      ChildBounds(S[p], i, k);
      ChildBounds(S[q], j, k);
      assert NodeOk(S, R, M, root, NoPend, p);
      OneNode(S, R, M, root, p, q, k);
      OneChild(S[p], i, j, k);
    }
  }

  /** No child occurs twice in a node. */
  lemma DistinctChildren(S: Store, pend: Pend, n: Node, v: NodeVal, i: nat, j: nat)
    requires Ordered(v) && v.h > 0 && ChildrenOk(S, pend, n, v) && i < j < |v.ptrs|
    ensures v.ptrs[i] != v.ptrs[j]
  {
    assert ChildOk(S, pend, n, v, i) && ChildOk(S, pend, n, v, j);
    assert v.keys[i] <= v.keys[j - 1];
  }

  // ---- what a change elsewhere leaves alone ----

  /** What its parent and its left neighbour know of node c is the same in both stores. */
  ghost predicate Kept(S: Store, pend: Pend, S': Store, pend': Pend, c: Node)
    requires c in S
  {
    && c in S' && S'[c].parent == S[c].parent && S'[c].h == S[c].h && S'[c].lo == S[c].lo
    && Hi(S', pend', c) == Hi(S, pend, c)
  }

  lemma ChildrenKept(S: Store, pend: Pend, S': Store, pend': Pend, n: Node, v: NodeVal)
    requires n in S && v == S[n].(parent := v.parent) && ChildrenOk(S, pend, n, S[n])
    requires forall c {:trigger Kept(S, pend, S', pend', c)} | c in S && S[c].parent == n :: Kept(S, pend, S', pend', c)
    ensures ChildrenOk(S', pend', n, v)
  {
    forall i | 0 <= i < |v.ptrs| && i <= |v.keys| ensures ChildOk(S', pend', n, v, i) {
      assert ChildOk(S, pend, n, S[n], i);
      assert Kept(S, pend, S', pend', v.ptrs[i].node);
    }
  }

  /** A leaf keeps its place in the chain. */
  ghost predicate KeptLeaf(S: Store, S': Store, c: Node)
    requires c in S
  {
    S[c].h == 0 ==> c in S' && S'[c].h == 0 && S'[c].lo == S[c].lo
  }

  lemma NextKept(S: Store, S': Store, v: NodeVal)
    requires NextOk(S, v) && forall c {:trigger KeptLeaf(S, S', c)} | c in S :: KeptLeaf(S, S', c)
    ensures NextOk(S', v)
  {
    if !v.hi.PosInf? {
      assert KeptLeaf(S, S', v.next.node);
    }
  }

  /** Node p keeps its height and its children. */
  ghost predicate KeptParent(S: Store, S': Store, p: Node)
    requires p in S
  {
    p in S' && S'[p].h == S[p].h && (S[p].h > 0 ==> forall x | x in S[p].ptrs :: x in S'[p].ptrs)
  }

  lemma UpKept(S: Store, pend: Pend, S': Store, pend': Pend, root: Node, n: Node, v: NodeVal)
    requires UpOk(S, root, pend, n, v) && root in S && KeptParent(S, S', root)
    requires v.parent != null && v.parent in S ==> KeptParent(S, S', v.parent)
    requires pend.Pend? && n == pend.right ==> n == root || (pend'.Pend? && n == pend'.right)
    ensures UpOk(S', root, pend', n, v)
  {
  }

  /** A node that has not changed stays well-formed if what it refers to is kept. */
  lemma Untouched(S: Store, R: Records, M: Entries, pend: Pend,
                  S': Store, R': Records, M': Entries, pend': Pend, root: Node, n: Node)
    requires root in S && n in S && NodeOk(S, R, M, root, pend, n) && n in S' && S'[n] == S[n]
    requires S[n].h > 0 ==> forall c {:trigger Kept(S, pend, S', pend', c)} | c in S && S[c].parent == n ::
              Kept(S, pend, S', pend', c)
    requires S[n].h == 0 ==> EntriesOk(R', M', S[n]) && forall c {:trigger KeptLeaf(S, S', c)} | c in S ::
              KeptLeaf(S, S', c)
    requires KeptParent(S, S', root)
    requires S[n].parent != null && S[n].parent in S ==> KeptParent(S, S', S[n].parent)
    requires pend.Pend? && n == pend.right ==> n == root || (pend'.Pend? && n == pend'.right)
    ensures NodeOk(S', R', M', root, pend', n)
  {
    var v := S[n];
    if v.h > 0 {
      ChildrenKept(S, pend, S', pend', n, v);
    } else {
      NextKept(S, S', v);
    }
    UpKept(S, pend, S', pend', root, n, v);
  }

  /** Everything is kept, in all three senses. */
  ghost predicate AllKept(S: Store, pend: Pend, S': Store, pend': Pend) {
    forall c {:trigger KeptLeaf(S, S', c)} {:trigger Kept(S, pend, S', pend', c)}
      {:trigger KeptParent(S, S', c)} | c in S ::
      Kept(S, pend, S', pend', c) && KeptLeaf(S, S', c) && KeptParent(S, S', c)
  }

  lemma AllUntouched(S: Store, R: Records, M: Entries, pend: Pend,
                     S': Store, R': Records, M': Entries, pend': Pend, root: Node, n: Node)
    requires root in S && n in S && NodeOk(S, R, M, root, pend, n) && n in S' && S'[n] == S[n]
    requires S[n].h == 0 ==> EntriesOk(R', M', S[n])
    requires AllKept(S, pend, S', pend')
    requires pend.Pend? && n == pend.right ==> n == root || (pend'.Pend? && n == pend'.right)
    ensures NodeOk(S', R', M', root, pend', n)
  {
    Untouched(S, R, M, pend, S', R', M', pend', root, n);
  }

  /** A node that has only been given a new parent stays well-formed if it is that parent's child. */
  lemma Rehung(S: Store, R: Records, M: Entries, pend: Pend, root: Node, S': Store, pend': Pend, root': Node, n: Node)
    requires n in S && NodeOk(S, R, M, root, pend, n) && n in S' && S'[n] == S[n].(parent := S'[n].parent)
    requires S[n].h > 0 ==> forall c {:trigger Kept(S, pend, S', pend', c)} | c in S && S[c].parent == n ::
              Kept(S, pend, S', pend', c)
    requires S[n].h == 0 ==> forall c {:trigger KeptLeaf(S, S', c)} | c in S :: KeptLeaf(S, S', c)
    requires UpOk(S', root', pend', n, S'[n])
    ensures NodeOk(S', R, M, root', pend', n)
  {
    if S[n].h > 0 {
      ChildrenKept(S, pend, S', pend', n, S'[n]);
    } else {
      NextKept(S, S', S'[n]);
    }
  }
}
