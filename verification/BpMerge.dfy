/** Merging two siblings in memory. */
module BpMerge {
  import opened BpNode
  import opened BpStore
  import opened BpGrow
  import opened BpShrink
  import opened BpArrays
  import opened BpHeap

  /** left has taken over right's entries; nothing else is done yet. */
  ghost function Absorbed(S: Store, p: Node, j: nat, left: Node, right: Node): Store
    requires Siblings(S, p, j, left, right)
  {
    S[left := MergedVal(S[left], S[right], S[p].keys[j])] - {right}
  }

  /** Once the children have their new parent, only the entry of p is left to be removed. */
  lemma AbsorbedNodes(S: Store, R: Records, M: Entries, root: Node, p: Node, j: nat, left: Node, right: Node)
    requires Linked(S, R, M, root, NoPend) && Siblings(S, p, j, left, right) && S[left].h > 0
    requires left != right && left != p && right != p
    ensures left in Absorbed(S, p, j, left, right)
    ensures NodesOf(Absorbed(S, p, j, left, right), S[left].ptrs + S[right].ptrs)
  {
    SiblingFacts(S, R, M, root, p, j, left, right);
    var T, ptrs := Absorbed(S, p, j, left, right), S[left].ptrs + S[right].ptrs;
    forall i | 0 <= i < |ptrs| ensures ptrs[i].ToNode? && ptrs[i].node in T {
      if i < |S[left].ptrs| {
        assert ChildOk(S, NoPend, left, S[left], i);
        ParentHigher(S, R, M, root, right);
      } else {
        assert ChildOk(S, NoPend, right, S[right], i - |S[left].ptrs|);
        assert S[right].ptrs[i - |S[left].ptrs|] in S[right].ptrs;
        RightsChild(S, R, M, root, p, j, left, right, ptrs[i].node);
      }
    }
  }

  lemma AbsorbedRehung(S: Store, R: Records, M: Entries, root: Node, p: Node, j: nat, left: Node, right: Node)
    requires Linked(S, R, M, root, NoPend) && Siblings(S, p, j, left, right)
    ensures left != right && left != p && right != p && left in Absorbed(S, p, j, left, right)
    ensures var T, ptrs := Absorbed(S, p, j, left, right), S[left].ptrs + S[right].ptrs;
      && Merge(S, p, j, left, right)[p := S[p]] == (if S[left].h == 0 then T else Reparent(T, ptrs, left))
      && (S[left].h > 0 ==> NodesOf(T, ptrs))
  {
    SiblingFacts(S, R, M, root, p, j, left, right);
    var T, ptrs := Absorbed(S, p, j, left, right), S[left].ptrs + S[right].ptrs;
    var U: Store := Merge(S, p, j, left, right)[p := S[p]];
    if S[left].h > 0 {
      AbsorbedNodes(S, R, M, root, p, j, left, right);
      var V := Reparent(T, ptrs, left);
      forall m | m in V ensures m in U && U[m] == V[m] {
        AbsorbedAt(S, R, M, root, p, j, left, right, m);
      }
    } else {
      forall m | m in T ensures m in U && U[m] == T[m] {
      }
    }
  }

  lemma AbsorbedAt(S: Store, R: Records, M: Entries, root: Node, p: Node, j: nat, left: Node, right: Node, m: Node)
    requires Linked(S, R, M, root, NoPend) && Siblings(S, p, j, left, right) && S[left].h > 0 && m in S && m != right
    ensures var V, U := Reparent(Absorbed(S, p, j, left, right), S[left].ptrs + S[right].ptrs, left),
              Merge(S, p, j, left, right);
      m in V && m in U && V[m] == if m == p then S[p] else U[m]
  {
    SiblingFacts(S, R, M, root, p, j, left, right);
    if ToNode(m) in S[left].ptrs {
      ChildHas(S, NoPend, left, S[left], m);
      RightsNotHere(S, R, M, root, p, j, left, right, m);
    } else if ToNode(m) in S[right].ptrs {
      RightsChild(S, R, M, root, p, j, left, right, m);
    }
    MergeValues(S, R, M, root, p, j, left, right, m);
  }

  /** The arrays of the two siblings are joined. */
  method Join(left: Node, right: Node, kPrime: int, order: nat, ghost S: Store, ghost p: Node, ghost j: nat)
    requires Stored(S, order) && Siblings(S, p, j, left, right) && left != right && kPrime == S[p].keys[j]
    requires |S[left].keys| + |S[right].keys| < (if S[left].h == 0 then order else order - 1)
    modifies left`numKeys, left.keys, left.pointers, right`numKeys
    ensures Stored(Absorbed(S, p, j, left, right), order)
  {
    assert Shows(left, S[left], order) && Shows(right, S[right], order) && Distinct(left, right);
    if right.isLeaf {
      CoalesceLeaves(left, right, order, S[left], S[right], kPrime);
    } else {
      CoalesceInner(left, right, kPrime, order, S[left], S[right]);
    }
    ghost var T := Absorbed(S, p, j, left, right);
    forall m | m in T ensures Shows(m, T[m], order) {
      if m != left {
        assert Distinct(m, left) && Distinct(m, right) && old(Shows(m, S[m], order));
      }
    }
  }

  /** coalesce_nodes up to its last call: only the parent still has to give up its entry. */
  method Absorb(left: Node, right: Node, kPrime: int, order: nat, ghost S: Store, ghost R: Records, ghost M: Entries,
                ghost root: Node, ghost p: Node, ghost j: nat)
    requires Stored(S, order) && Linked(S, R, M, root, NoPend) && Siblings(S, p, j, left, right)
    requires kPrime == S[p].keys[j]
    requires |S[left].keys| + |S[right].keys| < (if S[left].h == 0 then order else order - 1)
    modifies left`numKeys, left.keys, left.pointers, right`numKeys, S.Keys`parent
    ensures right !in Merge(S, p, j, left, right) && p in Merge(S, p, j, left, right)
    ensures Stored(Merge(S, p, j, left, right)[p := S[p]], order)
  {
    AbsorbedRehung(S, R, M, root, p, j, left, right);
    hide Linked, Merge, Reparent;
    assert Shows(right, S[right], order);
    var leaf := right.isLeaf;
    Join(left, right, kPrime, order, S, p, j);
    ghost var T := Absorbed(S, p, j, left, right);
    assert Shows(left, T[left], order);
    if !leaf {
      Rehang(left, order, T, T[left].ptrs);
    }
  }
}
