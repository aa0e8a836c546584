/** What the steps of a deletion do to a well-formed tree. */
module BpShrink {
  import opened BpNode
  import opened BpStore
  import opened BpGrow

  // ---- an entry leaves its leaf ----

  function WithoutEntry(v: NodeVal, i: nat): NodeVal
    requires i < |v.keys| && i < |v.ptrs|
  {
    v.(keys := RemoveAt(v.keys, i), ptrs := RemoveAt(v.ptrs, i))
  }

  lemma RemoveSorted(keys: seq<int>, i: nat)
    requires Sorted(keys) && i < |keys|
    ensures Sorted(RemoveAt(keys, i))
    ensures forall k :: k in RemoveAt(keys, i) <==> k in keys && k != keys[i]
  {
  }

  lemma EntriesRemoved(R: Records, M: Entries, v: NodeVal, i: nat)
    requires v.h == 0 && Ordered(v) && EntriesOk(R, M, v) && i < |v.keys|
    ensures v.ptrs[i].ToRecord? && v.ptrs[i].rec.key == v.keys[i] && v.ptrs[i].rec in R
    ensures Ordered(WithoutEntry(v, i)) && EntriesOk(R - {v.ptrs[i].rec}, M - {v.keys[i]}, WithoutEntry(v, i))
  {
  }

  lemma RecsRemoved(R: Records, M: Entries, rec: Record)
    requires RecsOk(R, M) && rec in R
    ensures RecsOk(R - {rec}, M - {rec.key})
  {
  }

  lemma EntryRemoved(S: Store, R: Records, M: Entries, root: Node, leaf: Node, i: nat)
    requires Linked(S, R, M, root, NoPend) && leaf in S && S[leaf].h == 0 && i < |S[leaf].keys|
    ensures i < |S[leaf].ptrs| && S[leaf].ptrs[i].ToRecord?
    ensures Linked(S[leaf := WithoutEntry(S[leaf], i)], R - {S[leaf].ptrs[i].rec}, M - {S[leaf].keys[i]}, root, NoPend)
  {
    assert NodeOk(S, R, M, root, NoPend, leaf);
    var v := S[leaf];
    var key := v.keys[i];
    EntriesRemoved(R, M, v, i);
    RecsRemoved(R, M, v.ptrs[i].rec);
    var S', R', M' := S[leaf := WithoutEntry(v, i)], R - {v.ptrs[i].rec}, M - {key};
    assert AllKept(S, NoPend, S', NoPend);
    forall n | n in S' ensures NodeOk(S', R', M', root, NoPend, n) {
      assert NodeOk(S, R, M, root, NoPend, n);
      if n == leaf {
        NextKept(S, S', v);
        UpKept(S, NoPend, S', NoPend, root, n, v);
      } else {
        if S[n].h == 0 && In(key, S[n].lo, S[n].hi) {
          OneNode(S, R, M, root, n, leaf, key);
        }
        AllUntouched(S, R, M, NoPend, S', R', M', NoPend, root, n);
      }
    }
  }

  // ---- merging two siblings ----

  /** The node that takes over both siblings; `sep` is the parent's key between them. */
  function MergedVal(l: NodeVal, r: NodeVal, sep: int): NodeVal {
    if l.h == 0 then l.(keys := l.keys + r.keys, ptrs := l.ptrs + r.ptrs, next := r.next, hi := r.hi)
    else l.(keys := l.keys + [sep] + r.keys, ptrs := l.ptrs + r.ptrs, hi := r.hi)
  }

  function WithoutChild(v: NodeVal, j: nat): NodeVal
    requires j < |v.keys| && j + 1 < |v.ptrs|
  {
    v.(keys := RemoveAt(v.keys, j), ptrs := RemoveAt(v.ptrs, j + 1))
  }

  /** left and right are children j and j + 1 of p. */
  ghost predicate Siblings(S: Store, p: Node, j: nat, left: Node, right: Node) {
    && p in S && left in S && right in S && S[p].h > 0 && S[left].h == S[right].h
    && j < |S[p].keys| && j + 1 < |S[p].ptrs| && S[p].ptrs[j] == ToNode(left) && S[p].ptrs[j + 1] == ToNode(right)
  }

  /** right is absorbed by left and leaves the tree; an inner node's children move along. */
  function Merge(S: Store, p: Node, j: nat, left: Node, right: Node): Store
    requires p in S && left in S && right in S && j < |S[p].keys| && j + 1 < |S[p].ptrs|
  {
    (if S[left].h == 0 then S else Reparent(S, S[right].ptrs, left))
      [left := MergedVal(S[left], S[right], S[p].keys[j])][p := WithoutChild(S[p], j)] - {right}
  }

  /** What the parent says of two neighbouring children. */
  lemma SiblingFacts(S: Store, R: Records, M: Entries, root: Node, p: Node, j: nat, left: Node, right: Node)
    requires Linked(S, R, M, root, NoPend) && Siblings(S, p, j, left, right)
    ensures left != right && left != p && right != p && left != root && right != root
    ensures S[left].parent == p && S[right].parent == p && S[left].h + 1 == S[p].h
    ensures S[left].hi == At(S[p].keys[j]) == S[right].lo && S[right].hi == HiAt(S[p], j + 1)
    ensures Ordered(S[p]) && Ordered(S[left]) && Ordered(S[right]) && ChildrenOk(S, NoPend, p, S[p])
    ensures NodeOk(S, R, M, root, NoPend, left) && NodeOk(S, R, M, root, NoPend, right)
    ensures NodeOk(S, R, M, root, NoPend, p)
  {
    assert NodeOk(S, R, M, root, NoPend, p) && NodeOk(S, R, M, root, NoPend, left)
      && NodeOk(S, R, M, root, NoPend, right);
    assert ChildOk(S, NoPend, p, S[p], j) && ChildOk(S, NoPend, p, S[p], j + 1);
    DistinctChildren(S, NoPend, p, S[p], j, j + 1);
  }

  lemma MergedLeaf(R: Records, M: Entries, l: NodeVal, r: NodeVal, sep: int)
    requires l.h == 0 && r.h == 0 && Ordered(l) && Ordered(r) && l.hi == At(sep) == r.lo
    requires EntriesOk(R, M, l) && EntriesOk(R, M, r)
    ensures Ordered(MergedVal(l, r, sep)) && EntriesOk(R, M, MergedVal(l, r, sep))
  {
  }

  lemma MergedInner(S: Store, S': Store, left: Node, right: Node, sep: int)
    requires left in S && right in S && left != right && S[left].h > 0 && S[right].h == S[left].h
    requires Ordered(S[left]) && Ordered(S[right]) && S[left].hi == At(sep) == S[right].lo
    requires ChildrenOk(S, NoPend, left, S[left]) && ChildrenOk(S, NoPend, right, S[right])
    requires left in S' && S'[left] == MergedVal(S[left], S[right], sep)
    requires forall c | c in S && S[c].parent == left && c != left :: c in S' && S'[c] == S[c]
    requires forall c | c in S && S[c].parent == right && ToNode(c) in S[right].ptrs && c != left ::
               c in S' && S'[c] == S[c].(parent := left)
    ensures Ordered(S'[left]) && ChildrenOk(S', NoPend, left, S'[left])
  {
    var l, r, v := S[left], S[right], S'[left];
    var m := |l.keys|;
    assert forall i | 0 <= i < |v.keys| ::
      v.keys[i] == if i < m then l.keys[i] else if i == m then sep else r.keys[i - m - 1];
    forall i | 0 <= i < |v.ptrs| ensures ChildOk(S', NoPend, left, v, i) {
      if i <= m {
        assert ChildOk(S, NoPend, left, l, i);
        assert v.ptrs[i] == l.ptrs[i];
      } else {
        assert ChildOk(S, NoPend, right, r, i - m - 1);
        assert v.ptrs[i] == r.ptrs[i - m - 1] && r.ptrs[i - m - 1] in r.ptrs;
      }
    }
  }

  /** Two neighbouring leaf intervals do not end at the same key: only left precedes right in the chain. */
  lemma OnlyPredecessor(S: Store, R: Records, M: Entries, root: Node, left: Node, right: Node, n: Node)
    requires Linked(S, R, M, root, NoPend) && left in S && right in S && n in S && S[n].h == S[left].h
    requires S[n].hi == S[left].hi && S[left].hi.At?
    ensures n == left
  {
    assert NodeOk(S, R, M, root, NoPend, n) && NodeOk(S, R, M, root, NoPend, left);
    OneNode(S, R, M, root, n, left, S[left].hi.k - 1);
  }

  lemma MergeValues(S: Store, R: Records, M: Entries, root: Node, p: Node, j: nat, left: Node, right: Node, n: Node)
    requires Linked(S, R, M, root, NoPend) && Siblings(S, p, j, left, right)
    ensures var S' := Merge(S, p, j, left, right);
      && S'.Keys == S.Keys - {right} && left in S' && p in S'
      && S'[left] == MergedVal(S[left], S[right], S[p].keys[j]) && S'[p] == WithoutChild(S[p], j)
      && (n in S && n != left && n != p && n != right ==>
            S'[n] == if S[left].h > 0 && ToNode(n) in S[right].ptrs then S[n].(parent := left) else S[n])
  {
    SiblingFacts(S, R, M, root, p, j, left, right);
  }

  /** The children of right are not p, left or right, and no other node has one. */
  lemma RightsChild(S: Store, R: Records, M: Entries, root: Node, p: Node, j: nat, left: Node, right: Node, c: Node)
    requires Linked(S, R, M, root, NoPend) && Siblings(S, p, j, left, right)
    requires S[left].h > 0 && ToNode(c) in S[right].ptrs
    ensures c in S && S[c].parent == right && c != left && c != right && c != p && c != root
  {
    SiblingFacts(S, R, M, root, p, j, left, right);
    ChildHas(S, NoPend, right, S[right], c);
  }

  lemma MergeKeeps(S: Store, R: Records, M: Entries, root: Node, p: Node, j: nat, left: Node, right: Node, c: Node)
    requires Linked(S, R, M, root, NoPend) && Siblings(S, p, j, left, right) && c in S && c != right
    ensures var S' := Merge(S, p, j, left, right);
      && c in S' && S'[c].h == S[c].h && S'[c].lo == S[c].lo
      && (c != left ==> S'[c].hi == S[c].hi)
      && (S[c].parent != right || S[left].h == 0 ==> S'[c].parent == S[c].parent)
      && KeptLeaf(S, S', c)
      && (c != p ==> KeptParent(S, S', c))
  {
    SiblingFacts(S, R, M, root, p, j, left, right);
    MergeValues(S, R, M, root, p, j, left, right, c);
    if S[left].h > 0 && ToNode(c) in S[right].ptrs {
      RightsChild(S, R, M, root, p, j, left, right, c);
    }
  }

  lemma MergedChildren(S: Store, R: Records, M: Entries, root: Node, p: Node, j: nat, left: Node, right: Node)
    requires Linked(S, R, M, root, NoPend) && Siblings(S, p, j, left, right)
    ensures var S' := Merge(S, p, j, left, right); p in S' && Ordered(S'[p]) && ChildrenOk(S', NoPend, p, S'[p])
  {
    SiblingFacts(S, R, M, root, p, j, left, right);
    MergeValues(S, R, M, root, p, j, left, right, p);
    var S' := Merge(S, p, j, left, right);
    var v, v' := S[p], S'[p];
    RemoveSorted(v.keys, j);
    forall i | 0 <= i < |v'.ptrs| ensures ChildOk(S', NoPend, p, v', i) {
      var i' := if i <= j then i else i + 1;
      assert v'.ptrs[i] == v.ptrs[i'];
      assert ChildOk(S, NoPend, p, v, i');
      if i < j {
        DistinctChildren(S, NoPend, p, v, i, j);
      } else if i > j {
        DistinctChildren(S, NoPend, p, v, j, i');
      }
      if i != j {
        if i < j {
          DistinctChildren(S, NoPend, p, v, i, j + 1);
        } else {
          DistinctChildren(S, NoPend, p, v, j + 1, i');
        }
      }
      MergeKeeps(S, R, M, root, p, j, left, right, v.ptrs[i'].node);
      MergeValues(S, R, M, root, p, j, left, right, v.ptrs[i'].node);
    }
  }

  lemma UpOf(S: Store, R: Records, M: Entries, root: Node, n: Node)
    requires Linked(S, R, M, root, NoPend) && n in S
    ensures root in S && UpOk(S, root, NoPend, n, S[n])
  {
    assert NodeOk(S, R, M, root, NoPend, n);
  }

  lemma MergedUp(S: Store, R: Records, M: Entries, root: Node, p: Node, j: nat, left: Node, right: Node, n: Node)
    requires Linked(S, R, M, root, NoPend) && Siblings(S, p, j, left, right) && n in S && n != right
    ensures var S' := Merge(S, p, j, left, right); n in S' && UpOk(S', root, NoPend, n, S'[n])
  {
    hide Linked, Ordered, Merge;
    SiblingFacts(S, R, M, root, p, j, left, right);
    UpOf(S, R, M, root, n);
    var S' := Merge(S, p, j, left, right);
    MergeKeeps(S, R, M, root, p, j, left, right, n);
    MergeKeeps(S, R, M, root, p, j, left, right, root);
    MergeValues(S, R, M, root, p, j, left, right, n);
    if n != root {
      var q, i := WhichChild(S, R, M, root, NoPend, n);
      if q == p {
        var i' := if i <= j then i else i - 1;
        assert S'[p].ptrs[i'] == ToNode(n);
        RightsNotHere(S, R, M, root, p, j, left, right, n);
      } else if q == right {
        assert ToNode(n) in S[right].ptrs;
        assert S'[left].ptrs[|S[left].ptrs| + i] == ToNode(n);
      } else {
        MergeKeeps(S, R, M, root, p, j, left, right, q);
        assert ToNode(n) in S[q].ptrs;
      }
    }
  }

  lemma RightsNotHere(S: Store, R: Records, M: Entries, root: Node, p: Node, j: nat, left: Node, right: Node, n: Node)
    requires Linked(S, R, M, root, NoPend) && Siblings(S, p, j, left, right) && n in S && S[n].parent != right
    ensures S[left].h > 0 ==> ToNode(n) !in S[right].ptrs
  {
    if S[left].h > 0 && ToNode(n) in S[right].ptrs {
      RightsChild(S, R, M, root, p, j, left, right, n);
    }
  }

  lemma MergedNode(S: Store, R: Records, M: Entries, root: Node, p: Node, j: nat, left: Node, right: Node)
    requires Linked(S, R, M, root, NoPend) && Siblings(S, p, j, left, right)
    ensures var S' := Merge(S, p, j, left, right); left in S' && NodeOk(S', R, M, root, NoPend, left)
  {
    SiblingFacts(S, R, M, root, p, j, left, right);
    var S', sep := Merge(S, p, j, left, right), S[p].keys[j];
    MergeValues(S, R, M, root, p, j, left, right, left);
    MergedUp(S, R, M, root, p, j, left, right, left);
    if S[left].h == 0 {
      MergedLeaf(R, M, S[left], S[right], sep);
      if !S[right].hi.PosInf? {
        MergeKeeps(S, R, M, root, p, j, left, right, S[right].next.node);
      }
    } else {
      forall c | c in S && S[c].parent == left && c != left ensures c in S' && S'[c] == S[c] {
        assert c != right && c != p by { NotOwnParent(S, root, p); ParentHigher(S, R, M, root, c); }
        MergeValues(S, R, M, root, p, j, left, right, c);
        RightsNotHere(S, R, M, root, p, j, left, right, c);
      }
      forall c | c in S && S[c].parent == right && ToNode(c) in S[right].ptrs && c != left
        ensures c in S' && S'[c] == S[c].(parent := left)
      {
        RightsChild(S, R, M, root, p, j, left, right, c);
        MergeValues(S, R, M, root, p, j, left, right, c);
      }
      MergedInner(S, S', left, right, sep);
    }
  }

  lemma ParentHigher(S: Store, R: Records, M: Entries, root: Node, c: Node)
    requires Linked(S, R, M, root, NoPend) && c in S
    ensures S[c].parent != null && S[c].parent in S ==> S[S[c].parent].h == S[c].h + 1
  {
    if c != root {
      var q, i := WhichChild(S, R, M, root, NoPend, c);
    }
  }

  /** Merging two neighbouring children keeps the tree well-formed. */
  lemma Merged(S: Store, R: Records, M: Entries, root: Node, p: Node, j: nat, left: Node, right: Node)
    requires Linked(S, R, M, root, NoPend) && Siblings(S, p, j, left, right)
    ensures Linked(Merge(S, p, j, left, right), R, M, root, NoPend)
  {
    SiblingFacts(S, R, M, root, p, j, left, right);
    var S' := Merge(S, p, j, left, right);
    MergeKeeps(S, R, M, root, p, j, left, right, root);
    forall n | n in S' ensures NodeOk(S', R, M, root, NoPend, n) {
      MergeValues(S, R, M, root, p, j, left, right, n);
      MergedUp(S, R, M, root, p, j, left, right, n);
      if n == left {
        MergedNode(S, R, M, root, p, j, left, right);
      } else if n == p {
        MergedChildren(S, R, M, root, p, j, left, right);
      } else {
        MergedOther(S, R, M, root, p, j, left, right, n);
      }
    }
  }

  lemma MergedOther(S: Store, R: Records, M: Entries, root: Node, p: Node, j: nat, left: Node, right: Node, n: Node)
    requires Linked(S, R, M, root, NoPend) && Siblings(S, p, j, left, right) && n in S && n != left && n != right
    requires n != p
    ensures var S' := Merge(S, p, j, left, right); n in S' && NodeOk(S', R, M, root, NoPend, n)
  {
    SiblingFacts(S, R, M, root, p, j, left, right);
    assert NodeOk(S, R, M, root, NoPend, n);
    var S' := Merge(S, p, j, left, right);
    MergeValues(S, R, M, root, p, j, left, right, n);
    MergedUp(S, R, M, root, p, j, left, right, n);
    var v := S[n];
    if v.h == 0 {
      if !v.hi.PosInf? {
        if v.next.node == right {
          OnlyPredecessor(S, R, M, root, left, right, n);
        }
        MergeKeeps(S, R, M, root, p, j, left, right, v.next.node);
      }
    } else {
      forall i | 0 <= i < |v.ptrs| && i <= |v.keys| ensures ChildOk(S', NoPend, n, S'[n], i) {
        assert ChildOk(S, NoPend, n, v, i);
        MergeKeeps(S, R, M, root, p, j, left, right, v.ptrs[i].node);
      }
    }
  }

  // ---- moving entries between siblings: merge, then split again in another place ----

  function Resplit(S: Store, p: Node, j: nat, left: Node, right: Node, s: nat): Store
    requires Siblings(S, p, j, left, right) && left != right && left != p && right != p
    requires |S[left].ptrs| + |S[right].ptrs| >= s + 1
    requires s < |MergedVal(S[left], S[right], S[p].keys[j]).keys|
  {
    var S1 := Merge(S, p, j, left, right);
    var S2 := if S[left].h == 0 then S1[left := LeftHalf(S1[left], s, right)][right := RightHalf(S1[left], s)]
              else SplitInner(S1, left, s, right);
    if j < |S2[p].ptrs| && j <= |S2[p].keys| && S2[right].lo.At? then
      S2[p := WithChild(S2[p], j, S2[right].lo.k, right)]
    else S2
  }

  /** Moving the boundary between two neighbouring children keeps the tree well-formed. */
  lemma Resplits(S: Store, R: Records, M: Entries, root: Node, p: Node, j: nat, left: Node, right: Node, s: nat)
    requires Linked(S, R, M, root, NoPend) && Siblings(S, p, j, left, right)
    requires 0 < s < |MergedVal(S[left], S[right], S[p].keys[j]).keys|
    ensures left != right && left != p && right != p && |S[left].ptrs| + |S[right].ptrs| >= s + 1
    ensures Linked(Resplit(S, p, j, left, right, s), R, M, root, NoPend)
  {
    SiblingFacts(S, R, M, root, p, j, left, right);
    Merged(S, R, M, root, p, j, left, right);
    var S1 := Merge(S, p, j, left, right);
    MergeValues(S, R, M, root, p, j, left, right, left);
    assert NodeOk(S1, R, M, root, NoPend, left) && NodeOk(S1, R, M, root, NoPend, p);
    if S[left].h == 0 {
      LeafSplit(S1, R, M, root, left, s, right);
      var S2: Store := S1[left := LeftHalf(S1[left], s, right)][right := RightHalf(S1[left], s)];
      ChildAdded(S2, R, M, root, p, j, left, right);
    } else {
      InnerSplit(S1, R, M, root, left, s, right);
      if ToNode(p) in S1[left].ptrs {
        ChildHas(S1, NoPend, left, S1[left], p);
      }
      ChildAdded(SplitInner(S1, left, s, right), R, M, root, p, j, left, right);
    }
  }

  // ---- collapsing the root ----

  function Collapse(S: Store, root: Node, c: Node): Store
    requires c in S
  {
    S[c := S[c].(parent := null)] - {root}
  }

  /** A root left with a single child gives way to it. */
  lemma Collapsed(S: Store, R: Records, M: Entries, root: Node, c: Node)
    requires Linked(S, R, M, root, NoPend) && S[root].h > 0 && S[root].keys == [] && S[root].ptrs == [ToNode(c)]
    ensures c in S && c != root && S[c].parent == root
    ensures Linked(Collapse(S, root, c), R, M, c, NoPend)
  {
    assert NodeOk(S, R, M, root, NoPend, root);
    assert ChildOk(S, NoPend, root, S[root], 0);
    var S' := Collapse(S, root, c);
    forall n | n in S' ensures NodeOk(S', R, M, c, NoPend, n) {
      assert NodeOk(S, R, M, root, NoPend, n);
      var v := S[n];
      if v.h == 0 {
        if !v.hi.PosInf? {
          assert S'[v.next.node].h == 0;
        }
      } else {
        forall i | 0 <= i < |v.ptrs| && i <= |v.keys| ensures ChildOk(S', NoPend, n, S'[n], i) {
          assert ChildOk(S, NoPend, n, v, i);
        }
      }
      if n != c {
        OnlyChildBelow(S, R, M, root, c, n);
      }
    }
  }

  /** Below a root with one child, every other node is lower than that child. */
  lemma OnlyChildBelow(S: Store, R: Records, M: Entries, root: Node, c: Node, n: Node)
    requires Linked(S, R, M, root, NoPend) && S[root].h > 0 && S[root].keys == [] && S[root].ptrs == [ToNode(c)]
    requires n in S && n != root && n != c && c in S && S[c].h + 1 == S[root].h
    ensures S[n].h < S[c].h && S[n].parent != root
  {
    var q, i := WhichChild(S, R, M, root, NoPend, n);
    assert NodeOk(S, R, M, root, NoPend, q);
  }
}
