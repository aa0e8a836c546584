/** What the steps of an insertion do to a well-formed tree. */
module BpGrow {
  import opened BpNode
  import opened BpStore

  // ---- a new entry in a leaf ----

  function WithEntry(v: NodeVal, i: nat, key: int, rec: Record): NodeVal
    requires i <= |v.keys| && i <= |v.ptrs|
  {
    v.(keys := InsertAt(v.keys, i, key), ptrs := InsertAt(v.ptrs, i, ToRecord(rec)))
  }

  /** i is where key belongs among the sorted keys of a node that does not have it. */
  predicate Place(keys: seq<int>, i: nat, key: int) {
    && i <= |keys|
    && (forall j | 0 <= j < i :: keys[j] < key)
    && (forall j | i <= j < |keys| :: key < keys[j])
  }

  lemma InsertSorted(keys: seq<int>, i: nat, key: int)
    requires Sorted(keys) && Place(keys, i, key)
    ensures Sorted(InsertAt(keys, i, key))
    ensures forall k :: k in InsertAt(keys, i, key) <==> k == key || k in keys
  {
  }

  lemma EntriesAdded(R: Records, M: Entries, v: NodeVal, i: nat, rec: Record, value: int)
    requires v.h == 0 && Ordered(v) && EntriesOk(R, M, v) && In(rec.key, v.lo, v.hi) && Place(v.keys, i, rec.key)
    ensures Ordered(WithEntry(v, i, rec.key, rec))
    ensures EntriesOk(R[rec := value], M[rec.key := value], WithEntry(v, i, rec.key, rec))
  {
    InsertSorted(v.keys, i, rec.key);
  }

  lemma EntryAdded(S: Store, R: Records, M: Entries, root: Node, leaf: Node, i: nat, rec: Record, value: int)
    requires Linked(S, R, M, root, NoPend) && leaf in S && S[leaf].h == 0
    requires In(rec.key, S[leaf].lo, S[leaf].hi) && Place(S[leaf].keys, i, rec.key) && rec !in R && rec.key !in M
    ensures |S[leaf].ptrs| == |S[leaf].keys|
    ensures Linked(S[leaf := WithEntry(S[leaf], i, rec.key, rec)], R[rec := value], M[rec.key := value], root, NoPend)
  {
    assert NodeOk(S, R, M, root, NoPend, leaf);
    var v := S[leaf];
    var S', R', M' := S[leaf := WithEntry(v, i, rec.key, rec)], R[rec := value], M[rec.key := value];
    EntriesAdded(R, M, v, i, rec, value);
    assert AllKept(S, NoPend, S', NoPend);
    hide AllKept, Sorted;
    forall n | n in S' ensures NodeOk(S', R', M', root, NoPend, n) {
      assert NodeOk(S, R, M, root, NoPend, n);
      if n == leaf {
        NextKept(S, S', v);
        UpKept(S, NoPend, S', NoPend, root, n, v);
      } else {
        if S[n].h == 0 && In(rec.key, S[n].lo, S[n].hi) {
          OneNode(S, R, M, root, n, leaf, rec.key);
        }
        AllUntouched(S, R, M, NoPend, S', R', M', NoPend, root, n);
      }
    }
  }

  // ---- splitting an overfull leaf ----

  function LeftHalf(v: NodeVal, s: nat, right: Node): NodeVal
    requires s < |v.keys| && s <= |v.ptrs|
  {
    v.(keys := v.keys[..s], ptrs := v.ptrs[..s], next := ToNode(right), hi := At(v.keys[s]))
  }

  function RightHalf(v: NodeVal, s: nat): NodeVal
    requires s < |v.keys| && s <= |v.ptrs|
  {
    NodeVal(v.keys[s..], v.ptrs[s..], v.next, v.parent, 0, At(v.keys[s]), v.hi)
  }

  lemma HalvesOk(R: Records, M: Entries, v: NodeVal, s: nat, right: Node)
    requires v.h == 0 && Ordered(v) && EntriesOk(R, M, v) && 0 < s < |v.keys|
    ensures Ordered(LeftHalf(v, s, right)) && EntriesOk(R, M, LeftHalf(v, s, right))
    ensures Ordered(RightHalf(v, s)) && EntriesOk(R, M, RightHalf(v, s))
  {
    forall k | k in M && In(k, v.lo, v.hi) ensures k in (if k < v.keys[s] then v.keys[..s] else v.keys[s..]) {
      var j :| 0 <= j < |v.keys| && v.keys[j] == k;
      if k < v.keys[s] {
        assert v.keys[..s][j] == k;
      } else {
        assert v.keys[s..][j - s] == k;
      }
    }
    assert v.keys[0] < v.keys[s];
  }

  lemma SplitKeeps(S: Store, leaf: Node, s: nat, right: Node)
    requires leaf in S && S[leaf].h == 0 && right !in S && s < |S[leaf].keys| && s <= |S[leaf].ptrs|
    ensures AllKept(S, NoPend, S[leaf := LeftHalf(S[leaf], s, right)][right := RightHalf(S[leaf], s)],
              Pend(leaf, right))
  {
  }

  lemma LeafSplit(S: Store, R: Records, M: Entries, root: Node, leaf: Node, s: nat, right: Node)
    requires Linked(S, R, M, root, NoPend) && leaf in S && S[leaf].h == 0 && right !in S
    requires 0 < s < |S[leaf].keys| && |S[leaf].ptrs| == |S[leaf].keys|
    ensures Linked(S[leaf := LeftHalf(S[leaf], s, right)][right := RightHalf(S[leaf], s)], R, M, root,
              Pend(leaf, right))
  {
    assert NodeOk(S, R, M, root, NoPend, leaf);
    var v := S[leaf];
    var S', pend := S[leaf := LeftHalf(v, s, right)][right := RightHalf(v, s)], Pend(leaf, right);
    HalvesOk(R, M, v, s, right);
    SplitKeeps(S, leaf, s, right);
    NextKept(S, S', v);
    assert NodeOk(S', R, M, root, pend, right);
    UpKept(S, NoPend, S', pend, root, leaf, v);
    assert NodeOk(S', R, M, root, pend, leaf);
    forall n | n in S' ensures NodeOk(S', R, M, root, pend, n) {
      if n != right && n != leaf {
        assert NodeOk(S, R, M, root, NoPend, n);
        AllUntouched(S, R, M, NoPend, S', R, M, pend, root, n);
      }
    }
  }

  // ---- telling the parent ----

  function WithChild(v: NodeVal, i: nat, key: int, right: Node): NodeVal
    requires i <= |v.keys| && i < |v.ptrs|
  {
    v.(keys := InsertAt(v.keys, i, key), ptrs := InsertAt(v.ptrs, i + 1, ToNode(right)))
  }

  lemma ChildPlace(v: NodeVal, i: nat, key: int)
    requires Ordered(v) && v.h > 0 && i <= |v.keys| && Less(LoAt(v, i), At(key)) && Below(key, HiAt(v, i))
    ensures Place(v.keys, i, key)
  {
  }

  lemma ChildrenAdded(S: Store, S': Store, p: Node, i: nat, left: Node, right: Node)
    requires left in S && right in S && left != right && p in S && Ordered(S[p]) && S[p].h > 0
    requires ChildrenOk(S, Pend(left, right), p, S[p]) && i <= |S[p].keys| && S[p].ptrs[i] == ToNode(left)
    requires S[left].hi == S[right].lo && S[right].lo.At? && S[right].h == S[left].h && S[right].parent == p
    requires p != left && p != right && S' == S[p := WithChild(S[p], i, S[right].lo.k, right)]
    ensures ChildrenOk(S', NoPend, p, S'[p])
  {
    var pend, v, v' := Pend(left, right), S[p], S'[p];
    assert ChildOk(S, pend, p, v, i);
    forall j | 0 <= j < |v'.ptrs| ensures ChildOk(S', NoPend, p, v', j) {
      if j <= i {
        assert ChildOk(S, pend, p, v, j);
        if j < i {
          DistinctChildren(S, pend, p, v, j, i);
        }
      } else if j > i + 1 {
        assert ChildOk(S, pend, p, v, j - 1);
        DistinctChildren(S, pend, p, v, i, j - 1);
      }
    }
  }

  lemma InsertKeeps<T>(s: seq<T>, i: nat, x: T)
    requires i <= |s|
    ensures x in InsertAt(s, i, x) && forall y | y in s :: y in InsertAt(s, i, x)
  {
  }

  /** A node other than the parent stays well-formed when its parent is told of a split. */
  lemma OthersKeep(S: Store, R: Records, M: Entries, root: Node, p: Node, i: nat, left: Node, right: Node, n: Node)
    requires Linked(S, R, M, root, Pend(left, right)) && p in S && S[left].parent == p && left != root && n in S
    requires n != p
    requires i < |S[p].ptrs| == |S[p].keys| + 1 && S[p].ptrs[i] == ToNode(left) && S[p].h == S[left].h + 1
    ensures NodeOk(S[p := WithChild(S[p], i, S[right].lo.k, right)], R, M, root, NoPend, n)
  {
    var pend, v := Pend(left, right), S[p];
    InsertKeeps(v.ptrs, i + 1, ToNode(right));
    assert NodeOk(S, R, M, root, pend, n) && NodeOk(S, R, M, root, pend, left);
    var S': Store := S[p := WithChild(v, i, S[right].lo.k, right)];
    hide Linked, Ordered, InsertAt;
    if n != right {
      Untouched(S, R, M, pend, S', R, M, NoPend, root, n);
    } else if S[n].h == 0 {
      NextKept(S, S', S[n]);
    } else {
      ChildrenKept(S, pend, S', NoPend, n, S[n]);
    }
  }

  /** The right half of a split becomes its parent's child, next to the left half. */
  lemma ChildAdded(S: Store, R: Records, M: Entries, root: Node, p: Node, i: nat, left: Node, right: Node)
    requires Linked(S, R, M, root, Pend(left, right)) && p in S && S[left].parent == p && left != root
    requires i < |S[p].ptrs| && S[p].ptrs[i] == ToNode(left) && S[p].h == S[left].h + 1
    ensures |S[p].ptrs| == |S[p].keys| + 1
    ensures Linked(S[p := WithChild(S[p], i, S[right].lo.k, right)], R, M, root, NoPend)
  {
    var pend := Pend(left, right);
    assert NodeOk(S, R, M, root, pend, p) && NodeOk(S, R, M, root, pend, left) && NodeOk(S, R, M, root, pend, right);
    var v, key := S[p], S[right].lo.k;
    assert ChildOk(S, pend, p, v, i);
    ChildPlace(v, i, key);
    InsertSorted(v.keys, i, key);
    InsertKeeps(v.ptrs, i + 1, ToNode(right));
    var S' := S[p := WithChild(v, i, key, right)];
    ChildrenAdded(S, S', p, i, left, right);
    UpKept(S, pend, S', NoPend, root, p, v);
    assert NodeOk(S', R, M, root, NoPend, p);
    forall n | n in S' ensures NodeOk(S', R, M, root, NoPend, n) {
      if n != p {
        OthersKeep(S, R, M, root, p, i, left, right, n);
      }
    }
  }

  // ---- splitting an overfull inner node ----

  /** The children among ptrs are hung under q. */
  function Reparent(S: Store, ptrs: seq<Ptr>, q: Node): (S': Store)
    ensures S'.Keys == S.Keys
  {
    map n | n in S :: if ToNode(n) in ptrs then S[n].(parent := q) else S[n]
  }

  function LeftPart(v: NodeVal, s: nat): NodeVal
    requires s < |v.keys| && s + 1 <= |v.ptrs|
  {
    v.(keys := v.keys[..s], ptrs := v.ptrs[..s + 1], hi := At(v.keys[s]))
  }

  function RightPart(v: NodeVal, s: nat): NodeVal
    requires s < |v.keys| && s + 1 <= |v.ptrs|
  {
    NodeVal(v.keys[s + 1..], v.ptrs[s + 1..], Null, v.parent, v.h, At(v.keys[s]), v.hi)
  }

  function SplitInner(S: Store, p: Node, s: nat, q: Node): Store
    requires p in S && s < |S[p].keys| && s + 1 <= |S[p].ptrs|
  {
    Reparent(S, S[p].ptrs[s + 1..], q)[p := LeftPart(S[p], s)][q := RightPart(S[p], s)]
  }

  /** Every pointer of an inner node is to a node whose parent it is. */
  lemma ChildHas(S: Store, pend: Pend, p: Node, v: NodeVal, c: Node)
    requires Ordered(v) && v.h > 0 && ChildrenOk(S, pend, p, v) && ToNode(c) in v.ptrs
    ensures c in S && S[c].parent == p && S[c].h + 1 == v.h
  {
    var i :| 0 <= i < |v.ptrs| && v.ptrs[i] == ToNode(c);
    assert ChildOk(S, pend, p, v, i);
  }

  lemma PartsChildren(S: Store, p: Node, s: nat, q: Node, S': Store)
    requires p in S && q !in S && Ordered(S[p]) && S[p].h > 0 && ChildrenOk(S, NoPend, p, S[p]) && s < |S[p].keys|
    requires S' == SplitInner(S, p, s, q)
    ensures ChildrenOk(S', Pend(p, q), p, S'[p]) && ChildrenOk(S', Pend(p, q), q, S'[q])
    ensures Ordered(S'[p]) && Ordered(S'[q])
  {
    var v, pend := S[p], Pend(p, q);
    forall i | 0 <= i <= s ensures ChildOk(S', pend, p, S'[p], i) {
      assert ChildOk(S, NoPend, p, v, i);
      if ToNode(v.ptrs[i].node) in v.ptrs[s + 1..] {
        var j :| 0 <= j < |v.ptrs[s + 1..]| && v.ptrs[s + 1..][j] == v.ptrs[i];
        DistinctChildren(S, NoPend, p, v, i, s + 1 + j);
      }
    }
    forall i | 0 <= i < |S'[q].ptrs| ensures ChildOk(S', pend, q, S'[q], i) {
      assert ChildOk(S, NoPend, p, v, s + 1 + i);
      assert v.ptrs[s + 1..][i] == v.ptrs[s + 1 + i];
    }
  }

  lemma SplitInnerKeeps(S: Store, p: Node, s: nat, q: Node, S': Store)
    requires p in S && q !in S && Ordered(S[p]) && S[p].h > 0 && ChildrenOk(S, NoPend, p, S[p]) && s < |S[p].keys|
    requires S' == SplitInner(S, p, s, q) && S[p].parent != p
    ensures forall c {:trigger Kept(S, NoPend, S', Pend(p, q), c)} | c in S && S[c].parent != p ::
              Kept(S, NoPend, S', Pend(p, q), c)
    ensures forall c {:trigger KeptLeaf(S, S', c)} | c in S :: KeptLeaf(S, S', c)
    ensures forall c {:trigger KeptParent(S, S', c)} | c in S && c != p :: KeptParent(S, S', c)
  {
    forall c | c in S && S[c].parent != p ensures Kept(S, NoPend, S', Pend(p, q), c) {
      if ToNode(c) in S[p].ptrs[s + 1..] {
        ChildHas(S, NoPend, p, S[p], c);
      }
    }
  }

  lemma NotOwnParent(S: Store, root: Node, p: Node)
    requires p in S && Ordered(S[p]) && S[p].h > 0 && ChildrenOk(S, NoPend, p, S[p]) && UpOk(S, root, NoPend, p, S[p])
    requires root in S && S[root].parent == null
    ensures S[p].parent != p
  {
    if p != root && S[p].parent == p {
      ChildHas(S, NoPend, p, S[p], p);
    }
  }

  /** The two parts of an inner node are a pending split, and the upper children hang under the right part. */
  lemma InnerSplit(S: Store, R: Records, M: Entries, root: Node, p: Node, s: nat, q: Node)
    requires Linked(S, R, M, root, NoPend) && p in S && S[p].h > 0 && q !in S && s < |S[p].keys|
    ensures |S[p].ptrs| == |S[p].keys| + 1
    ensures Linked(SplitInner(S, p, s, q), R, M, root, Pend(p, q))
  {
    assert NodeOk(S, R, M, root, NoPend, p);
    var S', pend := SplitInner(S, p, s, q), Pend(p, q);
    NotOwnParent(S, root, p);
    assert RootOk(S', root, pend) by {
      if ToNode(root) in S[p].ptrs[s + 1..] {
        ChildHas(S, NoPend, p, S[p], root);
      }
    }
    PartsChildren(S, p, s, q, S');
    SplitInnerKeeps(S, p, s, q, S');
    assert NodeOk(S', R, M, root, pend, q);
    UpSplit(S, p, s, q, S', root, p);
    assert NodeOk(S', R, M, root, pend, p);
    forall n | n in S' ensures NodeOk(S', R, M, root, pend, n) {
      if n != p && n != q {
        assert NodeOk(S, R, M, root, NoPend, n);
        UpSplit(S, p, s, q, S', root, n);
        Rehung(S, R, M, NoPend, root, S', pend, root, n);
      }
    }
  }

  lemma UpSplit(S: Store, p: Node, s: nat, q: Node, S': Store, root: Node, n: Node)
    requires p in S && q !in S && Ordered(S[p]) && S[p].h > 0 && ChildrenOk(S, NoPend, p, S[p]) && s < |S[p].keys|
    requires S' == SplitInner(S, p, s, q) && n in S && root in S && UpOk(S, root, NoPend, n, S[n]) && S[p].parent != p
    ensures UpOk(S', root, Pend(p, q), n, S'[n])
  {
  }

  // ---- a new root ----

  function NewRoot(S: Store, left: Node, right: Node, r: Node): Store
    requires left in S && right in S && S[right].lo.At?
  {
    S[left := S[left].(parent := r)][right := S[right].(parent := r)]
     [r := NodeVal([S[right].lo.k], [ToNode(left), ToNode(right)], Null, null, S[left].h + 1, NegInf, PosInf)]
  }

  /** A split of the root gets a new root above it. */
  lemma RootAdded(S: Store, R: Records, M: Entries, left: Node, right: Node, r: Node)
    requires Linked(S, R, M, left, Pend(left, right)) && r !in S
    ensures Linked(NewRoot(S, left, right, r), R, M, r, NoPend)
  {
    var pend, S' := Pend(left, right), NewRoot(S, left, right, r);
    assert NodeOk(S, R, M, left, pend, left) && NodeOk(S, R, M, left, pend, right);
    assert ChildOk(S', NoPend, r, S'[r], 0) && ChildOk(S', NoPend, r, S'[r], 1);
    assert S'[r].ptrs[0] == ToNode(left) && S'[r].ptrs[1] == ToNode(right);
    assert NodeOk(S', R, M, r, NoPend, r);
    forall c | c in S && c != left && c != right ensures Kept(S, pend, S', NoPend, c) && KeptParent(S, S', c) {}
    forall c | c in S ensures KeptLeaf(S, S', c) {}
    forall n | n in S' ensures NodeOk(S', R, M, r, NoPend, n) {
      if n != r {
        assert NodeOk(S, R, M, left, pend, n);
        Rehung(S, R, M, pend, left, S', NoPend, r, n);
      }
    }
  }
}
