/** Insertion: a leaf or node that overflows is split, and its parent told, up to a new root. */
module BpInsert {
  import opened BpNode
  import opened BpStore
  import opened BpGrow
  import opened BpArrays
  import opened BpHeap
  import opened BpFind

  // ---- leaves and the separators before them ----

  /** Every leaf but the leftmost starts with the separator before it; only deletions can change that. */
  ghost predicate Headed(S: Store) {
    forall n | n in S && S[n].h == 0 && S[n].lo.At? :: S[n].keys != [] && S[n].keys[0] == S[n].lo.k
  }

  /** The leaves of T are leaves of S, with the same keys behind the same separators. */
  ghost predicate SameLeaves(S: Store, T: Store) {
    forall n | n in T && T[n].h == 0 :: n in S && S[n].h == 0 && T[n].keys == S[n].keys && T[n].lo == S[n].lo
  }

  lemma RootLeaves(S: Store, left: Node, right: Node, r: Node)
    requires left in S && right in S && S[right].lo.At?
    ensures SameLeaves(S, NewRoot(S, left, right, r))
  {
  }

  lemma SplitLeaves(S: Store, p: Node, w: NodeVal, s: nat, q: Node)
    requires p in S && w.h > 0 && s < |w.keys| && s + 1 <= |w.ptrs|
    ensures SameLeaves(S, SplitInner(S[p := w], p, s, q))
  {
  }

  lemma EntryHeaded(S: Store, R: Records, M: Entries, root: Node, leaf: Node, i: nat, rec: Record)
    requires Headed(S) && Target(S, R, M, root, leaf, rec) && Place(S[leaf].keys, i, rec.key)
    ensures |S[leaf].ptrs| == |S[leaf].keys| && Headed(S[leaf := WithEntry(S[leaf], i, rec.key, rec)])
  {
    LeafFacts(S, R, M, root, leaf);
  }

  lemma HalvesHeaded(S: Store, leaf: Node, w: NodeVal, s: nat, right: Node)
    requires leaf in S && Headed(S[leaf := w]) && 0 < s < |w.keys| && s <= |w.ptrs|
    ensures Headed(Halved(S, leaf, w, s, right))
  {
    var T: Store := S[leaf := w];
    var U := Halved(S, leaf, w, s, right);
    forall n | n in U && U[n].h == 0 && U[n].lo.At? ensures U[n].keys != [] && U[n].keys[0] == U[n].lo.k {
      assert n != right ==> n in T && T[n].lo == U[n].lo && T[n].h == U[n].h;
    }
  }

  // ---- sizes ----

  lemma RootSizes(S: Store, R: Records, M: Entries, left: Node, right: Node, r: Node, order: nat)
    requires IsTree(S, R, M, left, Pend(left, right), order) && r !in S
    ensures right in S && S[right].lo.At? && IsTree(NewRoot(S, left, right, r), R, M, r, NoPend, order)
  {
    RootAdded(S, R, M, left, right, r);
  }

  lemma PendingPair(S: Store, R: Records, M: Entries, root: Node, left: Node, right: Node)
    requires Linked(S, R, M, root, Pend(left, right))
    ensures left in S && right in S && root in S && left != right && S[right].lo.At?
  {
  }

  lemma OnlyRootHasNoParent(S: Store, R: Records, M: Entries, root: Node, left: Node, right: Node)
    requires Linked(S, R, M, root, Pend(left, right)) && S[left].parent == null
    ensures left == root
  {
    assert NodeOk(S, R, M, root, Pend(left, right), left);
  }

  /** The parent of a split node below the root: it has the node as a child, at one place only. */
  lemma ParentOf(S: Store, R: Records, M: Entries, root: Node, left: Node, right: Node)
    requires Linked(S, R, M, root, Pend(left, right)) && S[left].parent != null
    ensures left != root && S[left].parent in S
    ensures var p := S[left].parent;
      S[p].h == S[left].h + 1 && ToNode(left) in S[p].ptrs && |S[p].ptrs| == |S[p].keys| + 1
    ensures S[left].h < S[root].h
  {
    var p, i := WhichChild(S, R, M, root, Pend(left, right), left);
    assert NodeOk(S, R, M, root, Pend(left, right), left);
  }

  /** left is the i-th child of p, and not the root. */
  ghost predicate PlaceOf(S: Store, root: Node, p: Node, i: nat, left: Node) {
    && p in S && left in S && root in S && S[left].parent == p && left != root && S[left].h < S[root].h
    && i < |S[p].ptrs| == |S[p].keys| + 1 && S[p].ptrs[i] == ToNode(left) && S[p].h == S[left].h + 1
  }

  lemma GrownSizes(S: Store, R: Records, M: Entries, root: Node, p: Node, i: nat, left: Node, right: Node, order: nat)
    requires IsTree(S, R, M, root, Pend(left, right), order) && PlaceOf(S, root, p, i, left)
    requires |S[p].keys| < order - 1
    ensures IsTree(S[p := WithChild(S[p], i, S[right].lo.k, right)], R, M, root, NoPend, order)
  {
    ChildAdded(S, R, M, root, p, i, left, right);
    assert SizeOk(p, S[p], order, root, null);
  }

  /** A node one key too large splits into two of lawful size. */
  lemma SplitSizes(S: Store, R: Records, M: Entries, root: Node, p: Node, i: nat, left: Node, right: Node, q: Node,
                   order: nat)
    requires IsTree(S, R, M, root, Pend(left, right), order) && PlaceOf(S, root, p, i, left) && q !in S
    requires |S[p].keys| == order - 1
    ensures var w := WithChild(S[p], i, S[right].lo.k, right);
      && |w.keys| == order && |w.ptrs| == order + 1 && q !in S[p := w]
      && IsTree(SplitInner(S[p := w], p, Cut(order) - 1, q), R, M, root, Pend(p, q), order)
  {
    var w, s := WithChild(S[p], i, S[right].lo.k, right), Cut(order) - 1;
    ChildAdded(S, R, M, root, p, i, left, right);
    InnerSplit(S[p := w], R, M, root, p, s, q);
    var T := SplitInner(S[p := w], p, s, q);
    forall n | n in T ensures SizeOk(n, T[n], order, Top(root, Pend(p, q)), null) {
      if n != p && n != q {
        assert SizeOk(n, S[n], order, root, null);
      }
    }
  }

  lemma SplitFacts(S: Store, root: Node, p: Node, w: NodeVal, s: nat, q: Node)
    requires p in S && root in S && q !in S && s < |w.keys| && s + 1 <= |w.ptrs| && w.h == S[p].h
    ensures var U := SplitInner(S[p := w], p, s, q);
      U.Keys == S.Keys + {q} && U[p].h == S[p].h && U[root].h == S[root].h && U[q].lo == At(w.keys[s])
  {
  }

  lemma SplitNodes(S: Store, R: Records, M: Entries, root: Node, p: Node, i: nat, left: Node, right: Node)
    requires Linked(S, R, M, root, Pend(left, right)) && PlaceOf(S, root, p, i, left)
    ensures var w := WithChild(S[p], i, S[right].lo.k, right); NodesOf(S, w.ptrs) && ToNode(p) !in w.ptrs
  {
    var w := WithChild(S[p], i, S[right].lo.k, right);
    ChildAdded(S, R, M, root, p, i, left, right);
    var T := S[p := w];
    assert NodeOk(T, R, M, root, NoPend, p);
    forall j | 0 <= j < |w.ptrs| ensures w.ptrs[j].ToNode? && w.ptrs[j].node in S && w.ptrs[j] != ToNode(p) {
      assert ChildOk(T, NoPend, p, w, j);
    }
  }

  // ---- the operations ----

  method MakeRoot(left: Node, key: int, right: Node, order: nat, ghost S: Store) returns (root: Node)
    requires order >= 3 && Stored(S, order) && left in S && right in S && S[right].lo == At(key)
    ensures fresh(root) && fresh(root.keys) && fresh(root.pointers) && root !in S && Apart(S.Keys + {root})
    ensures Shows(root, NewRoot(S, left, right, root)[root], order)
  {
    root := MakeNode(order, S.Keys);
    root.keys[0] := key;
    root.pointers[0] := ToNode(left);
    root.pointers[1] := ToNode(right);
    root.numKeys := root.numKeys + 1;
    root.parent := null;
  }

  /** insert_into_new_root */
  method InsertIntoNewRoot(left: Node, key: int, right: Node, order: nat, ghost S: Store) returns (root: Node)
    requires order >= 3 && Stored(S, order) && left in S && right in S && S[right].lo == At(key) && left != right
    modifies left`parent, right`parent
    ensures fresh(root) && fresh(root.keys) && fresh(root.pointers) && root !in S
    ensures Stored(NewRoot(S, left, right, root), order)
  {
    root := MakeRoot(left, key, right, order, S);
    ghost var T := NewRoot(S, left, right, root);
    SetParent(left, root, order, S);
    SetParent(right, root, order, S[left := S[left].(parent := root)]);
    SyncedWith(S[left := S[left].(parent := root)][right := S[right].(parent := root)], root, T[root], order);
    assert T.Keys == S.Keys + {root};
  }

  /** The two parts of a split node, before its upper children are given to the new one. */
  function Parted(S: Store, p: Node, w: NodeVal, s: nat, q: Node): Store
    requires s < |w.keys| && s + 1 <= |w.ptrs|
  {
    S[p := LeftPart(w, s)][q := RightPart(w, s)]
  }

  lemma PartedRehung(S: Store, p: Node, w: NodeVal, s: nat, q: Node)
    requires p in S && q !in S && s < |w.keys| && s + 1 <= |w.ptrs| && NodesOf(S, w.ptrs) && ToNode(p) !in w.ptrs
    ensures SplitInner(S[p := w], p, s, q) == Reparent(Parted(S, p, w, s, q), w.ptrs[s + 1..], q)
    ensures SplitInner(S[p := w], p, s, q).Keys == S.Keys + {q}
    ensures NodesOf(Parted(S, p, w, s, q), w.ptrs[s + 1..])
  {
    hide LeftPart, RightPart;
    assert forall i | s + 1 <= i < |w.ptrs| :: w.ptrs[i] != ToNode(q);
  }

  method SplitInPlace(p: Node, q: Node, leftIndex: nat, key: int, right: Node, order: nat, ghost S: Store,
                      ghost w: NodeVal)
    returns (kPrime: int)
    requires order >= 3 && Synced(S, order) && p in S && q !in S && Apart(S.Keys + {q})
    requires S[p].h > 0 && |S[p].keys| == order - 1 && leftIndex <= |S[p].keys| && |S[p].ptrs| == order
    requires w == WithChild(S[p], leftIndex, key, right)
    requires q.keys.Length == order - 1 && q.pointers.Length == order && !q.freed && q.numKeys == 0 && !q.isLeaf
    modifies p`numKeys, p.keys, p.pointers, q`numKeys, q`parent, q.keys, q.pointers
    ensures kPrime == w.keys[Cut(order) - 1]
    ensures Synced(Parted(S, p, w, Cut(order) - 1, q), order)
    ensures q.numKeys + 1 == |w.ptrs[Cut(order)..]| && Holds(q.pointers, w.ptrs[Cut(order)..])
  {
    assert Shows(p, S[p], order) && Distinct(p, q);
    kPrime := SplitNode(p, q, leftIndex, key, right, order, S[p]);
    ghost var T := Parted(S, p, w, Cut(order) - 1, q);
    forall m | m in T ensures Shows(m, T[m], order) {
      if m != p && m != q {
        assert Distinct(m, p) && Distinct(m, q) && old(Shows(m, S[m], order));
      }
    }
  }

  /** The split of a full node, with the children's parents set. */
  method SplitAndRehang(p: Node, leftIndex: nat, key: int, right: Node, order: nat, ghost S: Store, ghost w: NodeVal)
    returns (q: Node, kPrime: int)
    requires order >= 3 && Stored(S, order) && p in S && S[p].h > 0 && |S[p].keys| == order - 1
    requires leftIndex <= |S[p].keys|
    requires |S[p].ptrs| == order && w == WithChild(S[p], leftIndex, key, right)
    requires NodesOf(S, w.ptrs) && ToNode(p) !in w.ptrs
    modifies p`numKeys, p.keys, p.pointers, S.Keys`parent
    ensures fresh(q) && fresh(q.keys) && fresh(q.pointers) && q !in S
    ensures kPrime == w.keys[Cut(order) - 1]
    ensures Stored(SplitInner(S[p := w], p, Cut(order) - 1, q), order)
  {
    hide Foot, LeftPart, RightPart, Holds, Shows, Apart, SplitInner, Reparent;
    q := MakeNode(order, S.Keys);
    kPrime := SplitInPlace(p, q, leftIndex, key, right, order, S, w);
    PartedRehung(S, p, w, Cut(order) - 1, q);
    Rehang(q, order, Parted(S, p, w, Cut(order) - 1, q), w.ptrs[Cut(order)..]);
  }

  method AddChild(p: Node, i: nat, key: int, right: Node, order: nat, ghost S: Store)
    requires p in S && Stored(S, order) && S[p].h > 0 && |S[p].keys| < order - 1 && i <= |S[p].keys| && i < |S[p].ptrs|
    modifies p`numKeys, p.keys, p.pointers
    ensures Stored(S[p := WithChild(S[p], i, key, right)], order)
  {
    assert Shows(p, S[p], order);
    InsertIntoNode(p, i, key, right, order, S[p]);
    ghost var T: Store := S[p := WithChild(S[p], i, key, right)];
    forall m | m in T ensures Shows(m, T[m], order) {
      if m != p {
        assert Distinct(m, p) && old(Shows(m, S[m], order));
      }
    }
  }

  /** The split of the root ends the insertion. */
  method FinishAtRoot(left: Node, key: int, right: Node, order: nat,
                      ghost S: Store, ghost R: Records, ghost M: Entries) returns (root: Node, ghost T: Store)
    requires IsTree(S, R, M, left, Pend(left, right), order) && Stored(S, order) && S[right].lo == At(key)
    modifies left`parent, right`parent
    ensures IsTree(T, R, M, root, NoPend, order) && Stored(T, order)
    ensures S.Keys <= T.Keys && fresh(Foot(T.Keys - S.Keys))
    ensures SameLeaves(S, T)
  {
    PendingPair(S, R, M, left, left, right);
    hide Linked, Sized, Apart, Synced;
    root := InsertIntoNewRoot(left, key, right, order, S);
    RootSizes(S, R, M, left, right, root, order);
    T := NewRoot(S, left, right, root);
    RootLeaves(S, left, right, root);
    assert T.Keys - S.Keys == {root};
  }

  /** A parent with room for the new child ends the insertion. */
  method FinishAtParent(root: Node, p: Node, i: nat, key: int, right: Node, order: nat, ghost left: Node,
                        ghost S: Store, ghost R: Records, ghost M: Entries) returns (ghost T: Store)
    requires IsTree(S, R, M, root, Pend(left, right), order) && Stored(S, order) && S[right].lo == At(key)
    requires PlaceOf(S, root, p, i, left) && |S[p].keys| < order - 1
    modifies p`numKeys, p.keys, p.pointers
    ensures IsTree(T, R, M, root, NoPend, order) && Stored(T, order) && T.Keys == S.Keys
    ensures SameLeaves(S, T)
  {
    AddChild(p, i, key, right, order, S);
    T := S[p := WithChild(S[p], i, key, right)];
    GrownSizes(S, R, M, root, p, i, left, right, order);
  }

  /** A full parent is split in turn; what is pending then is one level up. */
  method SplitUp(root: Node, p: Node, i: nat, key: int, right: Node, order: nat, ghost left: Node,
                 ghost S: Store, ghost R: Records, ghost M: Entries) returns (q: Node, kPrime: int, ghost U: Store)
    requires IsTree(S, R, M, root, Pend(left, right), order) && Stored(S, order) && S[right].lo == At(key)
    requires PlaceOf(S, root, p, i, left) && |S[p].keys| == order - 1
    modifies p`numKeys, p.keys, p.pointers, S.Keys`parent
    ensures IsTree(U, R, M, root, Pend(p, q), order) && Stored(U, order) && U[q].lo == At(kPrime)
    ensures U.Keys == S.Keys + {q} && q !in S && fresh(q) && fresh(q.keys) && fresh(q.pointers)
    ensures U[root].h == S[root].h && U[p].h == S[p].h
    ensures SameLeaves(S, U)
  {
    hide Linked, Sized, Apart, Synced;
    ghost var w := WithChild(S[p], i, key, right);
    SplitNodes(S, R, M, root, p, i, left, right);
    q, kPrime := SplitAndRehang(p, i, key, right, order, S, w);
    SplitSizes(S, R, M, root, p, i, left, right, q, order);
    SplitFacts(S, root, p, w, Cut(order) - 1, q);
    U := SplitInner(S[p := w], p, Cut(order) - 1, q);
    SplitLeaves(S, p, w, Cut(order) - 1, q);
  }

  lemma ParentShown(S: Store, n: Node, order: nat)
    requires Stored(S, order) && n in S
    ensures n.parent == S[n].parent
  {
    assert Shows(n, S[n], order);
  }

  /** The parent's pointer to the left part of a split is found. */
  method PlaceInParent(ghost root: Node, left: Node, parent: Node, ghost right: Node, order: nat,
                       ghost S: Store, ghost R: Records, ghost M: Entries) returns (leftIndex: nat)
    requires IsTree(S, R, M, root, Pend(left, right), order) && Stored(S, order) && left in S
    requires S[left].parent == parent
    ensures Stored(S, order) && PlaceOf(S, root, parent, leftIndex, left)
    ensures parent.numKeys == |S[parent].keys| <= order - 1
  {
    ParentOf(S, R, M, root, left, right);
    PendingPair(S, R, M, root, left, right);
    hide Linked, Sized, Apart;
    assert Shows(parent, S[parent], order);
    leftIndex := GetLeftIndex(parent, left, order, S[parent]);
  }

  /** insert_into_parent: every split moves the pending pair one level up. */
  method InsertIntoParent(root: Node, left: Node, key: int, right: Node, order: nat,
                          ghost S: Store, ghost R: Records, ghost M: Entries) returns (newRoot: Node, ghost T: Store)
    requires IsTree(S, R, M, root, Pend(left, right), order) && Stored(S, order) && S[right].lo == At(key)
    modifies Foot(S.Keys)
    ensures IsTree(T, R, M, newRoot, NoPend, order) && Stored(T, order)
    ensures S.Keys <= T.Keys && fresh(Foot(T.Keys - S.Keys))
    ensures SameLeaves(S, T)
    decreases S[root].h - S[left].h
  {
    hide Linked, Sized, Apart, Synced;
    PendingPair(S, R, M, root, left, right);
    ParentShown(S, left, order);
    var parent := left.parent;
    if parent == null {
      OnlyRootHasNoParent(S, R, M, root, left, right);
      newRoot, T := FinishAtRoot(left, key, right, order, S, R, M);
    } else {
      var leftIndex := PlaceInParent(root, left, parent, right, order, S, R, M);
      if parent.numKeys < order - 1 {
        T := FinishAtParent(root, parent, leftIndex, key, right, order, left, S, R, M);
        assert T.Keys - S.Keys == {};
        newRoot := root;
      } else {
        newRoot, T := InsertIntoNodeAfterSplitting(root, parent, leftIndex, key, right, order, S, R, M, left);
      }
    }
  }

  /** insert_into_node_after_splitting */
  method InsertIntoNodeAfterSplitting(root: Node, p: Node, leftIndex: nat, key: int, right: Node, order: nat,
                                      ghost S: Store, ghost R: Records, ghost M: Entries, ghost left: Node)
    returns (newRoot: Node, ghost T: Store)
    requires IsTree(S, R, M, root, Pend(left, right), order) && Stored(S, order) && S[right].lo == At(key)
    requires PlaceOf(S, root, p, leftIndex, left) && |S[p].keys| == order - 1
    modifies Foot(S.Keys)
    ensures IsTree(T, R, M, newRoot, NoPend, order) && Stored(T, order)
    ensures S.Keys <= T.Keys && fresh(Foot(T.Keys - S.Keys))
    ensures SameLeaves(S, T)
    decreases S[root].h - S[left].h, 0
  {
    hide Linked, Sized, Foot, Apart, Synced;
    ghost var U;
    var q, kPrime;
    q, kPrime, U := SplitUp(root, p, leftIndex, key, right, order, left, S, R, M);
    FootStep(S.Keys, q, U.Keys);
    newRoot, T := InsertIntoParent(root, p, kPrime, q, order, U, R, M);
    FootStep(S.Keys, q, T.Keys);
  }

  // ---- at the leaf ----

  lemma ValueChanged(S: Store, R: Records, M: Entries, root: Node, rec: Record, value: int)
    requires Linked(S, R, M, root, NoPend) && rec in R
    ensures Linked(S, R[rec := value], M[rec.key := value], root, NoPend)
  {
    var R', M' := R[rec := value], M[rec.key := value];
    forall n | n in S ensures NodeOk(S, R', M', root, NoPend, n) {
      assert NodeOk(S, R, M, root, NoPend, n);
    }
  }

  lemma FirstEntry(root: Node, rec: Record, value: int, order: nat)
    requires order >= 3
    ensures IsTree(FirstLeaf(root, rec), map[rec := value], map[rec.key := value], root, NoPend, order)
  {
  }

  ghost function FirstLeaf(root: Node, rec: Record): Store {
    map[root := NodeVal([rec.key], [ToRecord(rec)], Null, null, 0, NegInf, PosInf)]
  }

  /** start_new_tree */
  method StartNewTree(key: int, rec: Record, order: nat) returns (root: Node)
    requires order >= 3 && rec.key == key
    ensures fresh(root) && fresh(root.keys) && fresh(root.pointers) && Stored(FirstLeaf(root, rec), order)
  {
    root := MakeNode(order, {});
    root.isLeaf := true;
    root.keys[0] := key;
    root.pointers[0] := ToRecord(rec);
    root.pointers[order - 1] := Null;
    root.parent := null;
    root.numKeys := root.numKeys + 1;
    ghost var T: Store := FirstLeaf(root, rec);
    assert Shows(root, T[root], order);
  }

  /** leaf is where the key of the new record rec belongs. */
  ghost predicate Target(S: Store, R: Records, M: Entries, root: Node, leaf: Node, rec: Record) {
    && Linked(S, R, M, root, NoPend) && leaf in S && S[leaf].h == 0 && In(rec.key, S[leaf].lo, S[leaf].hi)
    && rec !in R && rec.key !in M
  }

  lemma TargetFacts(S: Store, R: Records, M: Entries, root: Node, leaf: Node, rec: Record)
    requires Target(S, R, M, root, leaf, rec)
    ensures Sorted(S[leaf].keys) && rec.key !in S[leaf].keys && |S[leaf].ptrs| == |S[leaf].keys|
  {
    LeafFacts(S, R, M, root, leaf);
  }

  lemma EntrySizes(S: Store, R: Records, M: Entries, root: Node, leaf: Node, i: nat, rec: Record, value: int,
                   order: nat)
    requires IsTree(S, R, M, root, NoPend, order) && Target(S, R, M, root, leaf, rec)
    requires Place(S[leaf].keys, i, rec.key) && |S[leaf].keys| < order - 1
    ensures |S[leaf].ptrs| == |S[leaf].keys|
    ensures IsTree(S[leaf := WithEntry(S[leaf], i, rec.key, rec)], R[rec := value], M[rec.key := value], root, NoPend,
              order)
  {
    EntryAdded(S, R, M, root, leaf, i, rec, value);
    assert SizeOk(leaf, S[leaf], order, root, null);
  }

  /** A leaf with room takes the entry, and the insertion is done. */
  method InsertIntoRoomyLeaf(root: Node, leaf: Node, key: int, rec: Record, ghost value: int, order: nat,
                             ghost S: Store, ghost R: Records, ghost M: Entries) returns (ghost T: Store)
    requires IsTree(S, R, M, root, NoPend, order) && Stored(S, order) && Target(S, R, M, root, leaf, rec)
    requires key == rec.key && |S[leaf].keys| < order - 1
    modifies leaf`numKeys, leaf.keys, leaf.pointers
    ensures IsTree(T, R[rec := value], M[key := value], root, NoPend, order) && Stored(T, order) && T.Keys == S.Keys
    ensures Headed(S) ==> Headed(T)
  {
    TargetFacts(S, R, M, root, leaf, rec);
    assert Shows(leaf, S[leaf], order);
    ghost var at := InsertIntoLeaf(leaf, key, rec, order, S[leaf]);
    EntrySizes(S, R, M, root, leaf, at, rec, value, order);
    T := S[leaf := WithEntry(S[leaf], at, key, rec)];
    if Headed(S) {
      EntryHeaded(S, R, M, root, leaf, at, rec);
    }
    assert Stored(T, order) by {
      hide Linked, Sized;
      forall m | m in T ensures Shows(m, T[m], order) {
        if m != leaf {
          assert Distinct(m, leaf) && old(Shows(m, S[m], order));
        }
      }
    }
  }

  ghost function Halved(S: Store, leaf: Node, w: NodeVal, s: nat, right: Node): Store
    requires s < |w.keys| && s <= |w.ptrs|
  {
    S[leaf := LeftHalf(w, s, right)][right := RightHalf(w, s)]
  }

  lemma HalvedSizes(S: Store, R: Records, M: Entries, root: Node, leaf: Node, i: nat, rec: Record, value: int,
                    right: Node, order: nat)
    requires IsTree(S, R, M, root, NoPend, order) && Target(S, R, M, root, leaf, rec) && right !in S
    requires Place(S[leaf].keys, i, rec.key) && |S[leaf].keys| == |S[leaf].ptrs| == order - 1
    ensures IsTree(Halved(S, leaf, WithEntry(S[leaf], i, rec.key, rec), Cut(order - 1), right),
                   R[rec := value], M[rec.key := value], root, Pend(leaf, right), order)
  {
    var w, s := WithEntry(S[leaf], i, rec.key, rec), Cut(order - 1);
    EntryAdded(S, R, M, root, leaf, i, rec, value);
    LeafSplit(S[leaf := w], R[rec := value], M[rec.key := value], root, leaf, s, right);
    var T: Store := Halved(S, leaf, w, s, right);
    assert T == S[leaf := w][leaf := LeftHalf(w, s, right)][right := RightHalf(w, s)];
    forall n | n in T ensures SizeOk(n, T[n], order, Top(root, Pend(leaf, right)), null) {
      if n != leaf && n != right {
        assert SizeOk(n, S[n], order, root, null);
      }
    }
  }

  /** The full leaf and a new one share the entries; the parent is still to be told. */
  method HalveLeaf(root: Node, leaf: Node, key: int, rec: Record, ghost value: int, order: nat,
                   ghost S: Store, ghost R: Records, ghost M: Entries) returns (right: Node, ghost U: Store)
    requires IsTree(S, R, M, root, NoPend, order) && Stored(S, order) && Target(S, R, M, root, leaf, rec)
    requires key == rec.key && |S[leaf].keys| == order - 1
    modifies leaf`numKeys, leaf.keys, leaf.pointers
    ensures IsTree(U, R[rec := value], M[key := value], root, Pend(leaf, right), order) && Stored(U, order)
    ensures U.Keys == S.Keys + {right} && right !in S && fresh(right) && fresh(right.keys) && fresh(right.pointers)
    ensures right.keys.Length > 0 && U[right].lo == At(right.keys[0])
    ensures Headed(S) ==> Headed(U)
  {
    hide Linked, Sized, Headed;
    TargetFacts(S, R, M, root, leaf, rec);
    right := MakeNode(order, S.Keys);
    right.isLeaf := true;
    assert Shows(leaf, S[leaf], order);
    ghost var at := SplitLeaf(leaf, right, key, rec, order, S[leaf]);
    HalvedSizes(S, R, M, root, leaf, at, rec, value, right, order);
    U := Halved(S, leaf, WithEntry(S[leaf], at, key, rec), Cut(order - 1), right);
    if Headed(S) {
      EntryHeaded(S, R, M, root, leaf, at, rec);
      HalvesHeaded(S, leaf, WithEntry(S[leaf], at, key, rec), Cut(order - 1), right);
    }
    assert Stored(U, order) by {
      forall m | m in U ensures Shows(m, U[m], order) {
        if m != leaf && m != right {
          assert Distinct(m, leaf) && old(Shows(m, S[m], order));
        }
      }
    }
  }

  /** insert_into_leaf_after_splitting */
  method InsertIntoLeafAfterSplitting(root: Node, leaf: Node, key: int, rec: Record, ghost value: int, order: nat,
                                      ghost S: Store, ghost R: Records, ghost M: Entries)
    returns (newRoot: Node, ghost T: Store)
    requires IsTree(S, R, M, root, NoPend, order) && Stored(S, order) && Target(S, R, M, root, leaf, rec)
    requires key == rec.key && |S[leaf].keys| == order - 1
    modifies Foot(S.Keys)
    ensures IsTree(T, R[rec := value], M[key := value], newRoot, NoPend, order) && Stored(T, order)
    ensures S.Keys <= T.Keys && fresh(Foot(T.Keys - S.Keys))
    ensures Headed(S) ==> Headed(T)
  {
    hide Linked, Sized, Foot, Apart, Synced;
    ghost var U;
    var right;
    right, U := HalveLeaf(root, leaf, key, rec, value, order, S, R, M);
    FootStep(S.Keys, right, U.Keys);
    newRoot, T := InsertIntoParent(root, leaf, right.keys[0], right, order, U, R[rec := value], M[key := value]);
    FootStep(S.Keys, right, T.Keys);
  }

  /** A key that is there already gets the new value. */
  method Overwrite(rec: Record, value: int, order: nat, ghost root: Node?, ghost S: Store, ghost R: Records,
                   ghost M: Entries)
    requires Tree(S, R, M, root, order) && rec in R && root != null
    modifies rec`value
    ensures Tree(S, R[rec := value], M[rec.key := value], root, order)
  {
    ValueChanged(S, R, M, root, rec, value);
    hide Linked, Sized, Apart, Foot;
    rec.value := value;
  }

  /** The rest of insert, once the new record is made. */
  method InsertRecord(root: Node?, key: int, rec: Record, ghost value: int, order: nat,
                      ghost S: Store, ghost R: Records, ghost M: Entries) returns (newRoot: Node, ghost T: Store)
    requires Tree(S, R, M, root, order) && rec !in R && rec.key == key && key !in M
    modifies Foot(S.Keys)
    ensures Standing(T, R[rec := value], M[key := value], newRoot, order)
    ensures S.Keys <= T.Keys && fresh(Foot(T.Keys - S.Keys))
    ensures Headed(S) ==> Headed(T)
  {
    if root == null {
      newRoot := StartNewTree(key, rec, order);
      FirstEntry(newRoot, rec, value, order);
      T := FirstLeaf(newRoot, rec);
      assert T.Keys - S.Keys == {newRoot};
      return;
    }
    hide Linked, Sized, Apart;
    var leaf := FindLeaf(root, key, order, S, R, M);
    assert Shows(leaf, S[leaf], order);
    if leaf.numKeys < order - 1 {
      T := InsertIntoRoomyLeaf(root, leaf, key, rec, value, order, S, R, M);
      assert T.Keys - S.Keys == {};
      newRoot := root;
    } else {
      newRoot, T := InsertIntoLeafAfterSplitting(root, leaf, key, rec, value, order, S, R, M);
    }
  }

  /** A new record is in no one's way. */
  method MakeRecord(key: int, value: int, order: nat, ghost root: Node?, ghost S: Store, ghost R: Records,
                    ghost M: Entries)
    returns (rec: Record)
    requires Tree(S, R, M, root, order)
    ensures fresh(rec) && rec !in R && rec.key == key && rec.value == value && !rec.freed
    ensures Tree(S, R, M, root, order) && Values(R[rec := value])
  {
    rec := new Record(key, value);
    assert Values(R[rec := value]);
  }

  /** Records are left alone when a tree is changed. */
  method InsertBeside(root: Node?, key: int, rec: Record, ghost value: int, order: nat,
                      ghost S: Store, ghost R: Records, ghost M: Entries) returns (newRoot: Node, ghost T: Store)
    requires Tree(S, R, M, root, order) && rec !in R && rec.key == key && key !in M && Values(R[rec := value])
    modifies Foot(S.Keys)
    ensures Tree(T, R[rec := value], M[key := value], newRoot, order)
    ensures S.Keys <= T.Keys && fresh(Foot(T.Keys - S.Keys))
    ensures Headed(S) ==> Headed(T)
  {
    hide Standing, Foot;
    RecordsApart(S.Keys, R[rec := value].Keys);
    newRoot, T := InsertRecord(root, key, rec, value, order, S, R, M);
  }

  /** A key that is not there gets a record of its own. */
  method InsertNew(root: Node?, key: int, value: int, order: nat, ghost S: Store, ghost R: Records, ghost M: Entries)
    returns (newRoot: Node, rec: Record, ghost T: Store)
    requires Tree(S, R, M, root, order) && key !in M
    modifies Foot(S.Keys)
    ensures fresh(rec) && rec !in R && rec.key == key && Tree(T, R[rec := value], M[key := value], newRoot, order)
    ensures S.Keys <= T.Keys && fresh(Foot(T.Keys - S.Keys))
    ensures Headed(S) ==> Headed(T)
  {
    hide Tree, Values, Foot;
    rec := MakeRecord(key, value, order, root, S, R, M);
    newRoot, T := InsertBeside(root, key, rec, value, order, S, R, M);
  }

  lemma OneSet(R: Records, key: int, rec: Record, value: int)
    requires rec.key == key
    ensures RecordsKept(R, R[rec := value], key)
    ensures R[rec := value].Keys == R.Keys + {rec}
  {
  }

  /** insert: the tree then holds M with the key set to the value. */
  method Insert(root: Node?, key: int, value: int, order: nat, ghost S: Store, ghost R: Records, ghost M: Entries)
    returns (newRoot: Node, ghost T: Store, ghost Q: Records)
    requires Tree(S, R, M, root, order)
    modifies Foot(S.Keys), R.Keys
    ensures Tree(T, Q, M[key := value], newRoot, order)
    ensures S.Keys <= T.Keys && fresh(Foot(T.Keys - S.Keys))
    ensures R.Keys <= Q.Keys && fresh(Q.Keys - R.Keys)
    ensures RecordsKept(R, Q, key)
    ensures forall r {:trigger r in Q} | r in Q && r !in R :: r.key == key && key !in M
    ensures Headed(S) ==> Headed(T)
  {
    hide Tree, RecordsKept;
    var rec, leaf, at := Find(root, key, order, S, R, M);
    if rec != null {
      OneSet(R, key, rec, value);
      Overwrite(rec, value, order, root, S, R, M);
      newRoot, T, Q := root, S, R[rec := value];
      assert T.Keys - S.Keys == {};
    } else {
      newRoot, rec, T := InsertNew(root, key, value, order, S, R, M);
      Q := R[rec := value];
      OneSet(R, key, rec, value);
    }
  }
}
