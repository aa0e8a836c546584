/** What holds of every tree that a run of insertions and deletions leaves. */
module BpTheorems {
  import opened BpNode
  import opened BpStore
  import opened BpArrays
  import opened BpHeap
  import opened BpFind
  import opened BpRange
  import opened BpTree
  import opened BpInsert

  // ---- following pointers ----

  /** m is a child of n. */
  ghost predicate IsChild(n: Node, m: Node)
    reads n, n.pointers
  {
    !n.isLeaf && exists i {:trigger n.pointers[i]} ::
      0 <= i <= n.numKeys && i < n.pointers.Length && n.pointers[i] == ToNode(m)
  }

  /** m is a child or the parent of n, or the leaf after it. */
  ghost predicate Links(n: Node, m: Node, order: nat)
    reads n, n.pointers
  {
    || n.parent == m
    || (n.isLeaf && 0 < order <= n.pointers.Length && n.pointers[order - 1] == ToNode(m))
    || IsChild(n, m)
  }

  ghost predicate LinkAt(path: seq<Node>, i: nat, order: nat)
    requires i + 1 < |path|
    reads set j | 0 <= j < |path| :: path[j], set j | 0 <= j < |path| :: path[j].pointers
  {
    Links(path[i], path[i + 1], order)
  }

  lemma ChildInStore(S: Store, R: Records, M: Entries, root: Node, n: Node, m: Node, order: nat)
    requires Standing(S, R, M, root, order) && n in S && IsChild(n, m)
    ensures m in S && S[m].h + 1 == S[n].h
  {
    assert Shows(n, S[n], order);
    assert NodeOk(S, R, M, root, NoPend, n);
    var i :| 0 <= i <= n.numKeys && i < n.pointers.Length && n.pointers[i] == ToNode(m);
    assert ChildOk(S, NoPend, n, S[n], i);
  }

  lemma LinkInStore(S: Store, R: Records, M: Entries, root: Node, n: Node, m: Node, order: nat)
    requires Standing(S, R, M, root, order) && n in S && Links(n, m, order)
    ensures m in S
  {
    assert Shows(n, S[n], order);
    assert NodeOk(S, R, M, root, NoPend, n);
    if IsChild(n, m) {
      ChildInStore(S, R, M, root, n, m, order);
    }
  }

  /** No node that can be reached from the root, by whatever pointers, has been freed. */
  lemma {:induction false} ReachedIsLive(S: Store, R: Records, M: Entries, root: Node, path: seq<Node>, order: nat)
    requires Standing(S, R, M, root, order) && path != [] && path[0] == root
    requires forall i {:trigger LinkAt(path, i, order)} | 0 <= i < |path| - 1 :: LinkAt(path, i, order)
    ensures path[|path| - 1] in S && !path[|path| - 1].freed
    decreases |path|
  {
    var n := |path| - 1;
    if n > 0 {
      var front := path[..n];
      forall i | 0 <= i < |front| - 1 ensures LinkAt(front, i, order) {
        assert LinkAt(path, i, order);
      }
      ReachedIsLive(S, R, M, root, front, order);
      assert LinkAt(path, n - 1, order);
      LinkInStore(S, R, M, root, path[n - 1], path[n], order);
    }
    assert Shows(path[n], S[path[n]], order);
  }

  ghost predicate DownAt(path: seq<Node>, i: nat)
    requires i + 1 < |path|
    reads set j | 0 <= j < |path| :: path[j], set j | 0 <= j < |path| :: path[j].pointers
  {
    IsChild(path[i], path[i + 1])
  }

  /** All leaves are equally deep: every way down from the root to a leaf has the height of the tree. */
  lemma {:induction false} EqualDepth(S: Store, R: Records, M: Entries, root: Node, path: seq<Node>, order: nat)
    requires Standing(S, R, M, root, order) && path != [] && path[0] == root
    requires forall i {:trigger DownAt(path, i)} | 0 <= i < |path| - 1 :: DownAt(path, i)
    ensures path[|path| - 1] in S && S[path[|path| - 1]].h + |path| - 1 == S[root].h
    ensures path[|path| - 1].isLeaf <==> |path| - 1 == S[root].h
    decreases |path|
  {
    var n := |path| - 1;
    if n > 0 {
      var front := path[..n];
      forall i | 0 <= i < |front| - 1 ensures DownAt(front, i) {
        assert DownAt(path, i);
      }
      EqualDepth(S, R, M, root, front, order);
      assert DownAt(path, n - 1);
      ChildInStore(S, R, M, root, path[n - 1], path[n], order);
    }
    assert Shows(path[n], S[path[n]], order);
  }

  // ---- the early return of find_range ----

  ghost function GapStore(root: Node, a: Node, b: Node, r: seq<Record>): Store
    requires |r| == 4
  {
    map[root := NodeVal([30], [ToNode(a), ToNode(b)], Null, null, 1, NegInf, PosInf),
        a := NodeVal([10, 20], [ToRecord(r[0]), ToRecord(r[1])], ToNode(b), root, 0, NegInf, At(30)),
        b := NodeVal([30, 40], [ToRecord(r[2]), ToRecord(r[3])], Null, root, 0, At(30), PosInf)]
  }

  ghost function GapRecords(r: seq<Record>): Records
    requires |r| == 4
  {
    map[r[0] := 1, r[1] := 2, r[2] := 3, r[3] := 4]
  }

  const GAP_MAP: Entries := map[10 := 1, 20 := 2, 30 := 3, 40 := 4]

  ghost predicate GapParts(root: Node, a: Node, b: Node, r: seq<Record>) {
    && root != a && root != b && a != b && |r| == 4
    && r[0].key == 10 && r[1].key == 20 && r[2].key == 30 && r[3].key == 40
  }

  lemma GapRoot(root: Node, a: Node, b: Node, r: seq<Record>)
    requires GapParts(root, a, b, r)
    ensures NodeOk(GapStore(root, a, b, r), GapRecords(r), GAP_MAP, root, NoPend, root)
  {
  }

  lemma GapLeaf(root: Node, a: Node, b: Node, r: seq<Record>, c: Node)
    requires GapParts(root, a, b, r) && (c == a || c == b)
    ensures NodeOk(GapStore(root, a, b, r), GapRecords(r), GAP_MAP, root, NoPend, c)
  {
    var S := GapStore(root, a, b, r);
    assert ToNode(a) == S[root].ptrs[0] && ToNode(b) == S[root].ptrs[1];
    assert S[c].keys[0] in S[c].keys && S[c].keys[1] in S[c].keys;
  }

  /** In this tree of order 4, the range from 25 to 35 holds 30, but its start leads to a leaf that ends at 20. */
  lemma RangeGap(root: Node, a: Node, b: Node, r: seq<Record>)
    requires GapParts(root, a, b, r)
    ensures IsTree(GapStore(root, a, b, r), GapRecords(r), GAP_MAP, root, NoPend, 4)
    ensures !CanStart(GapStore(root, a, b, r), 25) && 30 in GAP_MAP
  {
    hide NodeOk;
    GapRoot(root, a, b, r);
    GapLeaf(root, a, b, r, a);
    GapLeaf(root, a, b, r, b);
  }

  // ---- the code gets there ----

  lemma LeafSize(S: Store, R: Records, M: Entries, root: Node, c: Node, order: nat)
    requires IsTree(S, R, M, root, NoPend, order) && c in S && S[c].h == 0
    ensures LeafHolds(R, M, S[c]) && |S[c].keys| <= order - 1 && (c != root ==> |S[c].keys| >= Cut(order - 1))
    ensures S[root].lo == NegInf && S[root].hi == PosInf
  {
    LeafFacts(S, R, M, root, c);
    assert SizeOk(c, S[c], order, root, null);
  }

  lemma FourKeys(keys: seq<int>)
    requires Sorted(keys)
    ensures 10 in keys && 20 in keys && 30 in keys && 40 in keys ==> |keys| >= 4
  {
  }

  /** Three keys do not make four; so a leaf of order 4 that 25 leads to has 20 and 30, and not both 10 and 40. */
  lemma GapKeys(R: Records, v: NodeVal)
    requires LeafHolds(R, GAP_MAP, v) && |v.keys| <= 3 && In(25, v.lo, v.hi) && ReachesFrom(v, 25)
    requires v.lo.At? ==> v.keys != [] && v.keys[0] == v.lo.k
    ensures In(20, v.lo, v.hi) && In(30, v.lo, v.hi) && !(In(10, v.lo, v.hi) && In(40, v.lo, v.hi))
  {
    var i :| 0 <= i < |v.keys| && 25 <= v.keys[i];
    assert v.keys[i] in GAP_MAP && v.keys[0] in GAP_MAP;
    FourKeys(v.keys);
  }

  /** A leaf that has 10 or 40, but neither 20 nor 30, has that key only. */
  lemma LoneKey(R: Records, v: NodeVal)
    requires LeafHolds(R, GAP_MAP, v) && (In(10, v.lo, v.hi) || In(40, v.lo, v.hi))
    requires !In(20, v.lo, v.hi) && !In(30, v.lo, v.hi)
    ensures |v.keys| < 2
  {
    var key := if In(10, v.lo, v.hi) then 10 else 40;
    forall i | 0 <= i < |v.keys| ensures v.keys[i] == key {
      assert v.keys[i] in GAP_MAP;
    }
    if v.keys != [] {
      assert v.keys[0] == v.keys[|v.keys| - 1];
    }
  }

  /** In every tree of order 4 with these keys in which the separators are keys, 25 leads to a leaf that ends at 20. */
  lemma GapEverywhere(S: Store, R: Records, root: Node)
    requires IsTree(S, R, GAP_MAP, root, NoPend, 4) && Headed(S)
    ensures !CanStart(S, 25)
  {
    if CanStart(S, 25) {
      var c :| c in S && S[c].h == 0 && In(25, S[c].lo, S[c].hi) && ReachesFrom(S[c], 25);
      LeafSize(S, R, GAP_MAP, root, c, 4);
      GapKeys(R, S[c]);
      var key := if In(40, S[c].lo, S[c].hi) then 10 else 40;
      var d := LeafOf(S, R, GAP_MAP, root, root, key);
      LeafSize(S, R, GAP_MAP, root, d, 4);
      OtherLeaf(S, R, root, c, d);
      LoneKey(R, S[d]);
      assert false;
    }
  }

  lemma OtherLeaf(S: Store, R: Records, root: Node, c: Node, d: Node)
    requires Linked(S, R, GAP_MAP, root, NoPend) && c in S && d in S && c != d && S[c].h == S[d].h == 0
    requires In(20, S[c].lo, S[c].hi) && In(30, S[c].lo, S[c].hi)
    ensures !In(20, S[d].lo, S[d].hi) && !In(30, S[d].lo, S[d].hi)
  {
    if In(20, S[d].lo, S[d].hi) {
      OneNode(S, R, GAP_MAP, root, c, d, 20);
    }
    if In(30, S[d].lo, S[d].hi) {
      OneNode(S, R, GAP_MAP, root, c, d, 30);
    }
  }

  /** Four insertions at order 4 and a range query that misses the key 30. */
  method MissingRange() returns (tree: BPlusTree, n: nat)
    ensures fresh(tree) && tree.Valid() && tree.order == 4 && tree.M == GAP_MAP
    ensures !CanStart(tree.S, 25) && n == 0 && 25 <= 30 <= 35 && 30 in tree.M
  {
    hide BPlusTree.Valid, Headed, CanStart;
    tree := new BPlusTree(4);
    InsertGap(tree);
    MissingStart(tree);
    n := QueryGap(tree);
  }

  method QueryGap(tree: BPlusTree) returns (n: nat)
    requires tree.Valid() && tree.order == 4 && tree.M == GAP_MAP && Headed(tree.S)
    ensures tree.Valid() && n == 0
  {
    hide Tree, Standing, Headed, CanStart, Found;
    MissingStart(tree);
    var outKeys, outPointers := new int[11], new Ptr[11](i => Null);
    n := tree.FindRange(25, 35, outKeys, outPointers);
  }

  method InsertGap(tree: BPlusTree)
    requires tree.Valid() && tree.M == map[] && Headed(tree.S)
    modifies tree, tree.Repr
    ensures tree.Valid() && tree.M == GAP_MAP && Headed(tree.S) && fresh(tree.Repr - old(tree.Repr))
  {
    hide BPlusTree.Valid, Headed;
    tree.Insert(10, 1);
    tree.Insert(20, 2);
    tree.Insert(30, 3);
    tree.Insert(40, 4);
  }

  lemma MissingStart(tree: BPlusTree)
    requires tree.Valid() && tree.order == 4 && tree.M == GAP_MAP && Headed(tree.S)
    ensures !CanStart(tree.S, 25)
  {
    assert 10 in tree.M;
    var root: Node := tree.root;
    GapEverywhere(tree.S, tree.R, root);
  }
}
