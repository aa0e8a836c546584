/** Range queries. */
module BpRange {
  import opened BpNode
  import opened BpStore
  import opened BpArrays
  import opened BpHeap
  import opened BpFind
  import opened BpScan

  /** Some key of the node is start or more. */
  ghost predicate ReachesFrom(v: NodeVal, start: int) {
    exists i | 0 <= i < |v.keys| :: start <= v.keys[i]
  }

  /** Ascending keys between two bounds are no more than there are numbers between them. */
  lemma {:induction false} FewKeys(keys: seq<int>, start: int, end: int)
    requires Sorted(keys) && forall i | 0 <= i < |keys| :: start <= keys[i] <= end
    ensures keys != [] ==> |keys| <= end - start + 1
    decreases |keys|
  {
    if keys == [] {
    } else if |keys| == 1 {
      assert start <= keys[0] <= end;
    } else {
      var n := |keys| - 1;
      assert keys[n - 1] < keys[n];
      FewKeys(keys[..n], start, keys[n] - 1);
    }
  }

  /** The part of a leaf that is in the range. */
  lemma LeafPart(R: Records, M: Entries, v: NodeVal, i: nat, j: nat, start: int, end: int)
    requires LeafHolds(R, M, v) && i <= j <= |v.keys|
    requires forall k | 0 <= k < i :: v.keys[k] < start
    requires forall k | i <= k < j :: start <= v.keys[k] <= end
    requires j < |v.keys| ==> end < v.keys[j]
    ensures Lists(v.keys[i..j], v.ptrs[i..j], R, M, v.lo, v.hi, Between(start, end))
  {
    var ks, ps := v.keys[i..j], v.ptrs[i..j];
    assert forall k | 0 <= k < |ks| :: ks[k] == v.keys[i + k] && ps[k] == v.ptrs[i + k];
    forall k | k in M && start <= k <= end && In(k, v.lo, v.hi) ensures k in ks {
      var a :| 0 <= a < |v.keys| && v.keys[a] == k;
      assert i <= a < j;
      assert ks[a - i] == k;
    }
  }

  /** Appends to the part of an array that is filled. */
  method Push<T>(a: array<T>, n: nat, x: T)
    requires n < a.Length
    modifies a
    ensures a[..n + 1] == old(a[..n]) + [x]
  {
    a[n] := x;
  }

  /** Copies what one leaf has of the range behind the first num entries of the output. */
  method CopyRange(c: Node, i: nat, end: int, outKeys: array<int>, outPointers: array<Ptr>, num: nat, order: nat,
                   ghost v: NodeVal, ghost start: int)
    returns (j: nat, m: nat)
    requires Shows(c, v, order) && v.h == 0 && i <= |v.keys| && Sorted(v.keys)
    requires outKeys != c.keys && outPointers != c.pointers && outKeys.Length == outPointers.Length
    requires num <= outKeys.Length && end - start < outKeys.Length
    requires Sorted(outKeys[..num]) && forall k | k in outKeys[..num] ::
              start <= k <= end && (i < |v.keys| ==> k < v.keys[i])
    requires i < |v.keys| ==> start <= v.keys[i]
    modifies outKeys, outPointers
    ensures i <= j <= |v.keys| && m == num + (j - i) <= outKeys.Length
    ensures outKeys[..m] == old(outKeys[..num]) + v.keys[i..j]
    ensures outPointers[..m] == old(outPointers[..num]) + v.ptrs[i..j]
    ensures (forall k | i <= k < j :: v.keys[k] <= end) && (j < |v.keys| ==> end < v.keys[j])
  {
    j, m := i, num;
    ghost var ks, ps := outKeys[..num], outPointers[..num];
    while j < c.numKeys && c.keys[j] <= end
      invariant i <= j <= |v.keys| && m == num + (j - i) <= outKeys.Length
      invariant outKeys[..m] == ks + v.keys[i..j] && outPointers[..m] == ps + v.ptrs[i..j]
      invariant forall k | i <= k < j :: v.keys[k] <= end
    {
      assert c.keys[j] == v.keys[j] && c.pointers[j] == v.ptrs[j];
      RoomLeft(ks, v.keys, i, j, start, end);
      Push(outKeys, m, c.keys[j]);
      Push(outPointers, m, c.pointers[j]);
      assert v.keys[i..j + 1] == v.keys[i..j] + [v.keys[j]] && v.ptrs[i..j + 1] == v.ptrs[i..j] + [v.ptrs[j]];
      j, m := j + 1, m + 1;
    }
  }

  /** There is room in the output for one more key of the range. */
  lemma RoomLeft(before: seq<int>, keys: seq<int>, i: nat, j: nat, start: int, end: int)
    requires Sorted(before) && Sorted(keys) && i <= j < |keys| && start <= keys[i] && keys[j] <= end
    requires forall k | k in before :: start <= k <= end && k < keys[i]
    ensures |before| + (j - i) <= end - start
  {
    var part := keys[i..j + 1];
    assert forall a | 0 <= a < |part| :: part[a] == keys[i + a];
    assert forall a | 0 <= a < |before| :: before[a] in before;
    SortedJoin(before, part);
    FewKeys(before + part, start, end);
  }

  /** The entries the output holds. */
  ghost predicate Found(outKeys: array<int>, outPointers: array<Ptr>, n: nat, R: Records, M: Entries, start: int,
                        end: int, b: Bound)
    reads outKeys, outPointers
  {
    && n <= outKeys.Length && n <= outPointers.Length
    && Lists(outKeys[..n], outPointers[..n], R, M, NegInf, b, Between(start, end))
  }

  /** One leaf's share of the range. */
  method TakeLeaf(c: Node, i: nat, start: int, end: int, outKeys: array<int>, outPointers: array<Ptr>, num: nat,
                  order: nat,
                  ghost v: NodeVal, ghost R: Records, ghost M: Entries) returns (m: nat)
    requires Shows(c, v, order) && v.h == 0 && i <= |v.keys| && LeafHolds(R, M, v)
    requires outKeys != c.keys && outPointers != c.pointers && outKeys.Length == outPointers.Length
    requires end - start < outKeys.Length
    requires Found(outKeys, outPointers, num, R, M, start, end, v.lo)
    requires (forall k | 0 <= k < i :: v.keys[k] < start) && (forall k | i <= k < |v.keys| :: start <= v.keys[k])
    modifies outKeys, outPointers
    ensures Found(outKeys, outPointers, m, R, M, start, end, v.hi)
  {
    ghost var ks, ps := outKeys[..num], outPointers[..num];
    assert forall k | k in ks && i < |v.keys| :: k < v.keys[i];
    var j;
    j, m := CopyRange(c, i, end, outKeys, outPointers, num, order, v, start);
    LeafPart(R, M, v, i, j, start, end);
    ListsJoin(ks, ps, v.keys[i..j], v.ptrs[i..j], R, M, v.lo, v.hi, Between(start, end));
  }

  /** Nothing of the range lies below the leaf that has its start. */
  lemma RangeStarts(R: Records, M: Entries, v: NodeVal, start: int, end: int)
    requires In(start, v.lo, v.hi)
    ensures Lists([], [], R, M, NegInf, v.lo, Between(start, end))
  {
  }

  /** In every later leaf, all keys are above start. */
  lemma LaterKeys(R: Records, M: Entries, v: NodeVal, start: int)
    requires LeafHolds(R, M, v) && !AtOrAbove(start, v.lo) && !v.lo.PosInf?
    ensures forall k | 0 <= k < |v.keys| :: start <= v.keys[k]
    ensures Below(start, v.hi)
  {
  }

  /** Whether the leaf that start leads to has a key to start from. */
  ghost predicate CanStart(S: Store, start: int) {
    exists c :: c in S && S[c].h == 0 && In(start, S[c].lo, S[c].hi) && ReachesFrom(S[c], start)
  }

  lemma StartLeaf(S: Store, R: Records, M: Entries, root: Node, c: Node, start: int)
    requires Linked(S, R, M, root, NoPend) && c in S && S[c].h == 0 && In(start, S[c].lo, S[c].hi)
    ensures CanStart(S, start) <==> ReachesFrom(S[c], start)
  {
    if CanStart(S, start) {
      var d :| d in S && S[d].h == 0 && In(start, S[d].lo, S[d].hi) && ReachesFrom(S[d], start);
      OneNode(S, R, M, root, c, d, start);
    }
  }

  lemma KeyReaches(R: Records, M: Entries, v: NodeVal, start: int)
    requires LeafHolds(R, M, v) && In(start, v.lo, v.hi)
    ensures start in M ==> ReachesFrom(v, start)
  {
  }

  /** Every key has a leaf. */
  lemma {:induction false} LeafOf(S: Store, R: Records, M: Entries, root: Node, c: Node, key: int) returns (leaf: Node)
    requires Linked(S, R, M, root, NoPend) && c in S && In(key, S[c].lo, S[c].hi)
    ensures leaf in S && S[leaf].h == 0 && In(key, S[leaf].lo, S[leaf].hi)
    decreases S[c].h
  {
    hide Linked;
    leaf := c;
    if S[c].h > 0 {
      var i := 0;
      while i < |S[c].keys| && S[c].keys[i] <= key
        invariant i <= |S[c].keys| && forall j | 0 <= j < i :: S[c].keys[j] <= key
      {
        i := i + 1;
      }
      Descend(S, R, M, root, c, i, key);
      leaf := LeafOf(S, R, M, root, S[c].ptrs[i].node, key);
    }
  }

  /** A range can be started at every key of the map. */
  lemma KeyStarts(S: Store, R: Records, M: Entries, root: Node, start: int)
    requires Linked(S, R, M, root, NoPend) && start in M
    ensures CanStart(S, start)
  {
    var leaf := LeafOf(S, R, M, root, root, start);
    LeafFacts(S, R, M, root, leaf);
    KeyReaches(R, M, S[leaf], start);
  }

  /** What is needed to go on with the walk at position j of leaf c. */
  ghost predicate Resumes(c: Node, j: nat, start: int, S: Store) {
    && c in S && S[c].h == 0 && Below(start, S[c].hi) && j <= |S[c].keys|
    && (forall k | 0 <= k < j :: S[c].keys[k] < start) && (forall k | j <= k < |S[c].keys| :: start <= S[c].keys[k])
  }

  lemma WalkOn(S: Store, R: Records, M: Entries, root: Node, c: Node, j: nat, start: int)
    requires Linked(S, R, M, root, NoPend) && Resumes(c, j, start, S)
    ensures if S[c].next == Null then S[c].hi == PosInf
            else S[c].next.ToNode? && Resumes(S[c].next.node, 0, start, S) && S[S[c].next.node].lo == S[c].hi
                 && |Later(S, S[c].hi)| < |Later(S, S[c].lo)|
  {
    LeafFacts(S, R, M, root, c);
    if S[c].next != Null {
      NextShrinks(S, R, M, root, c);
      LeafFacts(S, R, M, root, S[c].next.node);
      LaterKeys(R, M, S[S[c].next.node], start);
    }
  }

  /** One leaf of the walk; next is where it goes on. */
  method VisitLeaf(c: Node, j: nat, start: int, end: int, outKeys: array<int>, outPointers: array<Ptr>, num: nat,
                   order: nat,
                   ghost root: Node, ghost S: Store, ghost R: Records, ghost M: Entries) returns (n: nat, next: Ptr)
    requires Standing(S, R, M, root, order) && Resumes(c, j, start, S)
    requires outKeys !in Foot(S.Keys) && outPointers !in Foot(S.Keys)
    requires outKeys.Length == outPointers.Length && end - start < outKeys.Length
    requires Found(outKeys, outPointers, num, R, M, start, end, S[c].lo)
    modifies outKeys, outPointers
    ensures Standing(S, R, M, root, order) && Found(outKeys, outPointers, n, R, M, start, end, S[c].hi)
    ensures next == S[c].next
  {
    LeafFacts(S, R, M, root, c);
    assert Shows(c, S[c], order);
    hide Linked, Sized, Apart, LeafHolds, Found;
    n := TakeLeaf(c, j, start, end, outKeys, outPointers, num, order, S[c], R, M);
    assert Shows(c, S[c], order);
    next := c.pointers[order - 1];
  }

  /** The rest of find_range, from position i of the leaf that start leads to. */
  method Walk(leaf: Node, i: nat, start: int, end: int, outKeys: array<int>, outPointers: array<Ptr>, order: nat,
              ghost root: Node, ghost S: Store, ghost R: Records, ghost M: Entries) returns (n: nat)
    requires Standing(S, R, M, root, order) && Resumes(leaf, i, start, S) && In(start, S[leaf].lo, S[leaf].hi)
    requires outKeys !in Foot(S.Keys) && outPointers !in Foot(S.Keys)
    requires outKeys.Length == outPointers.Length && end - start < outKeys.Length
    modifies outKeys, outPointers
    ensures Found(outKeys, outPointers, n, R, M, start, end, PosInf)
  {
    n := 0;
    var c, j := leaf, i;
    RangeStarts(R, M, S[leaf], start, end);
    assert outKeys[..0] == [] && outPointers[..0] == [];
    hide Linked, Sized, Stored, Lists, Resumes;
    while true
      invariant Standing(S, R, M, root, order) && Resumes(c, j, start, S)
      invariant c in S && Found(outKeys, outPointers, n, R, M, start, end, S[c].lo)
      decreases |Later(S, S[c].lo)|
    {
      var next;
      n, next := VisitLeaf(c, j, start, end, outKeys, outPointers, n, order, root, S, R, M);
      WalkOn(S, R, M, root, c, j, start);
      if next == Null {
        return;
      }
      c, j := next.node, 0;
    }
  }

  /** The first position of a leaf with a key of at least start, or the number of its keys. */
  method FirstFrom(leaf: Node, start: int, order: nat, ghost v: NodeVal) returns (i: nat)
    requires Shows(leaf, v, order) && Sorted(v.keys)
    ensures i <= |v.keys| && (i < |v.keys| <==> ReachesFrom(v, start))
    ensures (forall k | 0 <= k < i :: v.keys[k] < start) && (forall k | i <= k < |v.keys| :: start <= v.keys[k])
  {
    i := 0;
    while i < leaf.numKeys && leaf.keys[i] < start
      invariant 0 <= i <= leaf.numKeys
      invariant forall k | 0 <= k < i :: v.keys[k] < start
    {
      i := i + 1;
    }
  }

  /** A leaf with no key from start on: nothing is found, and nothing else is right only if the range is empty. */
  lemma NothingFound(R: Records, M: Entries, start: int, end: int)
    ensures Lists([], [], R, M, NegInf, PosInf, Between(start, end)) <==> forall k | k in M :: !(start <= k <= end)
  {
  }

  /** Where a range starts. */
  method FindStart(root: Node, start: int, order: nat, ghost S: Store, ghost R: Records, ghost M: Entries)
    returns (leaf: Node, i: nat)
    requires Tree(S, R, M, root, order)
    ensures Tree(S, R, M, root, order) && Resumes(leaf, i, start, S) && In(start, S[leaf].lo, S[leaf].hi)
    ensures leaf.numKeys == |S[leaf].keys| && (CanStart(S, start) <==> i < leaf.numKeys)
    ensures start in M ==> CanStart(S, start)
  {
    leaf := FindLeaf(root, start, order, S, R, M);
    StartLeaf(S, R, M, root, leaf, start);
    LeafFacts(S, R, M, root, leaf);
    KeyReaches(R, M, S[leaf], start);
    hide Linked, Sized, CanStart;
    assert Shows(leaf, S[leaf], order);
    i := FirstFrom(leaf, start, order, S[leaf]);
  }

  /**
   * find_range: the entries from start to end, if the leaf that start leads to has a key of at least start.
   * Otherwise the early return gives nothing, which is right only if the range is empty.
   */
  method FindRange(root: Node?, start: int, end: int, outKeys: array<int>, outPointers: array<Ptr>, order: nat,
                   ghost S: Store, ghost R: Records, ghost M: Entries) returns (n: nat)
    requires Tree(S, R, M, root, order)
    requires outKeys !in Foot(S.Keys) && outPointers !in Foot(S.Keys)
    requires outKeys.Length == outPointers.Length && end - start < outKeys.Length
    modifies outKeys, outPointers
    ensures CanStart(S, start) ==> Found(outKeys, outPointers, n, R, M, start, end, PosInf)
    ensures !CanStart(S, start) ==> n == 0
    ensures Found(outKeys, outPointers, n, R, M, start, end, PosInf)
            <==> CanStart(S, start) || forall k | k in M :: !(start <= k <= end)
    ensures start in M ==> Found(outKeys, outPointers, n, R, M, start, end, PosInf)
  {
    n := 0;
    NothingFound(R, M, start, end);
    assert outKeys[..0] == [] && outPointers[..0] == [];
    if root == null {
      return;
    }
    hide IsTree, Stored, Lists, CanStart, Resumes;
    var leaf, i := FindStart(root, start, order, S, R, M);
    if i == leaf.numKeys {
      return;
    }
    n := Walk(leaf, i, start, end, outKeys, outPointers, order, root, S, R, M);
  }
}
