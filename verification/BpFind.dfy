/** Looking a key up. */
module BpFind {
  import opened BpNode
  import opened BpStore
  import opened BpArrays
  import opened BpHeap

  /** The records hold the values the map says. */
  ghost predicate Values(R: Records)
    reads R.Keys
  {
    forall r {:trigger r.value} {:trigger R[r]} | r in R :: r.value == R[r] && !r.freed
  }

  /** The records handed out stay the tree's, with their values except for one key's. */
  ghost predicate RecordsKept(R: Records, Q: Records, key: int) {
    forall r {:trigger r in Q} | r in R :: r in Q && (r.key != key ==> Q[r] == R[r])
  }

  lemma OneRecord(S: Store, R: Records, M: Entries, root: Node?, order: nat)
    requires Tree(S, R, M, root, order)
    ensures RecsOk(R, M)
  {
  }

  /** A record is neither a node nor an array of one. */
  lemma RecordsApart(N: set<Node>, Q: set<Record>)
    ensures forall r {:trigger r in Q} | r in Q :: (r as object) !in Foot(N)
  {
  }

  /** The tree at root, which may be empty, stands in memory; it is a tree for M, with records R. */
  ghost predicate Standing(S: Store, R: Records, M: Entries, root: Node?, order: nat)
    reads Foot(S.Keys)
  {
    && order >= 3
    && if root == null then S == map[] && R == map[] && M == map[]
       else IsTree(S, R, M, root, NoPend, order) && Stored(S, order)
  }

  /** The tree at root and its records in memory hold the map M. */
  ghost predicate Tree(S: Store, R: Records, M: Entries, root: Node?, order: nat)
    reads Foot(S.Keys), R.Keys
  {
    Values(R) && Standing(S, R, M, root, order)
  }

  /** The keys that are asked for. */
  datatype Range = Everything | Between(start: int, end: int) {
    predicate Has(k: int) {
      Everything? || start <= k <= end
    }
  }

  /**
   * keys and ptrs are the entries of M that are asked for between two bounds, in ascending order, and their
   * records.
   */
  ghost predicate Lists(keys: seq<int>, ptrs: seq<Ptr>, R: Records, M: Entries, a: Bound, b: Bound, range: Range) {
    && Sorted(keys) && |ptrs| == |keys|
    && (forall i {:trigger keys[i]} {:trigger ptrs[i]} | 0 <= i < |keys| ::
          In(keys[i], a, b) && range.Has(keys[i]) && keys[i] in M
          && ptrs[i].ToRecord? && ptrs[i].rec in R && ptrs[i].rec.key == keys[i])
    && (forall k | k in M && In(k, a, b) && range.Has(k) :: k in keys)
  }

  /** A leaf lists what M has in its interval. */
  ghost predicate LeafHolds(R: Records, M: Entries, v: NodeVal) {
    Less(v.lo, v.hi) && Lists(v.keys, v.ptrs, R, M, v.lo, v.hi, Everything)
  }

  lemma LeafFacts(S: Store, R: Records, M: Entries, root: Node, c: Node)
    requires Linked(S, R, M, root, NoPend) && c in S && S[c].h == 0
    ensures LeafHolds(R, M, S[c]) && NextOk(S, S[c])
  {
    assert NodeOk(S, R, M, root, NoPend, c);
  }

  /** Going down to child i keeps the key inside the interval. */
  lemma Descend(S: Store, R: Records, M: Entries, root: Node, c: Node, i: nat, key: int)
    requires Linked(S, R, M, root, NoPend) && c in S && S[c].h > 0 && In(key, S[c].lo, S[c].hi) && i <= |S[c].keys|
    requires forall j | 0 <= j < i :: S[c].keys[j] <= key
    requires i < |S[c].keys| ==> key < S[c].keys[i]
    ensures i < |S[c].ptrs| && S[c].ptrs[i].ToNode? && S[c].ptrs[i].node in S
    ensures var d := S[c].ptrs[i].node; S[d].h + 1 == S[c].h && In(key, S[d].lo, S[d].hi)
  {
    assert NodeOk(S, R, M, root, NoPend, c);
    assert ChildOk(S, NoPend, c, S[c], i);
  }

  /** find_leaf: the only leaf whose interval has the key. */
  method FindLeaf(root: Node?, key: int, order: nat, ghost S: Store, ghost R: Records, ghost M: Entries)
    returns (c: Node?)
    requires Tree(S, R, M, root, order)
    ensures Tree(S, R, M, root, order) && (c == null <==> root == null)
    ensures c != null ==> c in S && S[c].h == 0 && In(key, S[c].lo, S[c].hi)
  {
    if root == null {
      return null;
    }
    c := root;
    assert Shows(c, S[c], order);
    while !c.isLeaf
      invariant c != null && c in S && Shows(c, S[c], order) && In(key, S[c].lo, S[c].hi)
      decreases S[c].h
    {
      var i := 0;
      while i < c.numKeys && key >= c.keys[i]
        invariant i <= c.numKeys
        invariant forall j | 0 <= j < i :: S[c].keys[j] <= key
      {
        i := i + 1;
      }
      Descend(S, R, M, root, c, i, key);
      c := c.pointers[i].node;
      assert Shows(c, S[c], order);
    }
  }

  /** find: the record and the leaf of a key. */
  method Find(root: Node?, key: int, order: nat, ghost S: Store, ghost R: Records, ghost M: Entries)
    returns (rec: Record?, leaf: Node?, ghost at: nat)
    requires Tree(S, R, M, root, order)
    ensures Tree(S, R, M, root, order) && (rec != null <==> key in M)
    ensures rec != null ==> rec in R && rec.key == key && rec.value == M[key]
    ensures leaf == null <==> root == null
    ensures leaf != null ==> leaf in S && S[leaf].h == 0 && In(key, S[leaf].lo, S[leaf].hi)
    ensures rec != null ==> leaf != null && at < |S[leaf].keys| == |S[leaf].ptrs|
                            && S[leaf].keys[at] == key && S[leaf].ptrs[at] == ToRecord(rec)
  {
    at := 0;
    if root == null {
      return null, null, 0;
    }
    leaf := FindLeaf(root, key, order, S, R, M);
    assert Shows(leaf, S[leaf], order);
    LeafFacts(S, R, M, root, leaf);
    var i := 0;
    while i < leaf.numKeys && leaf.keys[i] != key
      invariant i <= leaf.numKeys
      invariant forall j | 0 <= j < i :: S[leaf].keys[j] != key
    {
      i := i + 1;
    }
    if i == leaf.numKeys {
      rec := null;
    } else {
      assert S[leaf].keys[i] == key;
      rec, at := leaf.pointers[i].rec, i;
    }
  }
}
