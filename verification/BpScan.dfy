/** Reading the leaves in order. */
module BpScan {
  import opened BpNode
  import opened BpStore
  import opened BpArrays
  import opened BpHeap
  import opened BpFind

  /** The leaves whose interval starts after b: those still to come in the chain. */
  ghost function Later(S: Store, b: Bound): set<Node> {
    set n | n in S && S[n].h == 0 && Less(b, S[n].lo)
  }

  /** Going to the next leaf leaves fewer to come. */
  lemma NextShrinks(S: Store, R: Records, M: Entries, root: Node, c: Node)
    requires Linked(S, R, M, root, NoPend) && c in S && S[c].h == 0 && S[c].next != Null
    ensures S[c].next.ToNode? && S[c].next.node in S && S[S[c].next.node].h == 0 && S[S[c].next.node].lo == S[c].hi
    ensures |Later(S, S[c].hi)| < |Later(S, S[c].lo)|
  {
    LeafFacts(S, R, M, root, c);
    var d := S[c].next.node;
    LeafFacts(S, R, M, root, d);
    SmallerLater(S, S[c].lo, S[c].hi, d);
  }

  lemma SmallerLater(S: Store, a: Bound, b: Bound, d: Node)
    requires Less(a, b) && d in S && S[d].h == 0 && S[d].lo == b
    ensures |Later(S, b)| < |Later(S, a)|
  {
    assert d in Later(S, a) && d !in Later(S, b);
    assert Later(S, b) < Later(S, a);
    Subset(Later(S, b), Later(S, a));
  }

  lemma Subset<T>(a: set<T>, b: set<T>)
    requires a < b
    ensures |a| < |b|
  {
    var x :| x in b && x !in a;
    assert a <= b - {x};
    Smaller(a, b - {x});
  }

  lemma {:induction false} Smaller<T>(a: set<T>, b: set<T>)
    requires a <= b
    ensures |a| <= |b|
    decreases a
  {
    if x :| x in a {
      Smaller(a - {x}, b - {x});
    }
  }

  /** What is listed next comes after what is listed before. */
  lemma ListsJoin(keys: seq<int>, ptrs: seq<Ptr>, ks: seq<int>, ps: seq<Ptr>, R: Records, M: Entries, b: Bound,
                  c: Bound, range: Range)
    requires Lists(keys, ptrs, R, M, NegInf, b, range) && Lists(ks, ps, R, M, b, c, range) && Less(b, c)
    ensures Lists(keys + ks, ptrs + ps, R, M, NegInf, c, range)
  {
    hide Sorted, Range.Has, In, Less;
    Wider(b, c);
    SortedJoin(keys, ks);
    forall k | k in M && In(k, NegInf, c) && range.Has(k) ensures k in keys + ks {
      assert k in keys || k in ks;
    }
  }

  lemma Wider(b: Bound, c: Bound)
    requires Less(b, c)
    ensures forall k {:trigger In(k, NegInf, c)} :: In(k, NegInf, c) <==> In(k, NegInf, b) || In(k, b, c)
    ensures forall k :: In(k, NegInf, b) ==> In(k, NegInf, c)
    ensures forall k :: In(k, b, c) ==> In(k, NegInf, c)
    ensures forall x, y :: In(x, NegInf, b) && In(y, b, c) ==> x < y
  {
  }

  lemma SortedJoin(a: seq<int>, b: seq<int>)
    requires Sorted(a) && Sorted(b) && forall i, j | 0 <= i < |a| && 0 <= j < |b| :: a[i] < b[j]
    ensures Sorted(a + b)
  {
  }

  /** The leftmost leaf: down the first pointers. */
  method LeftmostLeaf(root: Node, order: nat, ghost S: Store, ghost R: Records, ghost M: Entries)
    returns (c: Node, h: nat)
    requires Standing(S, R, M, root, order)
    ensures c in S && S[c].h == 0 && S[c].lo == NegInf && h == S[root].h
  {
    c, h := root, 0;
    assert Shows(c, S[c], order);
    while !c.isLeaf
      invariant c in S && Shows(c, S[c], order) && S[c].lo == NegInf && h + S[c].h == S[root].h
      decreases S[c].h
    {
      FirstChild(S, R, M, root, c);
      c := c.pointers[0].node;
      assert Shows(c, S[c], order);
      h := h + 1;
    }
  }

  lemma FirstChild(S: Store, R: Records, M: Entries, root: Node, c: Node)
    requires Linked(S, R, M, root, NoPend) && c in S && S[c].h > 0
    ensures |S[c].ptrs| > 0 && S[c].ptrs[0].ToNode? && S[c].ptrs[0].node in S
    ensures S[S[c].ptrs[0].node].h + 1 == S[c].h && S[S[c].ptrs[0].node].lo == S[c].lo
  {
    assert NodeOk(S, R, M, root, NoPend, c);
    assert ChildOk(S, NoPend, c, S[c], 0);
  }

  /** height: the length of the path to the leftmost leaf, and so to any leaf. */
  method Height(root: Node, order: nat, ghost S: Store, ghost R: Records, ghost M: Entries) returns (h: nat)
    requires Standing(S, R, M, root, order)
    ensures root in S && h == S[root].h
  {
    var c;
    c, h := LeftmostLeaf(root, order, S, R, M);
  }

  /** print_leaves: following the chain from the leftmost leaf lists the map in ascending order. */
  method Leaves(root: Node, order: nat, ghost S: Store, ghost R: Records, ghost M: Entries)
    returns (keys: seq<int>, ptrs: seq<Ptr>)
    requires Standing(S, R, M, root, order)
    ensures Lists(keys, ptrs, R, M, NegInf, PosInf, Everything)
  {
    var c, h := LeftmostLeaf(root, order, S, R, M);
    keys, ptrs := [], [];
    while true
      invariant c in S && S[c].h == 0 && Lists(keys, ptrs, R, M, NegInf, S[c].lo, Everything)
      decreases |Later(S, S[c].lo)|
    {
      LeafFacts(S, R, M, root, c);
      ListsJoin(keys, ptrs, S[c].keys, S[c].ptrs, R, M, S[c].lo, S[c].hi, Everything);
      var ks, ps := LeafEntries(c, order, S[c]);
      keys, ptrs := keys + ks, ptrs + ps;
      assert Shows(c, S[c], order);
      if c.pointers[order - 1] == Null {
        return;
      }
      NextShrinks(S, R, M, root, c);
      c := c.pointers[order - 1].node;
    }
  }

  /** The entries of one leaf. */
  method LeafEntries(c: Node, order: nat, ghost v: NodeVal) returns (keys: seq<int>, ptrs: seq<Ptr>)
    requires Shows(c, v, order) && v.h == 0
    ensures keys == v.keys && ptrs == v.ptrs
  {
    keys, ptrs := [], [];
    var i := 0;
    while i < c.numKeys
      invariant 0 <= i <= |v.keys| && keys == v.keys[..i] && ptrs == v.ptrs[..i]
    {
      assert v.keys[i] == c.keys[i] && v.ptrs[i] == c.pointers[i];
      keys, ptrs := keys + [c.keys[i]], ptrs + [c.pointers[i]];
      i := i + 1;
    }
  }
}
