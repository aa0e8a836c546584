/** A tall tree holds many keys. */
module BpHeight {
  import opened BpNode
  import opened BpStore
  import opened BpArrays
  import opened BpHeap
  import opened BpFind
  import opened BpScan

  function Pow(b: nat, e: nat): nat {
    if e == 0 then 1 else b * Pow(b, e - 1)
  }

  /** The keys of M in an interval. */
  ghost function Inside(M: Entries, lo: Bound, hi: Bound): set<int> {
    set k | k in M && In(k, lo, hi)
  }

  lemma {:induction false} SortedSize(keys: seq<int>)
    requires Sorted(keys)
    ensures |set k | k in keys| == |keys|
  {
    if keys == [] {
    } else {
      var n := |keys| - 1;
      SortedSize(keys[..n]);
      assert keys == keys[..n] + [keys[n]];
      assert keys[n] !in keys[..n];
      assert (set k | k in keys) == (set k | k in keys[..n]) + {keys[n]};
    }
  }

  lemma LeafCount(R: Records, M: Entries, v: NodeVal)
    requires LeafHolds(R, M, v)
    ensures |Inside(M, v.lo, v.hi)| == |v.keys|
  {
    SortedSize(v.keys);
    var keys := set k | k in v.keys;
    forall k ensures k in keys <==> k in Inside(M, v.lo, v.hi) {
      if k in v.keys {
        var i :| 0 <= i < |v.keys| && v.keys[i] == k;
      }
    }
    assert keys == Inside(M, v.lo, v.hi);
  }

  /** Neighbouring intervals share no key. */
  lemma InsideAdds(M: Entries, a: Bound, b: Bound, c: Bound)
    requires (a == b || Less(a, b)) && Less(b, c)
    ensures |Inside(M, a, b)| + |Inside(M, b, c)| <= |Inside(M, a, c)|
  {
    var x, y, z := Inside(M, a, b), Inside(M, b, c), Inside(M, a, c);
    assert x !! y && x + y <= z;
    Smaller(x + y, z);
  }

  /** Where the first i children of a node end. */
  ghost function EndOf(v: NodeVal, i: nat): Bound
    requires i <= |v.keys| + 1
  {
    if i == 0 then v.lo else HiAt(v, i - 1)
  }

  lemma Grows(a: nat, b: nat, f: nat)
    requires a <= b
    ensures a * f <= b * f
  {
  }

  /** What the parent says of its i-th child. */
  lemma ChildFacts(S: Store, R: Records, M: Entries, root: Node, n: Node, i: nat) returns (c: Node)
    requires Linked(S, R, M, root, NoPend) && n in S && S[n].h > 0 && i <= |S[n].keys|
    ensures c in S && S[c].h + 1 == S[n].h && S[c].h < S[root].h
    ensures S[c].lo == LoAt(S[n], i) && S[c].hi == HiAt(S[n], i) && Less(S[c].lo, S[c].hi)
    ensures i > 0 ==> Less(S[n].lo, LoAt(S[n], i))
  {
    assert NodeOk(S, R, M, root, NoPend, n);
    assert ChildOk(S, NoPend, n, S[n], i);
    c := S[n].ptrs[i].node;
    assert NodeOk(S, R, M, root, NoPend, c);
  }

  lemma {:induction false} ChildrenCount(S: Store, R: Records, M: Entries, root: Node, n: Node, i: nat, order: nat,
                                        f: nat)
    requires IsTree(S, R, M, root, NoPend, order) && n in S && S[n].h > 0 && i <= |S[n].keys| + 1
    requires f == Pow(Cut(order), S[n].h - 1) * Cut(order - 1)
    ensures |Inside(M, S[n].lo, EndOf(S[n], i))| >= i * f
    decreases S[n].h, 0, i
  {
    hide Linked, Sized, Inside;
    if i == 0 {
    } else {
      var v := S[n];
      var c := ChildFacts(S, R, M, root, n, i - 1);
      ChildrenCount(S, R, M, root, n, i - 1, order, f);
      NodeCount(S, R, M, root, c, order);
      assert EndOf(v, i - 1) == LoAt(v, i - 1);
      InsideAdds(M, v.lo, LoAt(v, i - 1), HiAt(v, i - 1));
    }
  }

  /** Below a node that is not the root there is at least this number of keys. */
  lemma {:induction false} NodeCount(S: Store, R: Records, M: Entries, root: Node, n: Node, order: nat)
    requires IsTree(S, R, M, root, NoPend, order) && n in S && S[n].h < S[root].h
    ensures |Inside(M, S[n].lo, S[n].hi)| >= Pow(Cut(order), S[n].h) * Cut(order - 1)
    decreases S[n].h, 1, 0
  {
    assert NodeOk(S, R, M, root, NoPend, n);
    assert SizeOk(n, S[n], order, root, null);
    var v := S[n];
    if v.h == 0 {
      LeafFacts(S, R, M, root, n);
      LeafCount(R, M, v);
    } else {
      var f := Pow(Cut(order), v.h - 1) * Cut(order - 1);
      ChildrenCount(S, R, M, root, n, |v.ptrs|, order, f);
      Grows(Cut(order), |v.ptrs|, f);
      Associates(Cut(order), Pow(Cut(order), v.h - 1), Cut(order - 1));
    }
  }

  lemma Associates(a: nat, b: nat, c: nat)
    ensures a * (b * c) == (a * b) * c
  {
  }

  /** The least number of keys at height h: 1 at height 0, else 2 * cut(order)^(h - 1) * cut(order - 1). */
  function LeastKeys(order: nat, h: nat): nat
    requires order > 0
  {
    if h == 0 then 1 else 2 * (Pow(Cut(order), h - 1) * Cut(order - 1))
  }

  /** A tree holds at least the number of keys that its height tells. */
  lemma HeightBound(S: Store, R: Records, M: Entries, root: Node, order: nat)
    requires IsTree(S, R, M, root, NoPend, order)
    ensures |M| >= LeastKeys(order, S[root].h)
  {
    assert NodeOk(S, R, M, root, NoPend, root);
    assert SizeOk(root, S[root], order, root, null);
    var v := S[root];
    assert Inside(M, NegInf, PosInf) == M.Keys;
    if v.h == 0 {
      LeafFacts(S, R, M, root, root);
      LeafCount(R, M, v);
    } else {
      var f := Pow(Cut(order), v.h - 1) * Cut(order - 1);
      ChildrenCount(S, R, M, root, root, |v.ptrs|, order, f);
      Grows(2, |v.ptrs|, f);
    }
  }
}
