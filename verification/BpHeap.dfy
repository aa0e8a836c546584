/** The heap a store describes, and how full its nodes are. */
module BpHeap {
  import opened BpNode
  import opened BpStore
  import opened BpGrow
  import opened BpArrays

  /** The nodes of N and their arrays. */
  ghost function Foot(N: set<Node>): (f: set<object>)
    ensures N == {} ==> f == {}
    ensures forall n {:trigger n in N} | n in N :: n in f && n.keys in f && n.pointers in f
  {
    N + (set n | n in N :: n.keys) + (set n | n in N :: n.pointers)
  }

  lemma FootUnion(A: set<Node>, B: set<Node>)
    ensures Foot(A + B) == Foot(A) + Foot(B)
  {
  }

  lemma FootSmaller(A: set<Node>, B: set<Node>)
    requires A <= B
    ensures Foot(A) <= Foot(B)
  {
  }

  lemma FootGrows(A: set<Node>, B: set<Node>)
    requires A <= B
    ensures Foot(B) - Foot(A) <= Foot(B - A)
  {
  }

  lemma FootOne(q: Node)
    ensures Foot({q}) == {q, q.keys, q.pointers}
  {
  }

  lemma FootStep(A: set<Node>, q: Node, B: set<Node>)
    requires A + {q} <= B && q !in A
    ensures Foot(B - A) == Foot(B - (A + {q})) + {q, q.keys, q.pointers}
    ensures Foot(A + {q}) == Foot(A) + {q, q.keys, q.pointers}
  {
    hide Foot;
    assert B - A == (B - (A + {q})) + {q};
    FootUnion(B - (A + {q}), {q});
    FootUnion(A, {q});
    FootOne(q);
  }

  lemma OutsideFoot(n: Node, N: set<Node>)
    requires n !in N
    ensures (n as object) !in Foot(N)
  {
  }

  ghost predicate Distinct(n: Node, m: Node) {
    n != m ==> n.keys != m.keys && n.pointers != m.pointers
  }

  /** No two nodes of N share an array. */
  ghost predicate Apart(N: set<Node>) {
    forall n, m {:trigger Distinct(n, m)} | n in N && m in N :: Distinct(n, m)
  }

  /** Every node of the store shows what the store says. */
  ghost predicate Synced(S: Store, order: nat)
    reads Foot(S.Keys)
  {
    forall n {:trigger Shows(n, S[n], order)} | n in S :: Shows(n, S[n], order)
  }

  /** The fewest keys of a node below the root. */
  function Min(h: nat, order: nat): nat
    requires order >= 3
  {
    if h == 0 then Cut(order - 1) else Cut(order) - 1
  }

  ghost predicate SizeOk(n: Node, v: NodeVal, order: nat, root: Node?, odd: Node?)
    requires order >= 3
  {
    && |v.keys| <= order - 1
    && |v.keys| + (if n == odd then 1 else 0) >= (if n == root then 1 else Min(v.h, order))
  }

  /** Nodes are at least half full, the root is not empty; `odd` may have one key too few. */
  ghost predicate Sized(S: Store, order: nat, root: Node?, odd: Node?)
    requires order >= 3
  {
    forall n {:trigger SizeOk(n, S[n], order, root, odd)} {:trigger n in S} | n in S ::
      SizeOk(n, S[n], order, root, odd)
  }

  /** The node that may be small: the root, unless it is being split. */
  ghost function Top(root: Node, pend: Pend): Node? {
    if pend.Pend? && pend.left == root then null else root
  }

  /** S is a B+ tree of the given order for M, up to a pending split. */
  ghost predicate IsTree(S: Store, R: Records, M: Entries, root: Node, pend: Pend, order: nat) {
    order >= 3 && Linked(S, R, M, root, pend) && Sized(S, order, Top(root, pend), null)
  }

  /** S stands in memory. */
  ghost predicate Stored(S: Store, order: nat)
    reads Foot(S.Keys)
  {
    Apart(S.Keys) && Synced(S, order)
  }

  /** A node that is not in the store yet shares no array with it. */
  method MakeNode(order: nat, ghost N: set<Node>) returns (n: Node)
    requires order >= 3 && Apart(N)
    ensures fresh(n) && fresh(n.keys) && fresh(n.pointers) && n !in N && Apart(N + {n})
    ensures n.keys.Length == order - 1 && n.pointers.Length == order && !n.freed
    ensures n.parent == null && !n.isLeaf && n.numKeys == 0
  {
    n := new Node(order);
  }

  lemma SyncedWith(S: Store, n: Node, v: NodeVal, order: nat)
    requires Synced(S, order) && Shows(n, v, order)
    ensures Synced(S[n := v], order)
  {
  }

  // ---- new parents for a node's children ----

  ghost predicate NodesOf(S: Store, ptrs: seq<Ptr>) {
    forall i {:trigger ptrs[i]} | 0 <= i < |ptrs| :: ptrs[i].ToNode? && ptrs[i].node in S
  }

  lemma ReparentOne(S: Store, ptrs: seq<Ptr>, q: Node, c: Node)
    requires c in S
    ensures Reparent(S, [], q) == S
    ensures c in Reparent(S, ptrs, q)
    ensures var T := Reparent(S, ptrs, q); Reparent(S, ptrs + [ToNode(c)], q) == T[c := T[c].(parent := q)]
  {
  }

  method SetParent(c: Node, q: Node?, order: nat, ghost S: Store)
    requires c in S && Synced(S, order)
    modifies c`parent
    ensures Synced(S[c := S[c].(parent := q)], order)
  {
    ghost var T: Store := S[c := S[c].(parent := q)];
    assert forall n | n in S :: Shows(n, S[n], order);
    c.parent := q;
    forall n | n in T ensures Shows(n, T[n], order) {
      assert n in S && old(Shows(n, S[n], order));
    }
  }

  method RehangOne(c: Node, q: Node, order: nat, ghost S: Store, ghost ptrs: seq<Ptr>, ghost i: nat)
    requires i < |ptrs| && ptrs[i] == ToNode(c) && c in S && Synced(Reparent(S, ptrs[..i], q), order)
    modifies c`parent
    ensures Synced(Reparent(S, ptrs[..i + 1], q), order)
  {
    ReparentOne(S, ptrs[..i], q, c);
    assert ptrs[..i + 1] == ptrs[..i] + [ToNode(c)];
    SetParent(c, q, order, Reparent(S, ptrs[..i], q));
  }

  /** All children of q are made to point up to it. */
  method Rehang(q: Node, order: nat, ghost S: Store, ghost ptrs: seq<Ptr>)
    requires Synced(S, order) && Holds(q.pointers, ptrs) && |ptrs| == q.numKeys + 1 && NodesOf(S, ptrs)
    modifies S.Keys`parent
    ensures Synced(Reparent(S, ptrs, q), order)
  {
    var i := 0;
    assert Reparent(S, ptrs[..0], q) == S;
    while i <= q.numKeys
      invariant 0 <= i <= |ptrs| == q.numKeys + 1
      invariant Synced(Reparent(S, ptrs[..i], q), order)
    {
      assert q.pointers[i] == ptrs[i];
      RehangOne(q.pointers[i].node, q, order, S, ptrs, i);
      i := i + 1;
    }
    assert ptrs[..i] == ptrs;
  }
}
