/** Deletion: a node left too small is merged with a sibling or borrows from it, up to the root. */
module BpDelete {
  import opened BpNode
  import opened BpStore
  import opened BpGrow
  import opened BpShrink
  import opened BpArrays
  import opened BpHeap
  import opened BpFind
  import opened BpMerge
  import opened BpLend

  // ---- facts about values ----

  /** A tree in which node odd has just lost an entry. */
  ghost predicate Shrunk(S: Store, R: Records, M: Entries, root: Node, odd: Node, order: nat) {
    order >= 3 && Linked(S, R, M, root, NoPend) && Sized(S, order, root, odd) && odd in S
  }

  lemma MergedSizes(S: Store, R: Records, M: Entries, root: Node, p: Node, j: nat, left: Node, right: Node, n: Node,
                    order: nat)
    requires Shrunk(S, R, M, root, n, order) && Siblings(S, p, j, left, right) && (n == left || n == right)
    requires |S[left].keys| + |S[right].keys| < (if S[left].h == 0 then order else order - 1)
    ensures Shrunk(Merge(S, p, j, left, right), R, M, root, p, order)
  {
    Merged(S, R, M, root, p, j, left, right);
    SiblingFacts(S, R, M, root, p, j, left, right);
    var T := Merge(S, p, j, left, right);
    assert SizeOk(left, S[left], order, root, n) && SizeOk(right, S[right], order, root, n)
      && SizeOk(p, S[p], order, root, n);
    forall m | m in T ensures SizeOk(m, T[m], order, root, p) {
      MergeValues(S, R, M, root, p, j, left, right, m);
      assert SizeOk(m, S[m], order, root, n);
    }
  }

  lemma LentSizes(S: Store, R: Records, M: Entries, root: Node, p: Node, j: nat, left: Node, right: Node, n: Node,
                  order: nat)
    requires Shrunk(S, R, M, root, n, order) && Siblings(S, p, j, left, right) && (n == left || n == right)
    requires |S[n].keys| < Min(S[n].h, order)
    requires |S[left].keys| + |S[right].keys| >= (if S[left].h == 0 then order else order - 1)
    ensures var s := if n == right then |S[left].keys| - 1 else |S[left].keys| + 1;
      && 0 < s < |MergedVal(S[left], S[right], S[p].keys[j]).keys|
  {
  }

  /** Which sibling deletion turns to. */
  lemma NeighborOf(S: Store, R: Records, M: Entries, root: Node, n: Node, r: int, order: nat)
    requires Shrunk(S, R, M, root, n, order) && n != root && S[n].parent != null && S[n].parent in S
    requires var p := S[n].parent; -1 <= r < |S[p].keys| && r + 1 < |S[p].ptrs| && S[p].ptrs[r + 1] == ToNode(n)
    ensures var p, j := S[n].parent, if r == -1 then 0 else r;
      && |S[p].keys| > 0 && |S[p].ptrs| == |S[p].keys| + 1
      && var c := S[p].ptrs[if r == -1 then 1 else r];
         c.ToNode? && if r == -1 then Siblings(S, p, j, n, c.node) else Siblings(S, p, j, c.node, n)
  {
    var p := S[n].parent;
    assert NodeOk(S, R, M, root, NoPend, n) && NodeOk(S, R, M, root, NoPend, p);
    assert SizeOk(p, S[p], order, root, n);
    assert ChildOk(S, NoPend, p, S[p], r + 1);
    var i := if r == -1 then 1 else r;
    assert ChildOk(S, NoPend, p, S[p], i);
    ParentHigher(S, R, M, root, n);
  }

  lemma HasParent(S: Store, R: Records, M: Entries, root: Node, n: Node)
    requires Linked(S, R, M, root, NoPend) && n in S && n != root
    ensures S[n].parent != null && S[n].parent in S && S[S[n].parent].h == S[n].h + 1
    ensures ToNode(n) in S[S[n].parent].ptrs
    ensures S[n].h < S[root].h && n != S[n].parent
  {
    var p, i := WhichChild(S, R, M, root, NoPend, n);
    assert NodeOk(S, R, M, root, NoPend, n);
  }

  // ---- the cascade ----

  /** How many keys each node has once the boundary has moved to s. */
  lemma Counts(S: Store, R: Records, M: Entries, root: Node, p: Node, j: nat, left: Node, right: Node, s: nat, m: Node)
    requires Linked(S, R, M, root, NoPend) && Boundary(S, p, j, left, right, s) && m in S
    ensures var U := Resplit(S, p, j, left, right, s);
      && U.Keys == S.Keys && U[m].h == S[m].h
      && |U[m].keys| == if m == left then s
                        else if m == right then |S[left].keys| + |S[right].keys| - s
                        else |S[m].keys|
  {
    SiblingFacts(S, R, M, root, p, j, left, right);
    LentEnds(S, R, M, root, p, j, left, right, s);
    if m != left && m != right && m != p {
      Hangs(S, R, M, root, p, j, left, right, s, m);
    }
    hide Linked, Resplit, Ordered, NodeOk;
  }

  lemma ResplitSized(S: Store, R: Records, M: Entries, root: Node, p: Node, j: nat, left: Node, right: Node, n: Node,
                     s: nat, order: nat)
    requires Shrunk(S, R, M, root, n, order) && Boundary(S, p, j, left, right, s) && (n == left || n == right)
    requires |S[n].keys| < Min(S[n].h, order) && s == if n == right then |S[left].keys| - 1 else |S[left].keys| + 1
    requires |S[left].keys| + |S[right].keys| >= (if S[left].h == 0 then order else order - 1)
    ensures Sized(Resplit(S, p, j, left, right, s), order, root, null)
  {
    SiblingFacts(S, R, M, root, p, j, left, right);
    hide Linked, Resplit, Ordered, NodeOk, MergedVal, Siblings, Boundary;
    assert SizeOk(left, S[left], order, root, n) && SizeOk(right, S[right], order, root, n);
    Counts(S, R, M, root, p, j, left, right, s, left);
    var U := Resplit(S, p, j, left, right, s);
    forall m | m in U ensures SizeOk(m, U[m], order, root, null) {
      assert SizeOk(m, S[m], order, root, n);
      Counts(S, R, M, root, p, j, left, right, s, m);
    }
  }

  lemma ResplitSizes(S: Store, R: Records, M: Entries, root: Node, p: Node, j: nat, left: Node, right: Node, n: Node,
                     order: nat)
    returns (s: nat)
    requires Shrunk(S, R, M, root, n, order) && Siblings(S, p, j, left, right) && (n == left || n == right)
    requires |S[n].keys| < Min(S[n].h, order)
    requires |S[left].keys| + |S[right].keys| >= (if S[left].h == 0 then order else order - 1)
    ensures s == if n == right then |S[left].keys| - 1 else |S[left].keys| + 1
    ensures |S[n].keys| < order - 1 && Boundary(S, p, j, left, right, s)
    ensures IsTree(Resplit(S, p, j, left, right, s), R, M, root, NoPend, order)
  {
    LentSizes(S, R, M, root, p, j, left, right, n, order);
    s := if n == right then |S[left].keys| - 1 else |S[left].keys| + 1;
    Resplits(S, R, M, root, p, j, left, right, s);
    SiblingFacts(S, R, M, root, p, j, left, right);
    hide Linked, Resplit, Ordered, NodeOk, MergedVal, Sized;
    ResplitSized(S, R, M, root, p, j, left, right, n, s, order);
  }

  ghost predicate AllFreed(N: set<Node>)
    reads N
  {
    forall n {:trigger n.freed} | n in N :: n.freed
  }

  ghost function KeysOf(R: Records): (keys: set<int>)
    ensures forall r {:trigger r in R} | r in R :: r.key in keys
  {
    set r | r in R :: r.key
  }

  lemma LeafRoot(S: Store, R: Records, M: Entries, root: Node)
    requires Linked(S, R, M, root, NoPend) && S[root].h == 0
    ensures S.Keys == {root}
    ensures forall k | k in M :: k in S[root].keys
    ensures KeysOf(R) <= M.Keys
  {
    assert NodeOk(S, R, M, root, NoPend, root);
    forall n | n in S ensures n == root {
      assert NodeOk(S, R, M, root, NoPend, n);
    }
    assert forall k | k in M :: In(k, S[root].lo, S[root].hi);
  }

  lemma EmptyLeafRoot(S: Store, R: Records, M: Entries, root: Node)
    requires Linked(S, R, M, root, NoPend) && S[root].h == 0 && S[root].keys == []
    ensures S.Keys == {root} && M == map[] && R == map[]
  {
    LeafRoot(S, R, M, root);
    assert forall k :: k !in M.Keys;
    assert M.Keys == {};
    assert KeysOf(R) == {};
    assert R.Keys == {};
  }

  lemma CollapsedSizes(S: Store, R: Records, M: Entries, root: Node, order: nat)
    requires Shrunk(S, R, M, root, root, order) && S[root].h > 0 && S[root].keys == []
    ensures |S[root].ptrs| == 1 && S[root].ptrs[0].ToNode?
    ensures var c := S[root].ptrs[0].node; c in S && c != root && IsTree(Collapse(S, root, c), R, M, c, NoPend, order)
  {
    assert NodeOk(S, R, M, root, NoPend, root);
    assert ChildOk(S, NoPend, root, S[root], 0);
    var c := S[root].ptrs[0].node;
    assert S[root].ptrs == [ToNode(c)];
    Collapsed(S, R, M, root, c);
    var U := Collapse(S, root, c);
    forall m | m in U ensures SizeOk(m, U[m], order, c, null) {
      assert SizeOk(m, S[m], order, root, root);
    }
  }

  /** A node is given back, and what is left stands. */
  ghost method DropNode(n: Node, order: nat, S: Store)
    requires Stored(S, order) && n in S
    modifies n`freed
    ensures Stored(S - {n}, order) && n.freed
  {
    assert Shows(n, S[n], order);
    n.Free();
    forall m | m in S - {n} ensures Shows(m, (S - {n})[m], order) {
      assert old(Shows(m, S[m], order));
    }
  }

  /** A root with only one child gives way to it. */
  method PromoteChild(root: Node, order: nat, ghost S: Store, ghost R: Records, ghost M: Entries)
    returns (c: Node, ghost U: Store)
    requires Shrunk(S, R, M, root, root, order) && Stored(S, order) && S[root].h > 0 && S[root].keys == []
    modifies Foot(S.Keys)
    ensures Standing(U, R, M, c, order) && U.Keys <= S.Keys && AllFreed(S.Keys - U.Keys)
  {
    CollapsedSizes(S, R, M, root, order);
    assert Shows(root, S[root], order);
    hide Linked, Sized;
    c := root.pointers[0].node;
    SetParent(c, null, order, S);
    U := Collapse(S, root, c);
    ghost var T: Store := S[c := S[c].(parent := null)];
    assert T.Keys == S.Keys;
    DropNode(root, order, T);
    assert S.Keys - U.Keys == {root};
  }

  /** The last leaf goes with its last entry. */
  ghost method DropLeaf(root: Node, order: nat, S: Store, R: Records, M: Entries)
    requires Shrunk(S, R, M, root, root, order) && Stored(S, order) && S[root].h == 0 && S[root].keys == []
    modifies root`freed
    ensures Standing(map[], R, M, null, order) && AllFreed(S.Keys)
  {
    assert Shows(root, S[root], order);
    EmptyLeafRoot(S, R, M, root);
    root.Free();
  }

  lemma LargeRoot(S: Store, R: Records, M: Entries, root: Node, order: nat)
    requires Shrunk(S, R, M, root, root, order) && |S[root].keys| > 0
    ensures IsTree(S, R, M, root, NoPend, order)
  {
  }

  /** adjust_root */
  method AdjustRoot(root: Node, order: nat, ghost S: Store, ghost R: Records, ghost M: Entries)
    returns (newRoot: Node?, ghost U: Store)
    requires Shrunk(S, R, M, root, root, order) && Stored(S, order)
    modifies Foot(S.Keys)
    ensures Standing(U, R, M, newRoot, order) && U.Keys <= S.Keys && AllFreed(S.Keys - U.Keys)
  {
    hide Linked, Sized, Apart;
    assert Shows(root, S[root], order);
    if root.numKeys > 0 {
      LargeRoot(S, R, M, root, order);
      newRoot, U := root, S;
    } else if !root.isLeaf {
      newRoot, U := PromoteChild(root, order, S, R, M);
    } else {
      DropLeaf(root, order, S, R, M);
      newRoot, U := null, map[];
    }
  }

  /** The at-th key of a node and the pointer that goes with it, each where a search finds it first. */
  ghost predicate Entry(v: NodeVal, at: nat, key: int, pointer: Ptr) {
    && at < |v.keys| && |v.ptrs| == (if v.h == 0 then |v.keys| else |v.keys| + 1)
    && v.keys[at] == key && key !in v.keys[..at]
    && var i := if v.h == 0 then at else at + 1; v.ptrs[i] == pointer && pointer !in v.ptrs[..i]
  }

  /** T is a tree, and in memory but for an entry of n that is still to be removed. */
  ghost predicate Owing(T: Store, R: Records, M: Entries, root: Node, n: Node, v: NodeVal, at: nat, order: nat)
    reads Foot(T.Keys)
  {
    && Shrunk(T, R, M, root, n, order) && Apart(T.Keys)
    && at < |v.keys| && |v.ptrs| == (if v.h == 0 then |v.keys| else |v.keys| + 1) && T[n] == Without(v, at)
    && Shows(n, v, order)
    && forall m {:trigger Shows(m, T[m], order)} | m in T && m != n :: Shows(m, T[m], order)
  }

  method RemoveStored(n: Node, key: int, pointer: Ptr, order: nat, ghost T: Store, ghost R: Records, ghost M: Entries,
                      ghost root: Node, ghost v: NodeVal, ghost at: nat)
    requires Owing(T, R, M, root, n, v, at, order) && Entry(v, at, key, pointer)
    modifies n`numKeys, n.keys, n.pointers
    ensures Stored(T, order)
  {
    hide Linked, Sized;
    RemoveEntryFromNode(n, key, pointer, order, v, at);
    forall m | m in T ensures Shows(m, T[m], order) {
      if m != n {
        assert Distinct(m, n) && old(Shows(m, T[m], order));
      }
    }
  }

  /** Once the entries of right are with left, it is the parent that owes an entry. */
  lemma ParentOwes(S: Store, R: Records, M: Entries, root: Node, p: Node, j: nat, left: Node, right: Node, n: Node,
                   order: nat)
    requires Shrunk(S, R, M, root, n, order) && Siblings(S, p, j, left, right) && (n == left || n == right)
    requires |S[left].keys| + |S[right].keys| < (if S[left].h == 0 then order else order - 1)
    requires p in Merge(S, p, j, left, right) && Stored(Merge(S, p, j, left, right)[p := S[p]], order)
    ensures Owing(Merge(S, p, j, left, right), R, M, root, p, S[p], j, order)
    ensures Entry(S[p], j, S[p].keys[j], ToNode(right))
    ensures var T := Merge(S, p, j, left, right);
      T.Keys == S.Keys - {right} && root in T && T[root].h == S[root].h && T[p].h == S[p].h == S[n].h + 1
  {
    MergedSizes(S, R, M, root, p, j, left, right, n, order);
    SiblingFacts(S, R, M, root, p, j, left, right);
    MergeValues(S, R, M, root, p, j, left, right, p);
    MergeValues(S, R, M, root, p, j, left, right, root);
    assert ToNode(right) !in S[p].ptrs[..j + 1] by {
      forall i | 0 <= i < j + 1 ensures S[p].ptrs[i] != ToNode(right) {
        DistinctChildren(S, NoPend, p, S[p], i, j + 1);
      }
    }
    var T, U: Store := Merge(S, p, j, left, right), Merge(S, p, j, left, right)[p := S[p]];
    hide Linked, Merge, Sized, Ordered, NodeOk;
    assert T.Keys == U.Keys;
    assert Shows(p, U[p], order);
    forall m | m in T && m != p ensures Shows(m, T[m], order) {
      assert Shows(m, U[m], order);
    }
  }

  /** redistribute_nodes */
  method RedistributeNodes(n: Node, neighbor: Node, neighborIndex: int, kPrimeIndex: nat, kPrime: int, order: nat,
                           ghost root: Node,
                           ghost S: Store, ghost R: Records, ghost M: Entries, parent: Node) returns (ghost U: Store)
    requires Shrunk(S, R, M, root, n, order) && Stored(S, order) && neighborIndex >= -1
    requires Siblings(S, parent, kPrimeIndex, if neighborIndex == -1 then n else neighbor,
              if neighborIndex == -1 then neighbor else n)
    requires kPrime == S[parent].keys[kPrimeIndex] && |S[n].keys| < Min(S[n].h, order)
    requires |S[n].keys| + |S[neighbor].keys| >= (if S[n].h == 0 then order else order - 1)
    modifies Foot(S.Keys)
    ensures IsTree(U, R, M, root, NoPend, order) && Stored(U, order) && U.Keys == S.Keys
  {
    ghost var left, right := if neighborIndex == -1 then n else neighbor, if neighborIndex == -1 then neighbor else n;
    SiblingFacts(S, R, M, root, parent, kPrimeIndex, left, right);
    hide Linked, Sized, Stored, Resplit, MergedVal, Ordered, NodeOk;
    ghost var s := ResplitSizes(S, R, M, root, parent, kPrimeIndex, left, right, n, order);
    LentEnds(S, R, M, root, parent, kPrimeIndex, left, right, s);
    U := Resplit(S, parent, kPrimeIndex, left, right, s);
    if neighborIndex != -1 {
      LendRight(parent, kPrimeIndex, neighbor, n, kPrime, order, S, R, M, root);
    } else {
      LendLeft(parent, kPrimeIndex, n, neighbor, kPrime, order, S, R, M, root);
    }
  }

  /** Freeing a node that is not in the tree: all nodes of A that are not in the tree are freed then. */
  ghost method GiveBack(n: Node, A: set<Node>, U: Store, R: Records, M: Entries, root: Node?, order: nat)
    requires Standing(U, R, M, root, order) && U.Keys <= A - {n} && AllFreed(A - {n} - U.Keys) && !n.freed
    modifies n`freed
    ensures Standing(U, R, M, root, order) && U.Keys <= A && AllFreed(A - U.Keys)
  {
    OutsideFoot(n, U.Keys);
    n.Free();
    forall m | m in A - U.Keys ensures m.freed {
      assert m != n ==> m in A - {n} - U.Keys;
    }
  }

  /** The body of coalesce_nodes: the parent owes the entry of the right sibling then. */
  method AbsorbOwing(left: Node, right: Node, kPrime: int, order: nat, ghost root: Node, ghost n: Node, ghost j: nat,
                     ghost parent: Node,
                     ghost S: Store, ghost R: Records, ghost M: Entries) returns (ghost T: Store)
    requires Shrunk(S, R, M, root, n, order) && Stored(S, order) && Siblings(S, parent, j, left, right)
    requires (n == left || n == right)
    requires kPrime == S[parent].keys[j]
    requires |S[left].keys| + |S[right].keys| < (if S[left].h == 0 then order else order - 1)
    modifies left`numKeys, left.keys, left.pointers, right`numKeys, S.Keys`parent
    ensures Owing(T, R, M, root, parent, S[parent], j, order) && Entry(S[parent], j, kPrime, ToNode(right))
    ensures T.Keys == S.Keys - {right} && !right.freed
    ensures root in T && T[root].h == S[root].h && parent in T && T[parent].h == S[n].h + 1
  {
    assert Shows(right, S[right], order);
    hide Linked, Sized, Merge, Ordered, NodeOk;
    Absorb(left, right, kPrime, order, S, R, M, root, parent, j);
    ParentOwes(S, R, M, root, parent, j, left, right, n, order);
    T := Merge(S, parent, j, left, right);
  }

  /** coalesce_nodes: the right sibling's entries go to the left one, and the parent gives up an entry in turn. */
  method CoalesceNodes(root: Node, n: Node, neighbor: Node, neighborIndex: int, kPrime: int, order: nat, ghost j: nat,
                       ghost S: Store, ghost R: Records, ghost M: Entries, parent: Node)
    returns (newRoot: Node?, ghost U: Store)
    requires Shrunk(S, R, M, root, n, order) && Stored(S, order) && neighborIndex >= -1
    requires Siblings(S, parent, j, if neighborIndex == -1 then n else neighbor,
              if neighborIndex == -1 then neighbor else n)
    requires kPrime == S[parent].keys[j] && S[n].h < S[root].h
    requires |S[n].keys| + |S[neighbor].keys| < (if S[n].h == 0 then order else order - 1)
    modifies Foot(S.Keys)
    ensures Standing(U, R, M, newRoot, order) && U.Keys <= S.Keys && AllFreed(S.Keys - U.Keys)
    decreases S[root].h - S[n].h, 0
  {
    var left, right := neighbor, n;
    if neighborIndex == -1 {
      left, right := n, neighbor;
    }
    hide Linked, Sized, Ordered, NodeOk, Shrunk, Owing, Entry, Standing;
    ghost var T := AbsorbOwing(left, right, kPrime, order, root, n, j, parent, S, R, M);
    FootSmaller(T.Keys, S.Keys);
    newRoot, U := DeleteEntry(root, parent, kPrime, ToNode(right), order, T, R, M, S[parent], j);
    OutsideFoot(right, T.Keys);
    GiveBack(right, S.Keys, U, R, M, newRoot, order);
  }

  lemma NodeShown(T: Store, n: Node, order: nat)
    requires Stored(T, order) && n in T
    ensures n.parent == T[n].parent && n.numKeys == |T[n].keys| && (n.isLeaf <==> T[n].h == 0)
  {
    assert Shows(n, T[n], order);
  }

  /** The sibling to turn to, and the key between the two. */
  method FindNeighbor(n: Node, parent: Node, order: nat, ghost root: Node, ghost T: Store, ghost R: Records,
                      ghost M: Entries)
    returns (neighbor: Node, neighborIndex: int, kPrimeIndex: nat, kPrime: int)
    requires Shrunk(T, R, M, root, n, order) && Stored(T, order) && n != root && T[n].parent == parent
    ensures Stored(T, order) && neighborIndex >= -1 && neighbor in T && parent in T
    ensures Siblings(T, parent, kPrimeIndex, if neighborIndex == -1 then n else neighbor,
              if neighborIndex == -1 then neighbor else n)
    ensures kPrime == T[parent].keys[kPrimeIndex] && T[neighbor].h == T[n].h
  {
    HasParent(T, R, M, root, n);
    hide Linked, Sized, Ordered, NodeOk;
    assert Shows(parent, T[parent], order);
    neighborIndex := GetNeighborIndex(parent, n, order, T[parent]);
    NeighborOf(T, R, M, root, n, neighborIndex, order);
    kPrimeIndex := if neighborIndex == -1 then 0 else neighborIndex;
    kPrime := parent.keys[kPrimeIndex];
    neighbor := parent.pointers[if neighborIndex == -1 then 1 else neighborIndex].node;
  }

  /** The rest of delete_entry, for a node left with too few keys. */
  method Underflow(root: Node, n: Node, order: nat, ghost T: Store, ghost R: Records, ghost M: Entries)
    returns (newRoot: Node?, ghost U: Store)
    requires Shrunk(T, R, M, root, n, order) && Stored(T, order) && n != root && |T[n].keys| < Min(T[n].h, order)
    modifies Foot(T.Keys)
    ensures Standing(U, R, M, newRoot, order) && U.Keys <= T.Keys && AllFreed(T.Keys - U.Keys)
    decreases T[root].h - T[n].h, 1
  {
    hide Linked, Sized, Siblings, Synced;
    HasParent(T, R, M, root, n);
    NodeShown(T, n, order);
    var parent := n.parent;
    var neighbor, neighborIndex, kPrimeIndex, kPrime := FindNeighbor(n, parent, order, root, T, R, M);
    NodeShown(T, neighbor, order);
    var capacity := if n.isLeaf then order else order - 1;
    if neighbor.numKeys + n.numKeys < capacity {
      newRoot, U := CoalesceNodes(root, n, neighbor, neighborIndex, kPrime, order, kPrimeIndex, T, R, M, parent);
    } else {
      U := RedistributeNodes(n, neighbor, neighborIndex, kPrimeIndex, kPrime, order, root, T, R, M, parent);
      newRoot := root;
      assert T.Keys - U.Keys == {};
    }
  }

  /** delete_entry */
  method DeleteEntry(root: Node, n: Node, key: int, pointer: Ptr, order: nat, ghost T: Store, ghost R: Records,
                     ghost M: Entries, ghost v: NodeVal, ghost at: nat) returns (newRoot: Node?, ghost U: Store)
    requires Owing(T, R, M, root, n, v, at, order) && Entry(v, at, key, pointer)
    modifies Foot(T.Keys)
    ensures Standing(U, R, M, newRoot, order) && U.Keys <= T.Keys && AllFreed(T.Keys - U.Keys)
    decreases T[root].h - T[n].h
  {
    RemoveStored(n, key, pointer, order, T, R, M, root, v, at);
    assert Shows(n, T[n], order);
    if n == root {
      newRoot, U := AdjustRoot(root, order, T, R, M);
    } else {
      var minKeys := if n.isLeaf then Cut(order - 1) else Cut(order) - 1;
      if n.numKeys >= minKeys {
        newRoot, U := root, T;
      } else {
        newRoot, U := Underflow(root, n, order, T, R, M);
      }
    }
  }

  /** The entry of a key is found first where the key is. */
  lemma LeafEntry(S: Store, R: Records, M: Entries, root: Node, leaf: Node, at: nat)
    requires Linked(S, R, M, root, NoPend) && leaf in S && S[leaf].h == 0 && at < |S[leaf].keys| == |S[leaf].ptrs|
    ensures Entry(S[leaf], at, S[leaf].keys[at], S[leaf].ptrs[at])
  {
    assert NodeOk(S, R, M, root, NoPend, leaf);
    var v := S[leaf];
    forall i | 0 <= i < at ensures v.ptrs[i] != v.ptrs[at] {
      assert v.keys[i] < v.keys[at];
    }
  }

  lemma LeafOwes(S: Store, R: Records, M: Entries, root: Node, leaf: Node, at: nat, order: nat)
    requires IsTree(S, R, M, root, NoPend, order) && Stored(S, order) && leaf in S && S[leaf].h == 0
    requires at < |S[leaf].keys| == |S[leaf].ptrs| && S[leaf].ptrs[at].ToRecord?
    ensures Owing(S[leaf := WithoutEntry(S[leaf], at)], R - {S[leaf].ptrs[at].rec}, M - {S[leaf].keys[at]}, root,
              leaf, S[leaf], at, order)
  {
    var T: Store := S[leaf := WithoutEntry(S[leaf], at)];
    EntryRemoved(S, R, M, root, leaf, at);
    forall m | m in T ensures SizeOk(m, T[m], order, root, leaf) {
      assert SizeOk(m, S[m], order, root, null);
    }
    hide Linked, Ordered, NodeOk;
    assert T.Keys == S.Keys;
    assert Shows(leaf, S[leaf], order);
    forall m | m in T && m != leaf ensures Shows(m, T[m], order) {
      assert Shows(m, S[m], order);
    }
  }

  ghost predicate RecordsFreed(N: set<Record>)
    reads N
  {
    forall r {:trigger r.freed} | r in N :: r.freed
  }

  /** An entry is taken out of its leaf. */
  method RemoveEntry(root: Node, leaf: Node, key: int, rec: Record, order: nat, ghost S: Store, ghost R: Records,
                     ghost M: Entries, ghost at: nat) returns (newRoot: Node?, ghost U: Store)
    requires Standing(S, R, M, root, order) && leaf in S && S[leaf].h == 0
    requires at < |S[leaf].keys| == |S[leaf].ptrs| && S[leaf].keys[at] == key && S[leaf].ptrs[at] == ToRecord(rec)
    modifies Foot(S.Keys)
    ensures Standing(U, R - {rec}, M - {key}, newRoot, order)
    ensures U.Keys <= S.Keys && AllFreed(S.Keys - U.Keys)
  {
    LeafOwes(S, R, M, root, leaf, at, order);
    LeafEntry(S, R, M, root, leaf, at);
    hide Linked, Sized, Ordered, NodeOk, IsTree, Owing, Entry, WithoutEntry, AllFreed, Stored;
    ghost var T: Store := S[leaf := WithoutEntry(S[leaf], at)];
    assert T.Keys == S.Keys;
    newRoot, U := DeleteEntry(root, leaf, key, ToRecord(rec), order, T, R - {rec}, M - {key}, S[leaf], at);
  }

  /** The key's entry is taken out, and its record freed. */
  method DeleteFound(root: Node, leaf: Node, key: int, rec: Record, order: nat, ghost S: Store, ghost R: Records,
                     ghost M: Entries, ghost at: nat) returns (newRoot: Node?, ghost U: Store)
    requires Tree(S, R, M, root, order) && leaf in S && S[leaf].h == 0 && rec in R
    requires at < |S[leaf].keys| == |S[leaf].ptrs| && S[leaf].keys[at] == key && S[leaf].ptrs[at] == ToRecord(rec)
    modifies Foot(S.Keys), rec`freed
    ensures Tree(U, R - {rec}, M - {key}, newRoot, order)
    ensures U.Keys <= S.Keys && AllFreed(S.Keys - U.Keys) && rec.freed
  {
    hide Standing;
    RecordsApart(S.Keys, R.Keys);
    newRoot, U := RemoveEntry(root, leaf, key, rec, order, S, R, M, at);
    assert Values(R);
    FreeRecord(rec, U, R - {rec}, M - {key}, newRoot, order);
  }

  /** Freeing a record that is not in use. */
  ghost method FreeRecord(rec: Record, U: Store, Q: Records, M: Entries, root: Node?, order: nat)
    requires Standing(U, Q, M, root, order) && Values(Q) && rec !in Q && !rec.freed
    modifies rec`freed
    ensures Tree(U, Q, M, root, order) && rec.freed
  {
    RecordsApart(U.Keys, {rec});
    rec.Free();
  }

  lemma RecordLeaves(R: Records, M: Entries, key: int, rec: Record)
    requires RecsOk(R, M) && rec in R && rec.key == key
    ensures (R - {rec}).Keys == set r | r in R && r.key != key
    ensures forall r {:trigger r in R - {rec}} | r in R - {rec} :: (R - {rec})[r] == R[r]
  {
  }

  lemma NoRecord(R: Records, M: Entries, key: int)
    requires RecsOk(R, M) && key !in M
    ensures R.Keys == (set r | r in R && r.key != key) && M - {key} == M
  {
  }

  /** delete: the tree then holds M without the key. */
  method Delete(root: Node?, key: int, order: nat, ghost S: Store, ghost R: Records, ghost M: Entries)
    returns (newRoot: Node?, ghost U: Store, ghost Q: Records)
    requires Tree(S, R, M, root, order)
    modifies Foot(S.Keys), R.Keys
    ensures Tree(U, Q, M - {key}, newRoot, order)
    ensures U.Keys <= S.Keys && AllFreed(S.Keys - U.Keys)
    ensures Q.Keys == (set r | r in R && r.key != key) && RecordsFreed(R.Keys - Q.Keys)
    ensures forall r {:trigger r in Q} | r in Q :: Q[r] == R[r]
  {
    OneRecord(S, R, M, root, order);
    hide Tree, RecsOk;
    var rec, leaf, at := Find(root, key, order, S, R, M);
    if rec != null && leaf != null {
      RecordLeaves(R, M, key, rec);
      newRoot, U := DeleteFound(root, leaf, key, rec, order, S, R, M, at);
      Q := R - {rec};
    } else {
      NoRecord(R, M, key);
      newRoot, U, Q := root, S, R;
    }
  }
}
