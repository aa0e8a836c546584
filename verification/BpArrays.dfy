/**
 * The in-place array work of insertion and deletion: each method changes the arrays of the nodes it is
 * given, and says what the nodes show afterwards.
 */
module BpArrays {
  import opened BpNode
  import opened BpGrow
  import opened BpShrink

  /** Half of a length, rounded up. */
  function Cut(length: nat): (c: nat)
    ensures 2 * c == length || 2 * c == length + 1
  {
    if length % 2 == 0 then length / 2 else length / 2 + 1
  }

  /** s is what the front of array a holds. */
  ghost predicate Holds<T>(a: array<T>, s: seq<T>)
    reads a
  {
    |s| <= a.Length && forall i | 0 <= i < |s| :: a[i] == s[i]
  }

  /** The live part of node n is v: its keys, its pointers, a leaf's link to the next, its parent. */
  ghost predicate Shows(n: Node, v: NodeVal, order: nat)
    reads n, n.keys, n.pointers
  {
    && order >= 3 && n.keys.Length == order - 1 && n.pointers.Length == order && !n.freed
    && n.numKeys == |v.keys| <= order - 1 && n.parent == v.parent && n.isLeaf == (v.h == 0)
    && |v.ptrs| == (if v.h == 0 then |v.keys| else |v.keys| + 1)
    && Holds(n.keys, v.keys) && Holds(n.pointers, v.ptrs)
    && (v.h == 0 ==> n.pointers[order - 1] == v.next)
  }

  // ---- insertion ----

  /** Finds where key belongs among the keys of a leaf. */
  method FindPlace(leaf: Node, key: int, order: nat, ghost v: NodeVal) returns (i: nat)
    requires Shows(leaf, v, order) && Sorted(v.keys) && key !in v.keys
    ensures Place(v.keys, i, key)
  {
    i := 0;
    while i < leaf.numKeys && leaf.keys[i] < key
      invariant i <= |v.keys|
      invariant forall j | 0 <= j < i :: v.keys[j] < key
    {
      i := i + 1;
    }
    assert i < |v.keys| ==> v.keys[i] in v.keys;
  }

  /** Shifts the entries from position at on up by one and puts x there. */
  method InsertSlot<T>(a: array<T>, n: nat, at: nat, x: T, ghost s: seq<T>)
    requires Holds(a, s) && n == |s| < a.Length && at <= n
    modifies a
    ensures Holds(a, InsertAt(s, at, x))
    ensures forall j | n < j < a.Length :: a[j] == old(a[j])
  {
    var i := n;
    while i > at
      invariant at <= i <= n
      invariant forall j | 0 <= j < i :: a[j] == s[j]
      invariant forall j | i < j <= n :: a[j] == s[j - 1]
      invariant forall j | n < j < a.Length :: a[j] == old(a[j])
    {
      a[i] := a[i - 1];
      i := i - 1;
    }
    a[at] := x;
  }

  /** insert_into_leaf (the source shifts both arrays in one loop). */
  method InsertIntoLeaf(leaf: Node, key: int, rec: Record, order: nat, ghost v: NodeVal) returns (ghost at: nat)
    requires Shows(leaf, v, order) && v.h == 0 && |v.keys| < order - 1 && Sorted(v.keys) && key !in v.keys
    modifies leaf`numKeys, leaf.keys, leaf.pointers
    ensures Place(v.keys, at, key) && Shows(leaf, WithEntry(v, at, key, rec), order)
  {
    var point := FindPlace(leaf, key, order, v);
    InsertSlot(leaf.keys, leaf.numKeys, point, key, v.keys);
    InsertSlot(leaf.pointers, leaf.numKeys, point, ToRecord(rec), v.ptrs);
    leaf.numKeys := leaf.numKeys + 1;
    at := point;
  }

  /** Copies the first n entries of a into temp, leaving position hole free. */
  method CopyAround<T>(a: array<T>, n: nat, temp: array<T>, hole: nat)
    requires a != temp && hole <= n <= a.Length && n < temp.Length
    modifies temp
    ensures forall j | 0 <= j < hole :: temp[j] == a[j]
    ensures forall j | hole < j <= n :: temp[j] == a[j - 1]
  {
    var i, j := 0, 0;
    while i < n
      invariant 0 <= i <= n && j == if i <= hole then i else i + 1
      invariant forall k | 0 <= k < i && k < hole :: temp[k] == a[k]
      invariant forall k | hole < k < j :: temp[k] == a[k - 1]
    {
      if j == hole {
        j := j + 1;
      }
      temp[j] := a[i];
      i, j := i + 1, j + 1;
    }
  }

  /** Gathers the entries of a node's arrays and a new one in temporary arrays. */
  method Gather(keys: array<int>, pointers: array<Ptr>, ks: nat, ps: nat, keyAt: nat, key: int, ptrAt: nat, ptr: Ptr)
    returns (tempKeys: array<int>, tempPointers: array<Ptr>)
    requires keyAt <= ks <= keys.Length && ptrAt <= ps <= pointers.Length
    ensures fresh(tempKeys) && fresh(tempPointers)
    ensures tempKeys[..] == InsertAt(keys[..ks], keyAt, key)
    ensures tempPointers[..] == InsertAt(pointers[..ps], ptrAt, ptr)
  {
    tempPointers := new Ptr[ps + 1];
    CopyAround(pointers, ps, tempPointers, ptrAt);
    tempKeys := new int[ks + 1];
    CopyAround(keys, ks, tempKeys, keyAt);
    tempPointers[ptrAt] := ptr;
    tempKeys[keyAt] := key;
  }

  /** Fills an emptied node with the entries from..to of the temporary arrays. */
  method Fill(n: Node, tempKeys: array<int>, tempPointers: array<Ptr>, from: nat, to: nat)
    requires n.keys != tempKeys && n.pointers != tempPointers && n.numKeys == 0
    requires from <= to <= tempKeys.Length && to <= tempPointers.Length
    requires to - from <= n.keys.Length && to - from <= n.pointers.Length
    modifies n`numKeys, n.keys, n.pointers
    ensures n.numKeys == to - from
    ensures forall j | 0 <= j < to - from :: n.keys[j] == tempKeys[from + j] && n.pointers[j] == tempPointers[from + j]
    ensures forall j | to - from <= j < n.pointers.Length :: n.pointers[j] == old(n.pointers[j])
  {
    var i, j := from, 0;
    while i < to
      invariant from <= i <= to && j == i - from == n.numKeys
      invariant forall k | 0 <= k < j :: n.keys[k] == tempKeys[from + k] && n.pointers[k] == tempPointers[from + k]
      invariant forall k | j <= k < n.pointers.Length :: n.pointers[k] == old(n.pointers[k])
    {
      n.pointers[j] := tempPointers[i];
      n.keys[j] := tempKeys[i];
      n.numKeys := n.numKeys + 1;
      i, j := i + 1, j + 1;
    }
  }

  /** Sets pointers[from..to] to null. */
  method ClearPointers(n: Node, from: nat, to: nat)
    requires from <= to <= n.pointers.Length
    modifies n.pointers
    ensures forall j | 0 <= j < n.pointers.Length ::
              n.pointers[j] == if from <= j < to then Null else old(n.pointers[j])
  {
    var i := from;
    while i < to
      invariant from <= i <= to
      invariant forall j | 0 <= j < n.pointers.Length ::
                n.pointers[j] == if from <= j < i then Null else old(n.pointers[j])
    {
      n.pointers[i] := Null;
      i := i + 1;
    }
  }

  /** Deals the gathered entries out to an emptied leaf and the new leaf linked in behind it. */
  method DealLeaves(leaf: Node, newLeaf: Node, tempKeys: array<int>, tempPointers: array<Ptr>, order: nat,
                    ghost w: NodeVal)
    requires order >= 3 && leaf.numKeys == 0 && newLeaf.numKeys == 0
    requires leaf.keys.Length == newLeaf.keys.Length == order - 1
    requires leaf.pointers.Length == newLeaf.pointers.Length == order
    requires leaf != newLeaf && leaf.keys != newLeaf.keys && leaf.pointers != newLeaf.pointers
    requires tempKeys != leaf.keys && tempKeys != newLeaf.keys && tempPointers != leaf.pointers
    requires tempPointers != newLeaf.pointers
    requires tempKeys[..] == w.keys && tempPointers[..] == w.ptrs && |w.keys| == |w.ptrs| == order
    requires w.h == 0 && leaf.isLeaf && newLeaf.isLeaf && !leaf.freed && !newLeaf.freed
    requires leaf.parent == w.parent == newLeaf.parent && leaf.pointers[order - 1] == w.next
    modifies leaf`numKeys, leaf.keys, leaf.pointers, newLeaf`numKeys, newLeaf.keys, newLeaf.pointers
    ensures Shows(leaf, LeftHalf(w, Cut(order - 1), newLeaf), order)
    ensures Shows(newLeaf, RightHalf(w, Cut(order - 1)), order)
  {
    var split := Cut(order - 1);
    Fill(leaf, tempKeys, tempPointers, 0, split);
    Fill(newLeaf, tempKeys, tempPointers, split, order);
    newLeaf.pointers[order - 1] := leaf.pointers[order - 1];
    leaf.pointers[order - 1] := ToNode(newLeaf);
    ClearPointers(leaf, leaf.numKeys, order - 1);
    ClearPointers(newLeaf, newLeaf.numKeys, order - 1);
  }

  /**
   * insert_into_leaf_after_splitting up to its last call: the full leaf's entries and the new one are
   * gathered in temporary arrays and dealt out to the leaf and the new leaf.
   */
  method SplitLeaf(leaf: Node, newLeaf: Node, key: int, rec: Record, order: nat, ghost v: NodeVal)
    returns (ghost at: nat)
    requires Shows(leaf, v, order) && v.h == 0 && |v.keys| == order - 1 && Sorted(v.keys) && key !in v.keys
    requires newLeaf.keys.Length == order - 1 && newLeaf.pointers.Length == order && !newLeaf.freed
    requires newLeaf.numKeys == 0 && newLeaf.isLeaf
    requires leaf != newLeaf && leaf.keys != newLeaf.keys && leaf.pointers != newLeaf.pointers
    modifies leaf`numKeys, leaf.keys, leaf.pointers, newLeaf`numKeys, newLeaf`parent, newLeaf.keys, newLeaf.pointers
    ensures Place(v.keys, at, key)
    ensures Shows(leaf, LeftHalf(WithEntry(v, at, key, rec), Cut(order - 1), newLeaf), order)
    ensures Shows(newLeaf, RightHalf(WithEntry(v, at, key, rec), Cut(order - 1)), order)
  {
    var point := FindPlace(leaf, key, order, v);
    at := point;
    assert leaf.keys[..order - 1] == v.keys && leaf.pointers[..order - 1] == v.ptrs;
    var tempKeys, tempPointers := Gather(leaf.keys, leaf.pointers, order - 1, order - 1, point, key, point,
      ToRecord(rec));
    newLeaf.parent := leaf.parent;
    leaf.numKeys := 0;
    DealLeaves(leaf, newLeaf, tempKeys, tempPointers, order, WithEntry(v, at, key, rec));
  }

  /** get_left_index: where left stands among its parent's pointers. */
  method GetLeftIndex(parent: Node, left: Node, order: nat, ghost v: NodeVal) returns (i: nat)
    requires Shows(parent, v, order) && v.h > 0 && ToNode(left) in v.ptrs
    ensures i < |v.ptrs| && v.ptrs[i] == ToNode(left)
    ensures ToNode(left) !in v.ptrs[..i]
  {
    i := 0;
    while i <= parent.numKeys && parent.pointers[i] != ToNode(left)
      invariant i <= |v.ptrs| && ToNode(left) !in v.ptrs[..i]
    {
      assert v.ptrs[..i + 1] == v.ptrs[..i] + [v.ptrs[i]];
      i := i + 1;
    }
    assert v.ptrs[..|v.ptrs|] == v.ptrs;
  }

  /** insert_into_node (the source shifts both arrays in one loop). */
  method InsertIntoNode(n: Node, leftIndex: nat, key: int, right: Node, order: nat, ghost v: NodeVal)
    requires Shows(n, v, order) && v.h > 0 && |v.keys| < order - 1 && leftIndex <= |v.keys|
    modifies n`numKeys, n.keys, n.pointers
    ensures Shows(n, WithChild(v, leftIndex, key, right), order)
  {
    InsertSlot(n.pointers, n.numKeys + 1, leftIndex + 1, ToNode(right), v.ptrs);
    InsertSlot(n.keys, n.numKeys, leftIndex, key, v.keys);
    n.numKeys := n.numKeys + 1;
  }

  /** Deals the gathered keys and children out to an emptied node and the new node; the key between goes up. */
  method DealNodes(oldNode: Node, newNode: Node, tempKeys: array<int>, tempPointers: array<Ptr>, order: nat,
                   ghost w: NodeVal)
    returns (kPrime: int)
    requires order >= 3 && oldNode.numKeys == 0 && newNode.numKeys == 0
    requires oldNode.keys.Length == newNode.keys.Length == order - 1
    requires oldNode.pointers.Length == newNode.pointers.Length == order
    requires oldNode != newNode && oldNode.keys != newNode.keys && oldNode.pointers != newNode.pointers
    requires tempKeys != oldNode.keys && tempKeys != newNode.keys && tempPointers != oldNode.pointers
    requires tempPointers != newNode.pointers
    requires tempKeys[..] == w.keys && tempPointers[..] == w.ptrs && |w.keys| == order && |w.ptrs| == order + 1
    requires w.h > 0 && !oldNode.isLeaf && !newNode.isLeaf && !oldNode.freed && !newNode.freed
    requires oldNode.parent == w.parent == newNode.parent
    modifies oldNode`numKeys, oldNode.keys, oldNode.pointers, newNode`numKeys, newNode.keys, newNode.pointers
    ensures Shows(oldNode, LeftPart(w, Cut(order) - 1), order)
    ensures Shows(newNode, RightPart(w, Cut(order) - 1), order)
    ensures kPrime == w.keys[Cut(order) - 1]
  {
    var split := Cut(order);
    Fill(oldNode, tempKeys, tempPointers, 0, split - 1);
    oldNode.pointers[split - 1] := tempPointers[split - 1];
    kPrime := tempKeys[split - 1];
    Fill(newNode, tempKeys, tempPointers, split, order);
    newNode.pointers[order - split] := tempPointers[order];
  }

  /** insert_into_node_after_splitting up to the children's new parent. */
  method SplitNode(oldNode: Node, newNode: Node, leftIndex: nat, key: int, right: Node, order: nat, ghost v: NodeVal)
    returns (kPrime: int)
    requires Shows(oldNode, v, order) && v.h > 0 && |v.keys| == order - 1 && leftIndex <= |v.keys|
    requires newNode.keys.Length == order - 1 && newNode.pointers.Length == order && !newNode.freed
    requires newNode.numKeys == 0 && !newNode.isLeaf
    requires oldNode != newNode && oldNode.keys != newNode.keys && oldNode.pointers != newNode.pointers
    modifies oldNode`numKeys, oldNode.keys, oldNode.pointers, newNode`numKeys, newNode`parent, newNode.keys,
              newNode.pointers
    ensures Shows(oldNode, LeftPart(WithChild(v, leftIndex, key, right), Cut(order) - 1), order)
    ensures Shows(newNode, RightPart(WithChild(v, leftIndex, key, right), Cut(order) - 1), order)
    ensures kPrime == WithChild(v, leftIndex, key, right).keys[Cut(order) - 1]
  {
    assert oldNode.keys[..order - 1] == v.keys && oldNode.pointers[..order] == v.ptrs;
    var tempKeys, tempPointers := Gather(oldNode.keys, oldNode.pointers, order - 1, order, leftIndex, key,
      leftIndex + 1, ToNode(right));
    newNode.parent := oldNode.parent;
    oldNode.numKeys := 0;
    kPrime := DealNodes(oldNode, newNode, tempKeys, tempPointers, order, WithChild(v, leftIndex, key, right));
  }

  // ---- deletion ----

  /** A node without its i-th key and the pointer that goes with it. */
  function Without(v: NodeVal, i: nat): NodeVal
    requires i < |v.keys| && |v.ptrs| == (if v.h == 0 then |v.keys| else |v.keys| + 1)
  {
    if v.h == 0 then WithoutEntry(v, i) else WithoutChild(v, i)
  }

  /** get_neighbor_index: the index of the left sibling, or -1; the search does not run off the end. */
  method GetNeighborIndex(parent: Node, n: Node, order: nat, ghost v: NodeVal) returns (r: int)
    requires Shows(parent, v, order) && v.h > 0 && ToNode(n) in v.ptrs
    ensures -1 <= r < |v.keys| && v.ptrs[r + 1] == ToNode(n)
  {
    var i := 0;
    assert v.ptrs[..|v.ptrs|] == v.ptrs;
    while i <= parent.numKeys
      invariant 0 <= i <= |v.ptrs| && ToNode(n) !in v.ptrs[..i]
    {
      if parent.pointers[i] == ToNode(n) {
        return i - 1;
      }
      assert v.ptrs[..i + 1] == v.ptrs[..i] + [v.ptrs[i]];
      i := i + 1;
    }
    assert false;
  }

  /** Finds x at its first place and shifts what follows down over it. */
  method RemoveFirst<T(==)>(a: array<T>, n: nat, x: T, ghost s: seq<T>, ghost at: nat)
    requires Holds(a, s) && n == |s| && at < n && s[at] == x && x !in s[..at]
    modifies a
    ensures Holds(a, RemoveAt(s, at))
    ensures forall j | n <= j < a.Length :: a[j] == old(a[j])
  {
    forall j | 0 <= j < at ensures s[j] != x {
      assert s[..at][j] == s[j];
    }
    var i := 0;
    while a[i] != x
      invariant 0 <= i <= at
      decreases at - i
    {
      i := i + 1;
    }
    i := i + 1;
    while i < n
      invariant at < i <= n
      invariant forall j | 0 <= j < at :: a[j] == s[j]
      invariant forall j | at <= j < i - 1 :: a[j] == s[j + 1]
      invariant forall j | i <= j < n :: a[j] == s[j]
      invariant forall j | n <= j < a.Length :: a[j] == old(a[j])
    {
      a[i - 1] := a[i];
      i := i + 1;
    }
  }

  /** remove_entry_from_node: one key and the pointer that goes with it. */
  method RemoveEntryFromNode(n: Node, key: int, pointer: Ptr, order: nat, ghost v: NodeVal, ghost at: nat)
    requires Shows(n, v, order) && at < |v.keys| && v.keys[at] == key && key !in v.keys[..at]
    requires var p := if v.h == 0 then at else at + 1; v.ptrs[p] == pointer && pointer !in v.ptrs[..p]
    modifies n`numKeys, n.keys, n.pointers
    ensures Shows(n, Without(v, at), order)
  {
    RemoveFirst(n.keys, n.numKeys, key, v.keys, at);
    var numPointers := if n.isLeaf then n.numKeys else n.numKeys + 1;
    RemoveFirst(n.pointers, numPointers, pointer, v.ptrs, if v.h == 0 then at else at + 1);
    n.numKeys := n.numKeys - 1;
    if n.isLeaf {
      ClearPointers(n, n.numKeys, order - 1);
    } else {
      ClearPointers(n, n.numKeys + 1, order);
    }
  }

  /** Copies the first m entries of b to a, from position n on. */
  method Append<T>(a: array<T>, n: nat, b: array<T>, m: nat, ghost s: seq<T>, ghost t: seq<T>)
    requires a != b && Holds(a, s) && Holds(b, t) && n == |s| && m == |t| && n + m <= a.Length
    modifies a
    ensures Holds(a, s + t)
    ensures forall j | n + m <= j < a.Length :: a[j] == old(a[j])
  {
    var i, j := n, 0;
    while j < m
      invariant 0 <= j <= m && i == n + j
      invariant forall k | 0 <= k < n :: a[k] == s[k]
      invariant forall k | n <= k < i :: a[k] == t[k - n]
      invariant forall k | n + m <= k < a.Length :: a[k] == old(a[k])
    {
      a[i] := b[j];
      i, j := i + 1, j + 1;
    }
  }

  /** coalesce_nodes for leaves: the right one's entries and its link go to the left one. */
  method CoalesceLeaves(left: Node, right: Node, order: nat, ghost l: NodeVal, ghost r: NodeVal, ghost sep: int)
    requires Shows(left, l, order) && Shows(right, r, order) && l.h == 0 && r.h == 0
    requires left != right && left.keys != right.keys && left.pointers != right.pointers
    requires |l.keys| + |r.keys| < order
    modifies left`numKeys, left.keys, left.pointers
    ensures Shows(left, MergedVal(l, r, sep), order)
  {
    Append(left.keys, left.numKeys, right.keys, right.numKeys, l.keys, r.keys);
    Append(left.pointers, left.numKeys, right.pointers, right.numKeys, l.ptrs, r.ptrs);
    left.numKeys := left.numKeys + right.numKeys;
    left.pointers[order - 1] := right.pointers[order - 1];
  }

  /** coalesce_nodes for inner nodes: the separator comes down between the two nodes' keys. */
  method CoalesceInner(left: Node, right: Node, kPrime: int, order: nat, ghost l: NodeVal, ghost r: NodeVal)
    requires Shows(left, l, order) && Shows(right, r, order) && l.h > 0 && r.h > 0
    requires left != right && left.keys != right.keys && left.pointers != right.pointers
    requires |l.keys| + |r.keys| < order - 1
    modifies left`numKeys, left.keys, left.pointers, right`numKeys
    ensures Shows(left, MergedVal(l, r, kPrime), order)
  {
    var insertion, nEnd := left.numKeys, right.numKeys;
    left.keys[insertion] := kPrime;
    Append(left.keys, insertion + 1, right.keys, nEnd, l.keys + [kPrime], r.keys);
    Append(left.pointers, insertion + 1, right.pointers, nEnd + 1, l.ptrs, r.ptrs);
    left.numKeys := insertion + 1 + nEnd;
    right.numKeys := 0;
  }

  /** Shifts all entries up by one and puts x in front. */
  method Prepend<T>(a: array<T>, n: nat, x: T, ghost s: seq<T>)
    requires Holds(a, s) && n == |s| < a.Length
    modifies a
    ensures Holds(a, [x] + s)
    ensures forall j | n < j < a.Length :: a[j] == old(a[j])
  {
    InsertSlot(a, n, 0, x, s);
    assert InsertAt(s, 0, x) == [x] + s;
  }

  /** The last entry of the left leaf becomes the first of the right one. */
  method BorrowLeftLeaf(n: Node, neighbor: Node, order: nat, ghost v: NodeVal, ghost w: NodeVal)
    requires Shows(n, v, order) && Shows(neighbor, w, order) && v.h == 0 && w.h == 0
    requires n != neighbor && n.keys != neighbor.keys && n.pointers != neighbor.pointers
    requires |v.keys| < order - 1 && 0 < |w.keys|
    modifies n`numKeys, n.keys, n.pointers, neighbor`numKeys, neighbor.pointers
    ensures var m := |w.keys| - 1;
      && Shows(n, v.(keys := [w.keys[m]] + v.keys, ptrs := [w.ptrs[m]] + v.ptrs), order)
      && Shows(neighbor, w.(keys := w.keys[..m], ptrs := w.ptrs[..m]), order)
  {
    Prepend(n.keys, n.numKeys, neighbor.keys[neighbor.numKeys - 1], v.keys);
    Prepend(n.pointers, n.numKeys, neighbor.pointers[neighbor.numKeys - 1], v.ptrs);
    neighbor.pointers[neighbor.numKeys - 1] := Null;
    n.numKeys := n.numKeys + 1;
    neighbor.numKeys := neighbor.numKeys - 1;
  }

  /** The left node's last child moves over, and the separator comes down before the right node's keys. */
  method BorrowLeftInner(n: Node, neighbor: Node, kPrime: int, order: nat, ghost v: NodeVal, ghost w: NodeVal)
    requires Shows(n, v, order) && Shows(neighbor, w, order) && v.h > 0 && w.h > 0
    requires n != neighbor && n.keys != neighbor.keys && n.pointers != neighbor.pointers
    requires |v.keys| < order - 1 && 0 < |w.keys|
    modifies n`numKeys, n.keys, n.pointers, neighbor`numKeys, neighbor.pointers
    ensures var m := |w.keys| - 1;
      && Shows(n, v.(keys := [kPrime] + v.keys, ptrs := [w.ptrs[m + 1]] + v.ptrs), order)
      && Shows(neighbor, w.(keys := w.keys[..m], ptrs := w.ptrs[..m + 1]), order)
  {
    Prepend(n.keys, n.numKeys, kPrime, v.keys);
    Prepend(n.pointers, n.numKeys + 1, neighbor.pointers[neighbor.numKeys], v.ptrs);
    neighbor.pointers[neighbor.numKeys] := Null;
    n.numKeys := n.numKeys + 1;
    neighbor.numKeys := neighbor.numKeys - 1;
  }

  /** Shifts the entries after the first down by one. */
  method ShiftDown<T>(a: array<T>, n: nat, ghost s: seq<T>)
    requires Holds(a, s) && n == |s| > 0
    modifies a
    ensures Holds(a, s[1..])
    ensures forall j | n <= j < a.Length :: a[j] == old(a[j])
  {
    var i := 0;
    while i < n - 1
      invariant 0 <= i <= n - 1
      invariant forall j | 0 <= j < i :: a[j] == s[j + 1]
      invariant forall j | i <= j < n :: a[j] == s[j]
      invariant forall j | n <= j < a.Length :: a[j] == old(a[j])
    {
      a[i] := a[i + 1];
      i := i + 1;
    }
  }

  /** The first entry of the right leaf becomes the last of the left one. */
  method BorrowRightLeaf(n: Node, neighbor: Node, order: nat, ghost v: NodeVal, ghost w: NodeVal)
    requires Shows(n, v, order) && Shows(neighbor, w, order) && v.h == 0 && w.h == 0
    requires n != neighbor && n.keys != neighbor.keys && n.pointers != neighbor.pointers
    requires |v.keys| < order - 1 && 0 < |w.keys|
    modifies n`numKeys, n.keys, n.pointers, neighbor`numKeys, neighbor.keys, neighbor.pointers
    ensures Shows(n, v.(keys := v.keys + [w.keys[0]], ptrs := v.ptrs + [w.ptrs[0]]), order)
    ensures Shows(neighbor, w.(keys := w.keys[1..], ptrs := w.ptrs[1..]), order)
  {
    n.keys[n.numKeys] := neighbor.keys[0];
    n.pointers[n.numKeys] := neighbor.pointers[0];
    ShiftDown(neighbor.keys, neighbor.numKeys, w.keys);
    ShiftDown(neighbor.pointers, neighbor.numKeys, w.ptrs);
    n.numKeys := n.numKeys + 1;
    neighbor.numKeys := neighbor.numKeys - 1;
  }

  /** The right node's first child moves over, behind the separator that comes down. */
  method BorrowRightInner(n: Node, neighbor: Node, kPrime: int, order: nat, ghost v: NodeVal, ghost w: NodeVal)
    requires Shows(n, v, order) && Shows(neighbor, w, order) && v.h > 0 && w.h > 0
    requires n != neighbor && n.keys != neighbor.keys && n.pointers != neighbor.pointers
    requires |v.keys| < order - 1 && 0 < |w.keys|
    modifies n`numKeys, n.keys, n.pointers, neighbor`numKeys, neighbor.keys, neighbor.pointers
    ensures Shows(n, v.(keys := v.keys + [kPrime], ptrs := v.ptrs + [w.ptrs[0]]), order)
    ensures Shows(neighbor, w.(keys := w.keys[1..], ptrs := w.ptrs[1..]), order)
  {
    n.keys[n.numKeys] := kPrime;
    n.pointers[n.numKeys + 1] := neighbor.pointers[0];
    ShiftDown(neighbor.keys, neighbor.numKeys, w.keys);
    ShiftDown(neighbor.pointers, neighbor.numKeys + 1, w.ptrs);
    n.numKeys := n.numKeys + 1;
    neighbor.numKeys := neighbor.numKeys - 1;
  }
}
