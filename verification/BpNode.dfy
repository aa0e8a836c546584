/** Nodes and records of the B+ tree (bptree/main.c), and the facts about a node that the proofs work on. */
module BpNode {
  /**
   * A stored value. Only the proofs look at its key, fixed when the record is made, and at `freed`,
   * which is set when its memory is given back.
   */
  class Record {
    ghost const key: int
    var value: int
    ghost var freed: bool

    constructor (ghost key: int, value: int)
      ensures this.key == key && this.value == value && !freed
    {
      this.key := key;
      this.value := value;
      freed := false;
    }

    /** free */
    ghost method Free()
      requires !freed
      modifies this`freed
      ensures freed
    {
      freed := true;
    }
  }

  /** The void pointers of a node: children, or records and the next leaf. */
  datatype Ptr = Null | ToNode(node: Node) | ToRecord(rec: Record)

  class Node {
    const keys: array<int>
    const pointers: array<Ptr>
    var parent: Node?
    var isLeaf: bool
    var numKeys: nat
    ghost var freed: bool

    /** make_node: room for order - 1 keys and order pointers, contents arbitrary. */
    constructor (order: nat)
      requires order >= 3
      ensures keys.Length == order - 1 && pointers.Length == order
      ensures fresh(keys) && fresh(pointers)
      ensures parent == null && !isLeaf && numKeys == 0 && !freed
    {
      keys := new int[order - 1];
      pointers := new Ptr[order];
      parent := null;
      isLeaf := false;
      numKeys := 0;
      freed := false;
    }

    /** free, for the node and its two arrays. */
    ghost method Free()
      requires !freed
      modifies this`freed
      ensures freed
    {
      freed := true;
    }
  }

  /** Ends of the key interval a node is responsible for. */
  datatype Bound = NegInf | At(k: int) | PosInf

  /**
   * What the proofs say about a node: its live keys and pointers, the next leaf, its parent, its height
   * above the leaves, and the interval [lo, hi) of keys that belong below it.
   */
  datatype NodeVal = NodeVal(
    keys: seq<int>, ptrs: seq<Ptr>, next: Ptr, parent: Node?, h: nat, lo: Bound, hi: Bound)

  type Store = map<Node, NodeVal>

  /** The records in use with their values, and the map that the tree stands for. */
  type Records = map<Record, int>
  type Entries = map<int, int>

  // ---- bounds ----

  predicate AtOrAbove(k: int, b: Bound) {
    b.NegInf? || (b.At? && b.k <= k)
  }

  predicate Below(k: int, b: Bound) {
    b.PosInf? || (b.At? && k < b.k)
  }

  predicate In(k: int, lo: Bound, hi: Bound) {
    AtOrAbove(k, lo) && Below(k, hi)
  }

  predicate Less(a: Bound, b: Bound) {
    match a
    case NegInf => !b.NegInf?
    case At(k) => b.PosInf? || (b.At? && k < b.k)
    case PosInf => false
  }

  /** The interval of the i-th child runs from the key before it to the key after it. */
  function LoAt(v: NodeVal, i: nat): Bound
    requires i <= |v.keys|
  {
    if i == 0 then v.lo else At(v.keys[i - 1])
  }

  function HiAt(v: NodeVal, i: nat): Bound
    requires i <= |v.keys|
  {
    if i == |v.keys| then v.hi else At(v.keys[i])
  }

  // ---- sequences ----

  function InsertAt<T>(s: seq<T>, i: nat, x: T): (r: seq<T>)
    requires i <= |s|
    ensures |r| == |s| + 1
    ensures forall j | 0 <= j < |r| :: r[j] == if j < i then s[j] else if j == i then x else s[j - 1]
  {
    s[..i] + [x] + s[i..]
  }

  function RemoveAt<T>(s: seq<T>, i: nat): (r: seq<T>)
    requires i < |s|
    ensures |r| == |s| - 1
    ensures forall j | 0 <= j < |r| :: r[j] == if j < i then s[j] else s[j + 1]
  {
    s[..i] + s[i + 1..]
  }

  predicate Sorted(s: seq<int>) {
    forall i, j | 0 <= i < j < |s| :: s[i] < s[j]
  }
}
