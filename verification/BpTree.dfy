/** The tree as its users see it, and what holds after any run of insertions and deletions. */
module BpTree {
  import opened BpNode
  import opened BpStore
  import opened BpArrays
  import opened BpHeap
  import opened BpFind
  import opened BpScan
  import opened BpRange
  import opened BpHeight
  import BpInsert
  import BpDelete

  datatype Op = Insert(key: int, value: int) | Delete(key: int)

  /** The map after an operation, and after a run of them. */
  ghost function Apply(M: Entries, op: Op): Entries {
    match op
    case Insert(key, value) => M[key := value]
    case Delete(key) => M - {key}
  }

  ghost function ApplyAll(M: Entries, ops: seq<Op>): Entries {
    if ops == [] then M else Apply(ApplyAll(M, ops[..|ops| - 1]), ops[|ops| - 1])
  }

  /** The last operation of a run on a key. */
  ghost function LastOn(ops: seq<Op>, key: int): int
    ensures -1 <= LastOn(ops, key) < |ops|
  {
    if ops == [] then -1
    else if ops[|ops| - 1].key == key then |ops| - 1
    else LastOn(ops[..|ops| - 1], key)
  }

  /**
   * L has the key exactly if the last operation on it was an insertion, with the value inserted then; without an
   * operation on the key, L has what M has.
   */
  ghost predicate LastDecides(M: Entries, ops: seq<Op>, L: Entries, key: int) {
    var i := LastOn(ops, key);
    if i == -1 then (key in L <==> key in M) && (key in M ==> L[key] == M[key])
    else ops[i].key == key && (key in L <==> ops[i].Insert?) && (key in L ==> L[key] == ops[i].value)
  }

  /** The map of a run, key by key. */
  lemma {:induction false} RunMap(M: Entries, ops: seq<Op>, key: int)
    ensures LastDecides(M, ops, ApplyAll(M, ops), key)
    decreases |ops|
  {
    if ops == [] {
    } else {
      RunMap(M, ops[..|ops| - 1], key);
    }
  }

  class BPlusTree {
    const order: nat
    var root: Node?
    ghost var S: Store
    ghost var R: Records
    ghost var M: Entries
    ghost var Repr: set<object>

    ghost predicate Valid()
      reads this, Repr
    {
      && this !in Repr && Foot(S.Keys) <= Repr && R.Keys <= Repr
      && Tree(S, R, M, root, order)
    }

    constructor (order: nat)
      requires order >= 3
      ensures Valid() && M == map[] && this.order == order && Repr == {}
      ensures BpInsert.Headed(S)
    {
      this.order := order;
      root := null;
      S, R, M, Repr := map[], map[], map[], {};
    }

    /** A tree object is neither a node nor an array of one nor a record. */
    lemma NotOwn(N: set<Node>, Q: set<Record>)
      ensures (this as object) !in Foot(N) && forall r | r in Q :: r as object != this
    {
    }

    /** The fields take over what an operation has left behind. */
    method Adopt(newRoot: Node?, ghost T: Store, ghost Q: Records, ghost L: Entries, ghost owned: set<object>)
      requires Tree(T, Q, L, newRoot, order)
      modifies this
      ensures Tree(T, Q, L, newRoot, order) && root == newRoot && S == T && R == Q && M == L && Repr == owned
    {
      hide IsTree, Foot;
      NotOwn(T.Keys, Q.Keys);
      root := newRoot;
      S, R, M, Repr := T, Q, L, owned;
    }

    method Insert(key: int, value: int)
      requires Valid()
      modifies this, Repr
      ensures Valid() && M == old(M)[key := value]
      ensures RecordsKept(old(R), R, key)
      ensures forall r {:trigger r in R} | r in R && r !in old(R) :: r.key == key && key !in old(M)
      ensures old(BpInsert.Headed(S)) ==> BpInsert.Headed(S)
      ensures fresh(Repr - old(Repr))
    {
      hide IsTree, Standing, BpInsert.Headed;
      ghost var T, Q;
      var newRoot;
      newRoot, T, Q := BpInsert.Insert(root, key, value, order, S, R, M);
      FootGrows(S.Keys, T.Keys);
      Adopt(newRoot, T, Q, M[key := value], Repr + Foot(T.Keys - S.Keys) + (Q.Keys - R.Keys));
    }

    /** Nothing that leaves the tree is forgotten: it is freed. */
    method Delete(key: int)
      requires Valid()
      modifies this, Repr
      ensures Valid() && M == old(M) - {key} && Repr == old(Repr)
      ensures S.Keys <= old(S.Keys) && R.Keys == (set r | r in old(R) && r.key != key)
      ensures forall r {:trigger r in R} | r in R :: R[r] == old(R)[r]
      ensures BpDelete.AllFreed(old(S.Keys) - S.Keys) && BpDelete.RecordsFreed(old(R.Keys) - R.Keys)
    {
      hide IsTree, Standing;
      ghost var T, Q;
      var newRoot;
      newRoot, T, Q := BpDelete.Delete(root, key, order, S, R, M);
      FootSmaller(T.Keys, S.Keys);
      Adopt(newRoot, T, Q, M - {key}, Repr);
    }

    /** Whoever has been given a record of the tree sees the map through it. */
    lemma RecordsShow()
      requires Valid()
      ensures forall r | r in R :: r.key in M && r.value == M[r.key] && !r.freed
      ensures forall r, q | r in R && q in R && r.key == q.key :: r == q
    {
      OneRecord(S, R, M, root, order);
    }

    method Find(key: int) returns (rec: Record?)
      requires Valid()
      ensures Valid() && (rec != null <==> key in M)
      ensures rec != null ==> rec in R && rec.key == key && rec.value == M[key]
    {
      var leaf;
      ghost var at;
      rec, leaf, at := BpFind.Find(root, key, order, S, R, M);
    }

    /** The record of a key that is there takes another value. */
    method Update(key: int, value: int)
      requires Valid() && key in M
      modifies this, Repr
      ensures Valid() && M == old(M)[key := value] && Repr == old(Repr) && S == old(S)
      ensures R.Keys == old(R.Keys) && RecordsKept(old(R), R, key)
    {
      hide IsTree;
      var rec := Find(key);
      BpInsert.Overwrite(rec, value, order, root, S, R, M);
      Adopt(root, S, R[rec := value], M[key := value], Repr);
    }

    /** height, with what it says about the number of keys. */
    method Height() returns (h: nat)
      requires Valid() && root != null
      ensures root in S && h == S[root].h
      ensures |M| >= LeastKeys(order, h)
    {
      hide Linked, Sized, Stored, LeastKeys;
      HeightBound(S, R, M, root, order);
      h := BpScan.Height(root, order, S, R, M);
    }

    /** print_leaves: the entries of the map in ascending order. */
    method Leaves() returns (keys: seq<int>, ptrs: seq<Ptr>)
      requires Valid()
      ensures Lists(keys, ptrs, R, M, NegInf, PosInf, Everything)
    {
      if root == null {
        keys, ptrs := [], [];
      } else {
        keys, ptrs := BpScan.Leaves(root, order, S, R, M);
      }
    }

    /** find_range */
    method FindRange(start: int, end: int, outKeys: array<int>, outPointers: array<Ptr>) returns (n: nat)
      requires Valid() && outKeys !in Repr && outPointers !in Repr
      requires outKeys.Length == outPointers.Length && end - start < outKeys.Length
      modifies outKeys, outPointers
      ensures Valid()
      ensures CanStart(S, start) ==> Found(outKeys, outPointers, n, R, M, start, end, PosInf)
      ensures !CanStart(S, start) ==> n == 0
      ensures Found(outKeys, outPointers, n, R, M, start, end, PosInf)
              <==> CanStart(S, start) || forall k | k in M :: !(start <= k <= end)
      ensures start in M ==> Found(outKeys, outPointers, n, R, M, start, end, PosInf)
    {
      n := BpRange.FindRange(root, start, end, outKeys, outPointers, order, S, R, M);
    }

    /** Any run of insertions and deletions leaves a tree for the map that the run describes. */
    method Run(ops: seq<Op>)
      requires Valid()
      modifies this, Repr
      ensures Valid() && M == ApplyAll(old(M), ops)
      ensures forall key {:trigger LastDecides(old(M), ops, M, key)} :: LastDecides(old(M), ops, M, key)
      ensures fresh(Repr - old(Repr))
    {
      var i := 0;
      while i < |ops|
        invariant 0 <= i <= |ops| && Valid() && M == ApplyAll(old(M), ops[..i])
        invariant fresh(Repr - old(Repr))
      {
        assert ops[..i + 1][..i] == ops[..i];
        match ops[i] {
          case Insert(key, value) => Insert(key, value);
          case Delete(key) => Delete(key);
        }
        i := i + 1;
      }
      assert ops[..i] == ops;
      forall key ensures LastDecides(old(M), ops, M, key) {
        RunMap(old(M), ops, key);
      }
    }
  }
}
