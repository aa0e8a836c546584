/** The tree of order 4 that serves as primary index (kvsilo/primary_tree.cpp); keys are never removed. */
module PrimaryTree {
  import opened BpNode
  import opened BpFind
  import opened BpTree

  class Index {
    const tree: BPlusTree

    ghost predicate Valid()
      reads tree, tree.Repr
    {
      tree.Valid() && tree.order == 4
    }

    /** The index starts out with the keys 1 to 8. */
    constructor ()
      ensures Valid() && fresh(tree) && fresh(tree.Repr)
      ensures tree.M == map[1 := 1, 2 := 2, 3 := 3, 4 := 4, 5 := 5, 6 := 6, 7 := 7, 8 := 8]
    {
      tree := new BPlusTree(4);
      new;
      InsertFour(1);
      InsertFour(5);
    }

    /** Four insertions of the constructor. */
    method InsertFour(k: int)
      requires Valid()
      modifies tree, tree.Repr
      ensures Valid() && tree.M == old(tree.M)[k := k][k + 1 := k + 1][k + 2 := k + 2][k + 3 := k + 3]
      ensures fresh(tree.Repr - old(tree.Repr))
    {
      hide BPlusTree.Valid;
      tree.Insert(k, k);
      tree.Insert(k + 1, k + 1);
      tree.Insert(k + 2, k + 2);
      tree.Insert(k + 3, k + 3);
    }

    method Insert(key: int, value: int)
      requires Valid()
      modifies tree, tree.Repr
      ensures Valid() && tree.M == old(tree.M)[key := value] && fresh(tree.Repr - old(tree.Repr))
      ensures RecordsKept(old(tree.R), tree.R, key) && (key in old(tree.M) ==> tree.R.Keys == old(tree.R.Keys))
    {
      tree.Insert(key, value);
    }

    /** read: the record of a key that is there. */
    method Read(key: int) returns (rec: Record)
      requires Valid() && key in tree.M
      ensures Valid() && rec in tree.R && rec.key == key && rec.value == tree.M[key]
    {
      var r := tree.Find(key);
      rec := r;
    }

    /** write: a key that is there gets another value. */
    method Write(key: int, value: int)
      requires Valid() && key in tree.M
      modifies tree, tree.Repr
      ensures Valid() && tree.M == old(tree.M)[key := value] && tree.Repr == old(tree.Repr)
      ensures tree.R.Keys == old(tree.R.Keys) && RecordsKept(old(tree.R), tree.R, key)
    {
      tree.Update(key, value);
    }
  }
}
