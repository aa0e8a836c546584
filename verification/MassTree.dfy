/** The chain of layers that a single key is laid out in, and the search that walks it (masstree/). */
module MassTree {
  import opened MassKey

  const SLOTS := 15
  const LAYER := 255
  const UNSTABLE := 254

  /** The union of a link to the next layer and a value; the values are the source's non-null pointers. */
  datatype LinkOrValue = Null | Link(layer: BorderNode) | Value(value: int)

  datatype Extract = NotFound | Found | Layer | Unstable

  class BorderNode {
    var isRoot: bool
    const keyLen: array<nat>
    const keySlice: array<nat>
    const lv: array<LinkOrValue>
    const suffixes: array<KeySlice>

    constructor ()
      ensures keyLen.Length == 15 && Blank() && isRoot
      ensures fresh(keyLen) && fresh(keySlice) && fresh(lv) && fresh(suffixes)
    {
      isRoot := true;
      keyLen := new nat[SLOTS](_ => 0);
      keySlice := new nat[SLOTS](_ => 0);
      lv := new LinkOrValue[SLOTS](_ => Null);
      suffixes := new KeySlice[SLOTS](_ => KeySlice(0, 0));
    }

    ghost predicate Sized() {
      keyLen.Length == keySlice.Length == lv.Length == suffixes.Length == SLOTS && keyLen != keySlice
    }

    /** Slot i is empty: the source takes length 0 for that. */
    ghost predicate EmptySlot(i: nat)
      reads keyLen, keySlice, lv, suffixes
      requires Sized() && i < SLOTS
    {
      keyLen[i] == 0 && keySlice[i] == 0 && lv[i] == Null && suffixes[i] == KeySlice(0, 0)
    }

    ghost predicate Blank()
      reads keyLen, keySlice, lv, suffixes
    {
      Sized() && forall i {:trigger EmptySlot(i)} | 0 <= i < SLOTS :: EmptySlot(i)
    }

    /** Slot 0 holds this, and the others are empty. */
    ghost predicate Holds(len: nat, slice: nat, suffix: KeySlice, v: LinkOrValue)
      reads keyLen, keySlice, lv, suffixes
    {
      && Sized() && keyLen[0] == len && keySlice[0] == slice && suffixes[0] == suffix && lv[0] == v
      && forall i {:trigger EmptySlot(i)} | 1 <= i < SLOTS :: EmptySlot(i)
    }

    /** The search stops at slot i. */
    ghost predicate Matches(i: nat, key: Key)
      reads keyLen, keySlice
      requires Sized() && i < SLOTS && key.Valid()
    {
      && keySlice[i] == key.Current().slice
      && if key.HasNext() then keyLen[i] == 8 || keyLen[i] == LAYER || keyLen[i] == UNSTABLE
         else keyLen[i] == key.Current().size
    }

    /** What the search says of the slot it stops at. */
    ghost predicate SaysOf(i: nat, key: Key, t: Extract, v: LinkOrValue, index: nat)
      reads keyLen, keySlice, lv, suffixes
      requires Sized() && i < SLOTS && key.Valid()
    {
      if key.HasNext() && keyLen[i] == 8 && suffixes[i].slice != key.Next().Current().slice then t == NotFound
      else if key.HasNext() && keyLen[i] == UNSTABLE then t == Unstable
      else t == (if key.HasNext() && keyLen[i] == LAYER then Layer else Found) && v == lv[i] && index == i
    }

    /** extractLinkOrValueWithIndexFor: the first slot that matches decides. */
    method ExtractFor(key: Key) returns (t: Extract, v: LinkOrValue, index: nat)
      requires Sized() && key.Valid()
      ensures index < SLOTS
      ensures (forall i {:trigger Matches(i, key)} | 0 <= i < SLOTS :: !Matches(i, key)) ==> t == NotFound
      ensures forall i {:trigger SaysOf(i, key, t, v, index)} {:trigger Matches(i, key)}
                | 0 <= i < SLOTS && Matches(i, key) ::
                (forall j {:trigger Matches(j, key)} | 0 <= j < i :: !Matches(j, key)) ==> SaysOf(i, key, t, v, index)
    {
      var current := key.Current();
      if !key.HasNext() {
        var i := 0;
        while i < SLOTS
          invariant 0 <= i <= SLOTS
          invariant forall j {:trigger Matches(j, key)} | 0 <= j < i :: !Matches(j, key)
        {
          if keySlice[i] == current.slice && keyLen[i] == current.size {
            assert Matches(i, key);
            return Found, lv[i], i;
          }
          i := i + 1;
        }
      } else {
        var i := 0;
        while i < SLOTS
          invariant 0 <= i <= SLOTS
          invariant forall j {:trigger Matches(j, key)} | 0 <= j < i :: !Matches(j, key)
        {
          if keySlice[i] == current.slice {
            if keyLen[i] == 8 {
              assert Matches(i, key);
              if suffixes[i].slice == key.Next().Current().slice {
                return Found, lv[i], i;
              } else {
                return NotFound, Null, 0;
              }
            }
            if keyLen[i] == LAYER {
              assert Matches(i, key);
              return Layer, lv[i], i;
            }
            if keyLen[i] == UNSTABLE {
              assert Matches(i, key);
              return Unstable, Null, 0;
            }
          }
          i := i + 1;
        }
      }
      return NotFound, Null, 0;
    }

    /** The value in slot 0 is replaced. */
    method PutValue(index: nat, value: int, ghost len: nat, ghost slice: nat, ghost suffix: KeySlice,
                    ghost w: LinkOrValue)
      requires Holds(len, slice, suffix, w) && index == 0
      modifies lv
      ensures Holds(len, slice, suffix, Value(value))
    {
      lv[index] := Value(value);
      forall i | 1 <= i < SLOTS ensures EmptySlot(i) {
        assert old(EmptySlot(i));
      }
    }

    /** A node with one occupied slot: the search is about that slot. */
    lemma OneSlot(key: Key, len: nat, slice: nat, suffix: KeySlice, w: LinkOrValue)
      requires key.Valid() && Holds(len, slice, suffix, w)
      ensures forall i {:trigger Matches(i, key)} | 1 <= i < SLOTS :: !Matches(i, key)
    {
      forall i | 1 <= i < SLOTS ensures !Matches(i, key) {
        assert EmptySlot(i);
        assert key.HasNext() || key.Rest()[|key.Rest()| - 1] == key.Current();
      }
    }
  }

  // ---- chains of layers ----

  /** Layer b holds the first of the slices s, and the second too if that is the last. */
  ghost predicate LayerOf(b: BorderNode, s: seq<KeySlice>, value: int, next: BorderNode?)
    reads b, b.keyLen, b.keySlice, b.lv, b.suffixes
    requires s != []
  {
    && b.isRoot
    && if |s| == 1 then b.Holds(s[0].size, s[0].slice, KeySlice(0, 0), Value(value))
       else if |s| == 2 then b.Holds(8, s[0].slice, s[1], Value(value))
       else next != null && b.Holds(LAYER, s[0].slice, KeySlice(0, 0), Link(next))
  }

  ghost function Arrays(nodes: seq<BorderNode>): set<object> {
    (set i | 0 <= i < |nodes| :: nodes[i] as object) + (set i | 0 <= i < |nodes| :: nodes[i].keyLen as object)
    + (set i | 0 <= i < |nodes| :: nodes[i].keySlice as object) + (set i | 0 <= i < |nodes| :: nodes[i].lv as object)
    + (set i | 0 <= i < |nodes| :: nodes[i].suffixes as object)
  }

  function Layers(s: seq<KeySlice>): nat {
    if |s| <= 2 then 1 else |s| - 1
  }

  ghost predicate LayerAt(nodes: seq<BorderNode>, i: nat, s: seq<KeySlice>, value: int)
    reads Arrays(nodes)
    requires i < |nodes| && i < |s|
  {
    LayerOf(nodes[i], s[i..], value, if i + 1 < |nodes| then nodes[i + 1] else null)
  }

  /** The two nodes share no array. */
  ghost predicate Apart(a: BorderNode, b: BorderNode) {
    && a.keyLen != b.keyLen && a.keyLen != b.keySlice && a.keySlice != b.keyLen && a.keySlice != b.keySlice
    && a.lv != b.lv && a.suffixes != b.suffixes
  }

  /** The nodes are the layers that the slices s and the value are laid out in. */
  ghost predicate Laid(nodes: seq<BorderNode>, s: seq<KeySlice>, value: int)
    reads Arrays(nodes)
  {
    && WellFormed(s) && |nodes| == Layers(s)
    && (forall i, j {:trigger Apart(nodes[i], nodes[j])} | 0 <= i < j < |nodes| :: Apart(nodes[i], nodes[j]))
    && forall i {:trigger LayerAt(nodes, i, s, value)} | 0 <= i < |nodes| :: LayerAt(nodes, i, s, value)
  }

  datatype Option = None | Some(value: int)

  /** What one layer says to the search. */
  lemma LayerSays(b: BorderNode, s: seq<KeySlice>, value: int, next: BorderNode?, k: Key, t: Extract, v: LinkOrValue,
                  index: nat)
    requires WellFormed(s) && LayerOf(b, s, value, next) && k.Valid()
    requires (forall i {:trigger b.Matches(i, k)} | 0 <= i < SLOTS :: !b.Matches(i, k)) ==> t == NotFound
    requires b.Matches(0, k) ==> b.SaysOf(0, k, t, v, index)
    ensures t != Unstable
    ensures t == Found <==> |s| <= 2 && Hits(s, k.Rest())
    ensures t == Found ==> v == Value(value) && index == 0
    ensures t == Layer <==> |s| > 2 && k.HasNext() && s[0].slice == k.Current().slice
    ensures t == Layer ==> v == Link(next)
  {
    var p := k.Rest();
    if k.HasNext() {
      assert p[1] == k.Next().Current();
    }
    if |s| == 1 {
      b.OneSlot(k, s[0].size, s[0].slice, KeySlice(0, 0), Value(value));
    } else if |s| == 2 {
      b.OneSlot(k, 8, s[0].slice, s[1], Value(value));
    } else {
      b.OneSlot(k, LAYER, s[0].slice, KeySlice(0, 0), Link(next));
    }
  }

  /** The search in layer i of a chain. */
  method SearchLayer(n: BorderNode, k: Key, ghost nodes: seq<BorderNode>, ghost i: nat, ghost s: seq<KeySlice>,
                     ghost value: int)
    returns (t: Extract, v: LinkOrValue, index: nat)
    requires Laid(nodes, s, value) && i < |nodes| && n == nodes[i] && k.Valid()
    ensures Laid(nodes, s, value) && t != Unstable && index < SLOTS
    ensures t == Found <==> i + 1 == |nodes| && Hits(s[i..], k.Rest())
    ensures t == Found ==> v == Value(value) && index == 0
    ensures t == Layer <==> i + 1 < |nodes| && k.HasNext() && s[i].slice == k.Current().slice
    ensures t == Layer ==> v == Link(nodes[i + 1])
  {
    assert LayerAt(nodes, i, s, value);
    t, v, index := n.ExtractFor(k);
    forall j | 0 <= j < |nodes| ensures LayerAt(nodes, j, s, value) {
      assert old(LayerAt(nodes, j, s, value));
    }
    assert n.Matches(0, k) ==> n.SaysOf(0, k, t, v, index);
    LayerSays(n, s[i..], value, if i + 1 < |nodes| then nodes[i + 1] else null, k, t, v, index);
  }

  /** get: walks the layers; the value is found exactly if the chain answers to the key. */
  method Get(root: BorderNode, key: Key, ghost nodes: seq<BorderNode>, ghost s: seq<KeySlice>, ghost value: int)
    returns (r: Option)
    requires Laid(nodes, s, value) && root == nodes[0] && key.Valid()
    ensures Laid(nodes, s, value)
    ensures r == if Answers(s, key.Rest()) then Some(value) else None
  {
    HitsIsAnswers(s, key.Rest());
    var n, k := root, key;
    ghost var i := 0;
    assert s[0..] == s;
    while true
      invariant Laid(nodes, s, value)
      invariant 0 <= i < |nodes| && n == nodes[i] && k.Valid()
      invariant Hits(s, key.Rest()) <==> Hits(s[i..], k.Rest())
      decreases |nodes| - i
    {
      var t, v, index := SearchLayer(n, k, nodes, i, s, value);
      if t == NotFound {
        return None;
      } else if t == Found {
        return Some(v.value);
      } else {
        assert s[i..][1..] == s[i + 1..];
        n, k := v.layer, k.Next();
        i := i + 1;
      }
    }
  }

  /** write: the value is replaced exactly if the chain answers to the key; all later searches find the new one. */
  method Write(root: BorderNode, key: Key, newValue: int, ghost nodes: seq<BorderNode>, ghost s: seq<KeySlice>,
               ghost value: int)
    returns (ok: bool)
    requires Laid(nodes, s, value) && root == nodes[0] && key.Valid()
    modifies nodes[|nodes| - 1].lv
    ensures ok == Answers(s, key.Rest()) && Laid(nodes, s, if ok then newValue else value)
  {
    HitsIsAnswers(s, key.Rest());
    var n, k := root, key;
    ghost var i := 0;
    assert s[0..] == s;
    while true
      invariant Laid(nodes, s, value)
      invariant 0 <= i < |nodes| && n == nodes[i] && k.Valid()
      invariant Hits(s, key.Rest()) <==> Hits(s[i..], k.Rest())
      decreases |nodes| - i
    {
      var t, v, index := SearchLayer(n, k, nodes, i, s, value);
      if t == NotFound {
        return false;
      } else if t == Found {
        SetValue(n, index, newValue, nodes, s, value);
        return true;
      } else {
        assert s[i..][1..] == s[i + 1..];
        n, k := v.layer, k.Next();
        i := i + 1;
      }
    }
  }

  /** The value stands in the last layer only. */
  method SetValue(n: BorderNode, index: nat, newValue: int, ghost nodes: seq<BorderNode>, ghost s: seq<KeySlice>,
                  ghost value: int)
    requires Laid(nodes, s, value) && n == nodes[|nodes| - 1] && index == 0
    modifies n.lv
    ensures Laid(nodes, s, newValue)
  {
    assert LayerAt(nodes, |nodes| - 1, s, value);
    ghost var w := s[|nodes| - 1..];
    ghost var suffix := if |w| == 1 then KeySlice(0, 0) else w[1];
    n.PutValue(index, newValue, if |w| == 1 then w[0].size else 8, w[0].slice, suffix, Value(value));
    forall i | 0 <= i < |nodes| ensures LayerAt(nodes, i, s, newValue) {
      assert old(LayerAt(nodes, i, s, value));
      if i < |nodes| - 1 {
        assert Apart(nodes[i], nodes[|nodes| - 1]);
      }
    }
  }

  // ---- laying out a key ----

  /** One layer of start_new_tree and key_insert_after_new_layer; next is the layer that is still to be filled. */
  method FillSlot(b: BorderNode, key: Key, value: int) returns (next: BorderNode?, k: Key)
    requires b.Blank() && b.isRoot && key.Valid()
    modifies b.keyLen, b.keySlice, b.lv, b.suffixes
    ensures LayerOf(b, key.Rest(), value, next) && (next != null <==> |key.Rest()| > 2)
    ensures next != null ==> next.Blank() && next.isRoot && fresh(next) && fresh(next.keyLen) && fresh(next.keySlice)
                             && fresh(next.lv) && fresh(next.suffixes)
    ensures next != null ==> k.Valid() && k.HasNext() && k.Rest() == key.Rest()[1..]
  {
    next, k := null, key;
    assert b.EmptySlot(0);
    var current := k.Current();
    if 1 <= current.size <= 7 {
      b.keyLen[0] := current.size;
      b.keySlice[0] := current.slice;
      b.lv[0] := Value(value);
    } else if k.HasNext() {
      b.keySlice[0] := current.slice;
      k := k.Next();
      if k.HasNext() {
        b.keyLen[0] := LAYER;
        next := new BorderNode();
        b.lv[0] := Link(next);
      } else {
        b.keyLen[0] := 8;
        b.suffixes[0] := k.Current();
        b.lv[0] := Value(value);
      }
    } else {
      b.keyLen[0] := 8;
      b.keySlice[0] := current.slice;
      b.lv[0] := Value(value);
    }
    forall i | 1 <= i < SLOTS ensures b.EmptySlot(i) {
      assert old(b.EmptySlot(i));
    }
  }

  /** Layers 0 to |nodes| - 2 of a chain are done; the last is still blank. */
  ghost predicate Under(nodes: seq<BorderNode>, s: seq<KeySlice>, value: int)
    reads Arrays(nodes)
  {
    && s != [] && 0 < |nodes| <= Layers(s)
    && (forall i, j {:trigger Apart(nodes[i], nodes[j])} | 0 <= i < j < |nodes| :: Apart(nodes[i], nodes[j]))
    && (forall i {:trigger LayerAt(nodes, i, s, value)} | 0 <= i < |nodes| - 1 :: LayerAt(nodes, i, s, value))
    && nodes[|nodes| - 1].Blank() && nodes[|nodes| - 1].isRoot
  }

  /**
   * key_insert_after_new_layer: one layer after the other, until the rest of the key fits into one.
   * The layers above the given root, if there are any, are for the slices that the cursor has passed.
   */
  method KeyInsertAfterNewLayer(root: BorderNode, key: Key, value: int, ghost above: seq<BorderNode>,
                                ghost s: seq<KeySlice>)
    returns (ghost nodes: seq<BorderNode>)
    requires WellFormed(s) && key.Valid() && key.HasNext() && |above| < |s| && key.Rest() == s[|above|..]
    requires Under(above + [root], s, value)
    modifies root.keyLen, root.keySlice, root.lv, root.suffixes
    ensures Laid(nodes, s, value) && |above| < |nodes| && nodes[..|above| + 1] == above + [root]
  {
    var b, k := root, key;
    nodes := above + [root];
    while true
      invariant k.Valid() && Under(nodes, s, value) && b == nodes[|nodes| - 1]
      invariant |above| < |nodes| && nodes[..|above| + 1] == above + [root]
      invariant k.Rest() == s[|nodes| - 1..]
      invariant b == root || (fresh(b) && fresh(b.keyLen) && fresh(b.keySlice) && fresh(b.lv) && fresh(b.suffixes))
      decreases |s| - |nodes|
    {
      var next;
      next, k := Extend(b, k, value, nodes, s);
      if next == null {
        return;
      }
      nodes, b := nodes + [next], next;
    }
  }

  /** Filling the last layer completes the chain or puts a blank layer behind it. */
  method Extend(b: BorderNode, key: Key, value: int, ghost nodes: seq<BorderNode>, ghost s: seq<KeySlice>)
    returns (next: BorderNode?, k: Key)
    requires WellFormed(s) && key.Valid() && Under(nodes, s, value) && b == nodes[|nodes| - 1]
    requires key.Rest() == s[|nodes| - 1..]
    modifies b.keyLen, b.keySlice, b.lv, b.suffixes
    ensures next == null ==> Laid(nodes, s, value)
    ensures next != null ==> fresh(next) && fresh(next.keyLen) && fresh(next.keySlice) && fresh(next.lv)
                             && fresh(next.suffixes)
    ensures next != null ==> k.Valid() && k.HasNext() && |nodes| < |s| && k.Rest() == s[|nodes|..]
                             && Under(nodes + [next], s, value)
  {
    next, k := FillSlot(b, key, value);
    ghost var n := |nodes|;
    ghost var all := if next == null then nodes else nodes + [next];
    forall i | 0 <= i < n ensures LayerAt(all, i, s, value) {
      if i < n - 1 {
        assert old(LayerAt(nodes, i, s, value)) && Apart(nodes[i], nodes[n - 1]);
        assert all[i] == nodes[i] && all[i + 1] == nodes[i + 1];
      }
    }
  }

  /** start_new_tree: the chain of layers of the key. */
  method StartNewTree(key: Key, value: int) returns (root: BorderNode, ghost nodes: seq<BorderNode>)
    requires key.Valid()
    ensures Laid(nodes, key.Rest(), value) && nodes[0] == root && fresh(root)
  {
    root := new BorderNode();
    nodes := [root];
    var next, k := Extend(root, key, value, nodes, key.Rest());
    if next != null {
      nodes := KeyInsertAfterNewLayer(next, k, value, nodes, key.Rest());
      assert nodes[..2][0] == root;
    }
  }

  /**
   * What start_new_tree lays out, get finds: under its own key, and under another exactly if the closed form
   * says so.
   */
  method RoundTrip(key: Key, value: int, probe: Key)
    returns (root: BorderNode, ghost nodes: seq<BorderNode>, own: Option, other: Option)
    requires key.Valid() && probe.Valid()
    ensures Laid(nodes, key.Rest(), value) && root == nodes[0] && fresh(root)
    ensures own == Some(value)
    ensures other == if Answers(key.Rest(), probe.Rest()) then Some(value) else None
  {
    root, nodes := StartNewTree(key, value);
    FindsItself(key.Rest());
    HitsIsAnswers(key.Rest(), key.Rest());
    own := Get(root, key, nodes, key.Rest(), value);
    other := Get(root, probe, nodes, key.Rest(), value);
  }
}
