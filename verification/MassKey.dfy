/** Keys of any length as slices of eight bytes, and which keys a chain of layers answers to (masstree/). */
module MassKey {
  /** Up to eight bytes of a key; `size` says how many, and only the last slice may have fewer than eight. */
  datatype KeySlice = KeySlice(slice: nat, size: nat)

  /** A key being read: the cursor stands on the current slice. The source passes keys by value. */
  datatype Key = Key(body: seq<KeySlice>, cursor: nat) {
    predicate Valid() {
      cursor < |body| && WellFormed(body)
    }

    predicate HasNext()
      requires Valid()
    {
      |body| != cursor + 1
    }

    function Current(): KeySlice
      requires Valid()
    {
      body[cursor]
    }

    function Next(): (k: Key)
      requires Valid() && HasNext()
      ensures k.Valid() && k.Rest() == Rest()[1..]
    {
      Key(body, cursor + 1)
    }

    /** The slices from the cursor on. */
    function Rest(): (r: seq<KeySlice>)
      requires Valid()
      ensures WellFormed(r) && (HasNext() <==> |r| > 1) && r[0] == Current()
    {
      body[cursor..]
    }
  }

  predicate WellFormed(s: seq<KeySlice>) {
    && s != []
    && (forall i | 0 <= i < |s| - 1 :: s[i].size == 8)
    && 1 <= s[|s| - 1].size <= 8
  }

  /** Whether a chain laid out for the slices s answers a search for the slices p, layer by layer. */
  predicate Hits(s: seq<KeySlice>, p: seq<KeySlice>)
    requires WellFormed(s) && WellFormed(p)
  {
    if |s| == 1 then
      s[0].slice == p[0].slice && if |p| == 1 then s[0].size == p[0].size else s[0].size == 8 && p[1].slice == 0
    else if |s| == 2 then
      s[0].slice == p[0].slice && if |p| == 1 then p[0].size == 8 else s[1].slice == p[1].slice
    else
      |p| > 1 && s[0].slice == p[0].slice && Hits(s[1..], p[1..])
  }

  predicate Agree(s: seq<KeySlice>, p: seq<KeySlice>, n: nat) {
    n <= |s| && n <= |p| && forall i | 0 <= i < n :: s[i].slice == p[i].slice
  }

  /** The answer in closed form: what is compared, and what is not. */
  predicate Answers(s: seq<KeySlice>, p: seq<KeySlice>)
    requires WellFormed(s) && WellFormed(p)
  {
    var n, m := |s|, |p|;
    if n == 1 then
      Agree(s, p, 1) && if m == 1 then s[0].size == p[0].size else s[0].size == 8 && p[1].slice == 0
    else
      Agree(s, p, n - 1) && if m == n - 1 then p[m - 1].size == 8 else m >= n && s[n - 1].slice == p[n - 1].slice
  }

  lemma {:induction false} HitsIsAnswers(s: seq<KeySlice>, p: seq<KeySlice>)
    requires WellFormed(s) && WellFormed(p)
    ensures Hits(s, p) <==> Answers(s, p)
    decreases |s|
  {
    if |s| >= 3 && |p| > 1 {
      HitsIsAnswers(s[1..], p[1..]);
      assert Agree(s, p, |s| - 1) <==> s[0].slice == p[0].slice && Agree(s[1..], p[1..], |s| - 2) by {
        if |p| >= |s| - 1 {
          assert forall i | 1 <= i < |s| - 1 :: s[1..][i - 1] == s[i] && p[1..][i - 1] == p[i];
          if s[0].slice == p[0].slice && Agree(s[1..], p[1..], |s| - 2) {
            forall i | 0 <= i < |s| - 1 ensures s[i].slice == p[i].slice {
              assert i > 0 ==> s[1..][i - 1].slice == p[1..][i - 1].slice;
            }
          }
          if Agree(s, p, |s| - 1) {
            forall i | 0 <= i < |s| - 2 ensures s[1..][i].slice == p[1..][i].slice {
              assert s[i + 1].slice == p[i + 1].slice;
            }
          }
        }
      }
    }
  }

  /** A key finds itself. */
  lemma {:induction false} FindsItself(s: seq<KeySlice>)
    requires WellFormed(s)
    ensures Hits(s, s)
  {
    HitsIsAnswers(s, s);
  }

  /** Among keys with as many slices: those that agree in every slice value, and in the size if there is just one. */
  lemma {:induction false} SameLength(s: seq<KeySlice>, p: seq<KeySlice>)
    requires WellFormed(s) && WellFormed(p) && |s| == |p|
    ensures Hits(s, p) <==> Agree(s, p, |s|) && (|s| == 1 ==> s[0].size == p[0].size)
  {
    HitsIsAnswers(s, p);
  }

  /** A key that is answered is the key itself unless it has another number of slices or another last size. */
  lemma {:induction false} NoMistake(s: seq<KeySlice>, p: seq<KeySlice>)
    requires WellFormed(s) && WellFormed(p) && |s| == |p| && s[|s| - 1].size == p[|p| - 1].size
    ensures Hits(s, p) <==> s == p
  {
    SameLength(s, p);
    if Hits(s, p) {
      forall i | 0 <= i < |s| ensures s[i] == p[i] {
        assert s[i].slice == p[i].slice;
      }
    }
  }

  const TWO := [KeySlice(1, 8), KeySlice(2, 3)]
  const PREFIX := [KeySlice(1, 8)]
  const LONGER := [KeySlice(1, 8), KeySlice(2, 8), KeySlice(3, 1)]
  const OTHER_SIZE := [KeySlice(1, 8), KeySlice(2, 4)]
  const ZERO_NEXT := [KeySlice(1, 8), KeySlice(0, 1)]

  /** One key of each kind that is answered though it is another key. */
  lemma MistakenKeys()
    ensures WellFormed(TWO) && WellFormed(PREFIX) && WellFormed(LONGER) && WellFormed(OTHER_SIZE)
              && WellFormed(ZERO_NEXT)
    ensures Hits(TWO, PREFIX) && Hits(TWO, LONGER) && Hits(TWO, OTHER_SIZE)
    ensures Hits(PREFIX, ZERO_NEXT)
  {
  }
}
