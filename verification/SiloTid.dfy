/** The 64-bit TID word of a record (silo/tuple.h) and the arithmetic of choosing the next one. */
module SiloTid {
  /** The tid field is 29 bits wide and the epoch field 32. */
  const TID_LIMIT: nat := 0x2000_0000
  const EPOCH_LIMIT: nat := 0x1_0000_0000

  datatype Fields = Fields(lock: bool, latest: bool, absent: bool, tid: nat, epoch: nat)

  type TidWord = f: Fields | f.tid < TID_LIMIT && f.epoch < EPOCH_LIMIT
    witness Fields(false, false, false, 0, 0)

  /** The word whose body is zero. */
  const ZERO: TidWord := Fields(false, false, false, 0, 0)

  function Flag(b: bool, weight: nat): nat {
    if b then weight else 0
  }

  /** The union's integer view: lock is bit 0, latest 1, absent 2, tid 3..31, epoch 32..63. */
  function Body(w: TidWord): nat {
    Flag(w.lock, 1) + Flag(w.latest, 2) + Flag(w.absent, 4) + 8 * w.tid + 0x1_0000_0000 * w.epoch
  }

  /** The version a word names: its (epoch, tid) pair, packed so that < is the lexicographic order. */
  function Ver(w: TidWord): nat {
    w.epoch * 0x2000_0000 + w.tid
  }

  /** std::max on words: the first argument unless the second has the larger body. */
  function Max(a: TidWord, b: TidWord): TidWord {
    if Body(a) < Body(b) then b else a
  }

  /** tid++ on a 29-bit field: it wraps without carrying into the epoch. */
  function Bump(w: TidWord): TidWord {
    w.(tid := (w.tid + 1) % TID_LIMIT)
  }

  /** writePhase: the smallest word above everything read, written and chosen before, in epoch e. */
  function ChooseTid(maxWrite: TidWord, maxRead: TidWord, last: TidWord, e: nat): TidWord {
    var tidA := Bump(Max(maxWrite, maxRead));
    var tidB := Bump(last);
    var tidC := ZERO.(epoch := e % EPOCH_LIMIT);
    Max(Max(tidA, tidB), tidC).(lock := false, latest := true)
  }

  /** The body is a faithful 64-bit packing, and comparing bodies is comparing epoch, then tid, then flags. */
  lemma BodyIsLexicographic(a: TidWord, b: TidWord)
    ensures Body(a) < 0x1_0000_0000_0000_0000
    ensures Body(a) == Body(b) <==> a == b
    ensures Body(a) < Body(b) <==>
      || a.epoch < b.epoch
      || (a.epoch == b.epoch && a.tid < b.tid)
      || (a.epoch == b.epoch && a.tid == b.tid && Body(a) % 8 < Body(b) % 8)
    ensures Ver(a) < Ver(b) <==> a.epoch < b.epoch || (a.epoch == b.epoch && a.tid < b.tid)
    ensures Ver(a) == Ver(b) <==> a.epoch == b.epoch && a.tid == b.tid
  {
    BodyFlags(a);
    BodyFlags(b);
  }

  /** The union's field view of 64 bits. */
  function Unpack(b: nat): TidWord
    requires b < 0x1_0000_0000_0000_0000
  {
    Fields(b % 2 == 1, b / 2 % 2 == 1, b / 4 % 2 == 1, b / 8 % TID_LIMIT, b / 0x1_0000_0000)
  }

  /** Every word has its bits, and all 64-bit values are words: the fields fill the 64 bits without gap or overlap. */
  lemma BodyUnpacks(w: TidWord)
    ensures Body(w) < 0x1_0000_0000_0000_0000 && Unpack(Body(w)) == w
  {
    BodyFlags(w);
    var f := Flag(w.lock, 1) + Flag(w.latest, 2) + Flag(w.absent, 4);
    LowBits(Body(w), f, w.tid + 0x2000_0000 * w.epoch);
    HighBits(w.tid + 0x2000_0000 * w.epoch, w.tid, w.epoch);
    assert Body(w) / 0x1_0000_0000 == w.epoch;
  }

  lemma LowBits(b: nat, f: nat, rest: nat)
    requires f < 8 && b == f + 8 * rest
    ensures b / 8 == rest && b % 2 == f % 2 && b / 2 % 2 == f / 2 % 2 && b / 4 % 2 == f / 4
  {
    Divides(b, 8, rest, f);
    Divides(b, 4, 2 * rest + f / 4, f % 4);
    Divides(b, 2, 4 * rest + f / 2, f % 2);
    Divides(2 * rest + f / 4, 2, rest, f / 4);
    Divides(4 * rest + f / 2, 2, 2 * rest + f / 4, f / 2 % 2);
  }

  /** Quotient and remainder are the only ones. */
  lemma Divides(b: nat, d: nat, q: nat, r: nat)
    requires r < d && b == d * q + r
    ensures b / d == q && b % d == r
  {
    var x: int := b / d - q;
    assert d * x == r - b % d;
    SmallMultiple(d, x);
  }

  lemma SmallMultiple(d: int, x: int)
    requires d > 0
    ensures -d < d * x < d ==> x == 0
  {
    if x > 0 {
      assert d * x >= d;
    } else if x < 0 {
      assert d * x <= -d;
    }
  }

  lemma HighBits(rest: nat, tid: nat, epoch: nat)
    requires tid < 0x2000_0000 && rest == tid + 0x2000_0000 * epoch
    ensures rest / 0x2000_0000 == epoch && rest % 0x2000_0000 == tid
  {
  }

  lemma BodyOnto(b: nat)
    requires b < 0x1_0000_0000_0000_0000
    ensures Body(Unpack(b)) == b
  {
    var b1 := b / 2;
    var b2 := b1 / 2;
    var b3 := b2 / 2;
    var low := 4 * (b2 % 2) + 2 * (b1 % 2) + b % 2;
    Divides(b, 4, b2, 2 * (b1 % 2) + b % 2);
    Divides(b, 8, b3, low);
    var epoch, tid := b3 / 0x2000_0000, b3 % 0x2000_0000;
    assert b3 == 0x2000_0000 * epoch + tid;
    Divides(b, 0x1_0000_0000, epoch, 8 * tid + low);
  }

  lemma BodyFlags(a: TidWord)
    ensures Body(a) % 8 == Flag(a.lock, 1) + Flag(a.latest, 2) + Flag(a.absent, 4)
    ensures Body(a) == 8 * Ver(a) + Body(a) % 8
  {
  }

  lemma MaxVer(a: TidWord, b: TidWord)
    ensures Ver(Max(a, b)) == if Ver(a) < Ver(b) then Ver(b) else Ver(a)
    ensures Max(a, b) == a || Max(a, b) == b
  {
  }

  /** The version that Bump(w) names. */
  function NextVer(w: TidWord): nat {
    if w.tid < TID_LIMIT - 1 then Ver(w) + 1 else w.epoch * 0x2000_0000
  }

  lemma BumpVer(w: TidWord)
    ensures Ver(Bump(w)) == NextVer(w)
  {
  }

  /** t is unlocked and carries the largest of the three candidates' versions. */
  ghost predicate Chosen(t: TidWord, m: TidWord, last: TidWord, c: nat) {
    && Ver(t) >= NextVer(m) && Ver(t) >= NextVer(last) && Ver(t) >= c
    && (Ver(t) == NextVer(m) || Ver(t) == NextVer(last) || Ver(t) == c)
    && !t.lock
  }

  lemma ChosenVer(maxWrite: TidWord, maxRead: TidWord, last: TidWord, e: nat)
    ensures Chosen(ChooseTid(maxWrite, maxRead, last, e), Max(maxWrite, maxRead), last, (e % EPOCH_LIMIT) * 0x2000_0000)
  {
    var a, b, c := Bump(Max(maxWrite, maxRead)), Bump(last), ZERO.(epoch := e % EPOCH_LIMIT);
    BumpVer(Max(maxWrite, maxRead));
    BumpVer(last);
    MaxVer(a, b);
    MaxVer(Max(a, b), c);
  }

  /** What writePhase needs of its new TID t: it names a later version than each word, in epoch at least e. */
  ghost predicate Exceeds(t: TidWord, maxWrite: TidWord, maxRead: TidWord, last: TidWord) {
    Ver(maxWrite) < Ver(t) && Ver(maxRead) < Ver(t) && Ver(last) < Ver(t)
  }

  /** t takes its tid from w: the next one, in the same epoch. */
  ghost predicate NextOf(t: TidWord, w: TidWord) {
    t.epoch == w.epoch && t.tid == w.tid + 1
  }

  /** ... and takes its epoch from e and those words, and its tid from one of that epoch unless it starts at zero. */
  ghost predicate TakenFrom(t: TidWord, maxWrite: TidWord, maxRead: TidWord, last: TidWord, e: nat) {
    && t.epoch >= e && t.epoch >= maxWrite.epoch && t.epoch >= maxRead.epoch && t.epoch >= last.epoch
    && (t.epoch == e || t.epoch == maxWrite.epoch || t.epoch == maxRead.epoch || t.epoch == last.epoch)
    && (t.tid == 0 || NextOf(t, maxWrite) || NextOf(t, maxRead) || NextOf(t, last))
    && !t.lock
  }

  lemma VerParts(a: TidWord, b: TidWord)
    ensures Ver(a) == Ver(b) ==> a.epoch == b.epoch && a.tid == b.tid
    ensures Ver(a) <= Ver(b) ==> a.epoch <= b.epoch
  {
  }

  /** The highest word that a new TID must exceed. */
  function Highest(maxWrite: TidWord, maxRead: TidWord, last: TidWord): TidWord {
    Max(Max(maxWrite, maxRead), last)
  }

  /** The tid of the highest such word is not at the end of its field, or the epoch has moved past that word's. */
  predicate Room(maxWrite: TidWord, maxRead: TidWord, last: TidWord, e: nat) {
    var x := Highest(maxWrite, maxRead, last);
    x.tid < TID_LIMIT - 1 || x.epoch < e % EPOCH_LIMIT
  }

  /** Where the new TID comes from, whatever the words. */
  lemma ChooseTidTaken(maxWrite: TidWord, maxRead: TidWord, last: TidWord, e: nat)
    ensures TakenFrom(ChooseTid(maxWrite, maxRead, last, e), maxWrite, maxRead, last, e % EPOCH_LIMIT)
  {
    ChosenVer(maxWrite, maxRead, last, e);
    MaxVer(maxWrite, maxRead);
    var m := Max(maxWrite, maxRead);
    Taken(maxWrite, maxRead, last, e % EPOCH_LIMIT, m, ChooseTid(maxWrite, maxRead, last, e));
  }

  lemma Taken(mw: TidWord, mr: TidWord, last: TidWord, e: nat, m: TidWord, t: TidWord)
    requires (m == mw || m == mr) && Ver(mw) <= Ver(m) && Ver(mr) <= Ver(m)
    requires e < EPOCH_LIMIT && Chosen(t, m, last, e * 0x2000_0000)
    ensures TakenFrom(t, mw, mr, last, e)
  {
    assert Ver(t) >= m.epoch * 0x2000_0000 && Ver(t) >= last.epoch * 0x2000_0000;
  }

  /** Exactly when the new TID exceeds everything read, written and chosen before. */
  lemma ChooseTidGrowsIff(maxWrite: TidWord, maxRead: TidWord, last: TidWord, e: nat)
    ensures Exceeds(ChooseTid(maxWrite, maxRead, last, e), maxWrite, maxRead, last)
            <==> Room(maxWrite, maxRead, last, e)
  {
    var m := Max(maxWrite, maxRead);
    ChosenVer(maxWrite, maxRead, last, e);
    MaxVer(maxWrite, maxRead);
    MaxVer(m, last);
    GrowsIff(maxWrite, maxRead, last, e, m, Max(m, last), ChooseTid(maxWrite, maxRead, last, e));
  }

  lemma GrowsIff(mw: TidWord, mr: TidWord, last: TidWord, e: nat, m: TidWord, x: TidWord, t: TidWord)
    requires (m == mw || m == mr) && (x == m || x == last)
    requires Ver(mw) <= Ver(m) && Ver(mr) <= Ver(m) && Ver(m) <= Ver(x) && Ver(last) <= Ver(x)
    requires Chosen(t, m, last, (e % EPOCH_LIMIT) * 0x2000_0000)
    ensures Exceeds(t, mw, mr, last) <==> (x.tid < TID_LIMIT - 1 || x.epoch < e % EPOCH_LIMIT)
  {
  }

  /**
   * If no tid is above the number of TIDs counted in its word's epoch, and the new one can still be counted in
   * its own epoch, then the new TID exceeds what it must exceed, and is not above the number either.
   */
  lemma ChooseTidGrows(count: nat -> nat, maxWrite: TidWord, maxRead: TidWord, last: TidWord, e: nat)
    requires maxWrite.tid <= count(maxWrite.epoch) && maxRead.tid <= count(maxRead.epoch)
              && last.tid <= count(last.epoch)
    requires count(ChooseTid(maxWrite, maxRead, last, e).epoch) + 1 < TID_LIMIT
    ensures Room(maxWrite, maxRead, last, e)
    ensures var t := ChooseTid(maxWrite, maxRead, last, e);
      Exceeds(t, maxWrite, maxRead, last) && t.tid <= count(t.epoch) + 1
  {
    var t, x := ChooseTid(maxWrite, maxRead, last, e), Highest(maxWrite, maxRead, last);
    ChooseTidTaken(maxWrite, maxRead, last, e);
    ChooseTidGrowsIff(maxWrite, maxRead, last, e);
    MaxVer(maxWrite, maxRead);
    MaxVer(Max(maxWrite, maxRead), last);
    FullEpoch(maxWrite, maxRead, last, e % EPOCH_LIMIT, t, x);
  }

  /** If the highest word is at the end of its field and the epoch is no later, the new TID is in that word's epoch. */
  lemma FullEpoch(mw: TidWord, mr: TidWord, last: TidWord, e: nat, t: TidWord, x: TidWord)
    requires TakenFrom(t, mw, mr, last, e) && (x == mw || x == mr || x == last)
    requires Ver(mw) <= Ver(x) && Ver(mr) <= Ver(x) && Ver(last) <= Ver(x)
    ensures e <= x.epoch ==> t.epoch == x.epoch
  {
    VerParts(mw, x);
    VerParts(mr, x);
    VerParts(last, x);
  }

  /** The failing family has a member: at tid 2^29 - 1 in an unmoved epoch, the "next" TID goes back to 0. */
  lemma ChooseTidWraps()
    ensures
      var full: TidWord := Fields(false, true, false, TID_LIMIT - 1, 7);
      ChooseTid(full, full, full, 7) == Fields(false, true, false, 0, 7)
  {
    var full: TidWord := Fields(false, true, false, TID_LIMIT - 1, 7);
    var low: TidWord := Fields(false, true, false, 0, 7);
    assert Bump(full) == low;
    assert Body(full) == Body(full);
  }
}
