/** Exactly when the TID of a commit exceeds what it must exceed: in every run, whatever has wrapped before. */
module SiloChoice {
  import opened SiloTid
  import opened SiloMachine
  import opened SiloLocks
  import opened SiloLog
  import opened SiloTheorems

  /** m names the highest version that these words name, or version 0. */
  ghost predicate Top(words: seq<TidWord>, m: TidWord) {
    && (forall j | 0 <= j < |words| :: Ver(words[j]) <= Ver(m))
    && (Ver(m) == 0 || exists j | 0 <= j < |words| :: Ver(words[j]) == Ver(m))
  }

  /** The words read by the first n reads of a transaction, and those in the records of its first n writes. */
  function ReadWords(u: Worker, n: nat): (words: seq<TidWord>)
    requires n <= |u.readSet|
  {
    seq(n, j requires 0 <= j < n => u.readSet[j].word)
  }

  function WriteWords(s: State, u: Worker, n: nat): (words: seq<TidWord>)
    requires n <= |u.writeSet|
  {
    seq(n, j requires 0 <= j < n => Load(s, u.writeSet[j]))
  }

  /** From the first lock to the choice of the TID. */
  predicate Gathering(pc: Pc) {
    pc.LockLoad? || pc.LockTry? || pc.EpochLoad? || pc.EpochStore? || pc.Validate? || pc.Choose?
  }

  /** maxWrite is the highest version locked so far, and maxRead the highest one validated so far. */
  ghost predicate Gathered(s: State, u: Worker) {
    && (Executing(u.pc) ==> u.maxRead == ZERO && u.maxWrite == ZERO)
    && (Gathering(u.pc) ==>
          && HeldTo(u) <= |u.writeSet| && Top(WriteWords(s, u, HeldTo(u)), u.maxWrite)
          && (!u.pc.Validate? && !u.pc.Choose? ==> u.maxRead == ZERO))
    && (u.pc.Validate? ==> u.pc.i <= |u.readSet| && Top(ReadWords(u, u.pc.i), u.maxRead))
    && (u.pc.Choose? ==> Top(ReadWords(u, |u.readSet|), u.maxRead))
  }

  lemma TopGrows(words: seq<TidWord>, m: TidWord, x: TidWord, y: TidWord)
    requires Top(words, m) && Ver(x) == Ver(y)
    ensures Top(words + [x], Max(m, y))
  {
    hide Body, Ver;
    MaxVer(m, y);
    var more := words + [x];
    assert more[|words|] == x;
    if Ver(m) >= Ver(y) && Ver(m) != 0 {
      var j :| 0 <= j < |words| && Ver(words[j]) == Ver(m);
      assert more[j] == words[j];
    }
  }

  lemma GatherRead(s: State, w: nat, u: Worker)
    requires WorkerWf(|s.recs|, |s.ws|, w, u) && Gathered(s, u) && u.pc.Validate?
    ensures var m := MoveValidate(s, w, u); Gathered(ApplyEffect(s, m.eff), m.u)
  {
    hide Ver, Max, Top, Increasing, Distinct;
    var i, m := u.pc.i, MoveValidate(s, w, u);
    var s', u' := ApplyEffect(s, m.eff), m.u;
    assert s'.recs == s.recs;
    assert WriteWords(s', u', |u.writeSet|) == WriteWords(s, u, |u.writeSet|);
    if i < |u.readSet| && u'.pc.Validate? {
      SameVer(u.readSet[i].word, Load(s, u.readSet[i].key));
      TopGrows(ReadWords(u, i), u.maxRead, u.readSet[i].word, Load(s, u.readSet[i].key));
      assert ReadWords(u', i + 1) == ReadWords(u, i) + [u.readSet[i].word];
    } else if u'.pc.Choose? {
      assert ReadWords(u', i) == ReadWords(u, i);
    }
  }

  lemma SameVer(a: TidWord, b: TidWord)
    requires a.epoch == b.epoch && a.tid == b.tid
    ensures Ver(a) == Ver(b)
  {
  }

  lemma GatherLock(s: State, w: nat, u: Worker)
    requires WorkerWf(|s.recs|, |s.ws|, w, u) && Gathered(s, u) && (u.pc.LockLoad? || u.pc.LockTry?)
    ensures var m := MoveLock(s, u); Gathered(ApplyEffect(s, m.eff), m.u)
  {
    hide Ver, Max, Top;
    var i, m := u.pc.i, MoveLock(s, u);
    var s' := ApplyEffect(s, m.eff);
    assert Distinct(u.writeSet);
    assert WriteWords(s', m.u, i) == WriteWords(s, u, i);
    if m.eff.PutRec? {
      var k := u.writeSet[i];
      SameVer(s'.recs[k].word, u.pc.expected);
      TopGrows(WriteWords(s, u, i), u.maxWrite, s'.recs[k].word, u.pc.expected);
      assert WriteWords(s', m.u, i + 1) == WriteWords(s, u, i) + [s'.recs[k].word];
    }
  }

  lemma NoneTop()
    ensures Top([], ZERO)
  {
  }

  lemma GatherEpoch(s: State, w: nat, u: Worker)
    requires Gathered(s, u) && (u.pc.EpochLoad? || u.pc.EpochStore?)
    ensures var m := MoveValidate(s, w, u); Gathered(ApplyEffect(s, m.eff), m.u)
  {
    hide Top;
    var m := MoveValidate(s, w, u);
    var s' := ApplyEffect(s, m.eff);
    assert s'.recs == s.recs;
    assert WriteWords(s', m.u, |u.writeSet|) == WriteWords(s, u, |u.writeSet|);
    NoneTop();
    assert ReadWords(m.u, 0) == [];
  }

  /** Nothing is gathered yet. */
  ghost predicate Fresh(u: Worker) {
    && (Executing(u.pc) || Gathering(u.pc) ==> u.maxRead == ZERO && u.maxWrite == ZERO)
    && (Gathering(u.pc) ==> HeldTo(u) == 0) && !u.pc.Validate? && !u.pc.Choose?
  }

  lemma GatherStart(s: State, w: nat, u: Worker, c: Choice)
    requires Outside(u.pc)
    ensures Fresh(MoveOutside(s, w, u, c).u)
  {
    var u' := MoveOutside(s, w, u, c).u;
    assert Outside(u'.pc) || (u'.pc == Exec(0) && u'.maxRead == ZERO && u'.maxWrite == ZERO);
  }

  lemma GatherExec(s: State, u: Worker)
    requires Fresh(u) && Executing(u.pc)
    ensures Fresh(if u.pc.Exec? then MoveExec(s, u).u else MoveRead(s, u).u)
  {
  }

  lemma GatherNone(s: State, u: Worker)
    requires Fresh(u)
    ensures Gathered(s, u)
  {
    hide Top;
    NoneTop();
    assert WriteWords(s, u, 0) == [];
  }

  lemma GatheredFresh(s: State, u: Worker)
    requires Gathered(s, u) && Executing(u.pc)
    ensures Fresh(u)
  {
  }

  /** From the choice of the TID on, and while giving up, nothing is gathered. */
  lemma GatherEnd(s: State, u: Worker)
    ensures u.pc.Choose? || u.pc.WriteRec? ==> Fresh(MoveWrite(s, u).u)
    ensures u.pc.UnlockLoad? || u.pc.UnlockStore? ==> Fresh(MoveUnlock(s, u).u)
  {
    hide ChooseTid, HeldTo;
  }

  lemma GatherMove(s: State, w: nat, u: Worker, c: Choice)
    requires WorkerWf(|s.recs|, |s.ws|, w, u) && Gathered(s, u)
    ensures var m := MoveOf(s, w, u, c); Gathered(ApplyEffect(s, m.eff), m.u)
  {
    hide Fresh, Gathered, WorkerWf, MoveOutside, MoveExec, MoveRead, MoveLock, MoveValidate, MoveWrite, MoveUnlock;
    var m := MoveOf(s, w, u, c);
    if Outside(u.pc) || Executing(u.pc) {
      if Outside(u.pc) {
        GatherStart(s, w, u, c);
      } else {
        GatheredFresh(s, u);
        GatherExec(s, u);
      }
      GatherNone(ApplyEffect(s, m.eff), m.u);
    } else if u.pc.LockLoad? || u.pc.LockTry? {
      GatherLock(s, w, u);
    } else if u.pc.EpochLoad? || u.pc.EpochStore? {
      GatherEpoch(s, w, u);
    } else if u.pc.Validate? {
      GatherRead(s, w, u);
    } else {
      GatherEnd(s, u);
      GatherNone(ApplyEffect(s, m.eff), m.u);
    }
  }

  lemma SameRecords(s: State, s': State, u: Worker)
    requires Gathered(s, u)
    requires Gathering(u.pc) ==> forall j | 0 <= j < HeldTo(u) :: Load(s', u.writeSet[j]) == Load(s, u.writeSet[j])
    ensures Gathered(s', u)
  {
    hide Top, Ver;
    if Gathering(u.pc) {
      assert WriteWords(s', u, HeldTo(u)) == WriteWords(s, u, HeldTo(u));
    }
  }

  /** What another worker has locked stays as it is. */
  lemma GatherOther(s: State, w: nat, c: Choice, v: nat)
    requires Base(s) && Legal(s, w, c) && v < |s.ws| && v != w && Gathered(s, s.ws[v])
    ensures Gathered(Step(s, w, c), s.ws[v])
  {
    hide Top, Ver, LogOk;
    var s', u := Step(s, w, c), s.ws[v];
    if Gathering(u.pc) {
      forall j | 0 <= j < HeldTo(u) ensures Load(s', u.writeSet[j]) == Load(s, u.writeSet[j]) {
        assert WorkerWf(|s.recs|, |s.ws|, v, u);
        HoldsAt(u, j);
        HeldUnchanged(s, w, c, v, u.writeSet[j]);
      }
    }
    SameRecords(s, s', u);
  }

  lemma {:induction false} RunGathered(run: seq<State>, schedule: seq<Event>, i: nat, v: nat)
    requires IsRun(run, schedule) && i < |run| && v < |run[i].ws|
    ensures Gathered(run[i], run[i].ws[v])
  {
    hide Gathered, Base;
    if i == 0 {
      GatheredInit(run[0], v);
    } else {
      assert StepAt(run, schedule, i - 1);
      RunBase(run, schedule, i - 1);
      RunGathered(run, schedule, i - 1, v);
      GatherStep(run[i - 1], schedule[i - 1].w, schedule[i - 1].c, v);
    }
  }

  lemma GatheredInit(s: State, v: nat)
    requires Init(s) && v < |s.ws|
    ensures Gathered(s, s.ws[v])
  {
  }

  lemma GatherStep(s: State, w: nat, c: Choice, v: nat)
    requires Base(s) && Legal(s, w, c) && v < |s.ws| && Gathered(s, s.ws[v])
    ensures Gathered(Step(s, w, c), Step(s, w, c).ws[v])
  {
    hide MoveOf, Locks, LogOk;
    if v == w {
      assert WorkerWf(|s.recs|, |s.ws|, w, s.ws[w]);
      GatherMove(s, w, s.ws[w], c);
      var m := MoveOf(s, w, s.ws[w], c);
      SameRecords(ApplyEffect(s, m.eff), Step(s, w, c), m.u);
    } else {
      GatherOther(s, w, c, v);
    }
  }

  /**
   * What Silo asks of a commit's TID t: above every version it overwrites or has read, and the worker's
   * previous one.
   */
  ghost predicate Rises(s: State, u: Worker, t: TidWord) {
    && (forall j | 0 <= j < |u.writeSet| :: Ver(Load(s, u.writeSet[j])) < Ver(t))
    && (forall j | 0 <= j < |u.readSet| :: Ver(u.readSet[j].word) < Ver(t))
    && Ver(u.last) < Ver(t)
  }

  lemma TopBelow(words: seq<TidWord>, m: TidWord, t: nat)
    requires Top(words, m) && t > 0
    ensures Ver(m) < t <==> forall j | 0 <= j < |words| :: Ver(words[j]) < t
  {
  }

  /**
   * In every state of every run, the TID that a commit chooses meets Silo's requirement exactly if there is
   * room for it: the highest version that it must exceed does not end its epoch, or the epoch has moved on.
   */
  lemma TidChoice(run: seq<State>, schedule: seq<Event>, i: nat, w: nat, c: Choice)
    requires IsRun(run, schedule) && i < |run| && Legal(run[i], w, c) && run[i].ws[w].pc.Choose?
    ensures var t := Step(run[i], w, c).ws[w].last;
      && (Rises(run[i], run[i].ws[w], t) <==> RoomToChoose(run[i].ws[w]))
      && !t.lock
  {
    var s, u := run[i], run[i].ws[w];
    var t := Next(u);
    assert MoveOf(s, w, u, c).u.last == t;
    RunGathered(run, schedule, i, w);
    ChooseTidGrowsIff(u.maxWrite, u.maxRead, u.last, u.epoch);
    ChooseTidTaken(u.maxWrite, u.maxRead, u.last, u.epoch);
    RisesIff(s, u, t);
  }

  lemma RisesIff(s: State, u: Worker, t: TidWord)
    requires Gathered(s, u) && u.pc.Choose?
    ensures Rises(s, u, t) <==> Exceeds(t, u.maxWrite, u.maxRead, u.last)
  {
    hide Top, Ver;
    if Ver(t) > 0 {
      var written, seen := WriteWords(s, u, |u.writeSet|), ReadWords(u, |u.readSet|);
      TopBelow(written, u.maxWrite, Ver(t));
      TopBelow(seen, u.maxRead, Ver(t));
      assert forall j | 0 <= j < |u.writeSet| :: Load(s, u.writeSet[j]) == written[j];
      assert forall j | 0 <= j < |u.readSet| :: u.readSet[j].word == seen[j];
    }
  }
}
