/** What must happen: reads that must pass validation, epochs that must be stepped, transactions that must commit. */
module SiloProgress {
  import opened SiloTid
  import opened SiloMachine
  import opened SiloLocks
  import opened SiloEpoch
  import opened SiloLog
  import opened SiloTheorems
  import opened SiloProgram
  import opened SiloChoice

  // ---- validation ----

  /** A read passes exactly if its version is still the record's and no other worker has the record locked. */
  lemma ReadPasses(run: seq<State>, schedule: seq<Event>, i: nat, w: nat, c: Choice)
    requires IsRun(run, schedule) && i < |run| && Legal(run[i], w, c)
    requires run[i].ws[w].pc.Validate? && run[i].ws[w].pc.i < |run[i].ws[w].readSet|
    ensures
      var s, u := run[i], run[i].ws[w];
      var r := u.readSet[u.pc.i];
      && r.key < |s.recs|
      && (Step(s, w, c).ws[w].pc == Validate(u.pc.i + 1) <==>
            && Ver(r.word) == Ver(s.recs[r.key].word)
            && forall v | 0 <= v < |s.ws| && v != w :: !Holds(s.ws[v], r.key))
  {
    RunBase(run, schedule, i);
    ReadPassesAt(run[i], w, c);
  }

  lemma ReadPassesAt(s: State, w: nat, c: Choice)
    requires Base(s) && Legal(s, w, c) && s.ws[w].pc.Validate? && s.ws[w].pc.i < |s.ws[w].readSet|
    ensures
      var u := s.ws[w];
      var r := u.readSet[u.pc.i];
      && r.key < |s.recs|
      && (Step(s, w, c).ws[w].pc == Validate(u.pc.i + 1) <==>
            && Ver(r.word) == Ver(s.recs[r.key].word)
            && forall v | 0 <= v < |s.ws| && v != w :: !Holds(s.ws[v], r.key))
  {
    var u := s.ws[w];
    var r := u.readSet[u.pc.i];
    assert WorkerWf(|s.recs|, |s.ws|, w, u);
    assert MoveOf(s, w, u, c) == MoveValidate(s, w, u);
    VerParts(r.word, s.recs[r.key].word);
    OthersHold(s, w, r.key);
    if r.key in u.writeSet {
      var j :| 0 <= j < |u.writeSet| && u.writeSet[j] == r.key;
      HoldsAt(u, j);
    }
  }

  // ---- the flags of a word ----

  /** Every record shows its latest version, and is there. */
  ghost predicate Shown(s: State) {
    forall k | 0 <= k < |s.recs| :: s.recs[k].word.latest && !s.recs[k].word.absent
  }

  /** ... and so do the words that worker u may store; those that a TID is chosen from are there. */
  ghost predicate Shows(u: Worker) {
    && !u.last.absent && !u.maxRead.absent && !u.maxWrite.absent
    && (match u.pc
        case LockTry(_, expected) => expected.latest && !expected.absent
        case UnlockStore(_, expected) => expected.latest && !expected.absent
        case WriteRec(_, _) => u.last.latest
        case _ => true)
  }

  lemma ChosenFlags(maxWrite: TidWord, maxRead: TidWord, last: TidWord, e: nat)
    requires !maxWrite.absent && !maxRead.absent && !last.absent
    ensures var t := ChooseTid(maxWrite, maxRead, last, e); t.latest && !t.absent && !t.lock
  {
    hide Body;
  }

  ghost predicate MoveShows(m: Move) {
    Shows(m.u) && (m.eff.PutRec? ==> m.eff.rec.word.latest && !m.eff.rec.word.absent)
  }

  lemma QuietShows(s: State, w: nat, u: Worker, c: Choice)
    requires Shows(u) && (Outside(u.pc) || Executing(u.pc))
    ensures MoveShows(MoveOf(s, w, u, c))
  {
  }

  lemma LockShows(s: State, w: nat, u: Worker)
    requires WorkerWf(|s.recs|, |s.ws|, w, u) && Shown(s) && Shows(u)
    ensures u.pc.LockLoad? || u.pc.LockTry? ==> MoveShows(MoveLock(s, u))
    ensures u.pc.UnlockLoad? || u.pc.UnlockStore? ==> MoveShows(MoveUnlock(s, u))
    ensures u.pc.EpochLoad? || u.pc.EpochStore? || u.pc.Validate? ==> MoveShows(MoveValidate(s, w, u))
  {
    hide Body;
  }

  lemma WriteShows(s: State, u: Worker)
    requires Shown(s) && Shows(u)
    ensures u.pc.Choose? || u.pc.WriteRec? ==> MoveShows(MoveWrite(s, u))
  {
    hide ChooseTid;
    ChosenFlags(u.maxWrite, u.maxRead, u.last, u.epoch);
  }

  lemma ShowsMove(s: State, w: nat, u: Worker, c: Choice)
    requires WorkerWf(|s.recs|, |s.ws|, w, u) && Shown(s) && Shows(u)
    ensures MoveShows(MoveOf(s, w, u, c))
  {
    hide MoveShows, Shows, WorkerWf, MoveOutside, MoveExec, MoveRead, MoveLock, MoveValidate, MoveWrite, MoveUnlock;
    if Outside(u.pc) || Executing(u.pc) {
      QuietShows(s, w, u, c);
    } else {
      LockShows(s, w, u);
      WriteShows(s, u);
    }
  }

  lemma ShownStep(s: State, w: nat, c: Choice)
    requires Base(s) && Legal(s, w, c) && Shown(s) && forall v | 0 <= v < |s.ws| :: Shows(s.ws[v])
    ensures Shown(Step(s, w, c)) && forall v | 0 <= v < |s.ws| :: Shows(Step(s, w, c).ws[v])
  {
    hide MoveOf, Shows;
    assert WorkerWf(|s.recs|, |s.ws|, w, s.ws[w]);
    ShowsMove(s, w, s.ws[w], c);
  }

  /** In every state of every run, all records have the latest bit, and none the absent bit. */
  lemma {:induction false} RunShown(run: seq<State>, schedule: seq<Event>, i: nat)
    requires IsRun(run, schedule) && i < |run|
    ensures Shown(run[i]) && forall v | 0 <= v < |run[i].ws| :: Shows(run[i].ws[v])
  {
    hide Base, MoveOf;
    if i > 0 {
      assert StepAt(run, schedule, i - 1);
      RunShown(run, schedule, i - 1);
      RunBase(run, schedule, i - 1);
      ShownStep(run[i - 1], schedule[i - 1].w, schedule[i - 1].c);
    }
  }

  // ---- stepping the epoch ----

  /** The leader begins its scan exactly if the timer has elapsed at the top of an attempt. */
  lemma ScanBegins(run: seq<State>, schedule: seq<Event>, i: nat)
    requires IsRun(run, schedule) && i < |schedule|
    ensures var w := schedule[i].w;
      && w < |run[i].ws| && w < |run[i + 1].ws|
      && (run[i].ws[w].pc.Retry? ==>
            run[i + 1].ws[w].pc == if w == 0 && schedule[i].c.timer then CheckLoad else Start)
  {
    assert StepAt(run, schedule, i);
  }

  /** The scan passes worker j exactly if that worker has published the present epoch. */
  lemma ScanPasses(run: seq<State>, schedule: seq<Event>, i: nat)
    requires IsRun(run, schedule) && i < |schedule| && schedule[i].w < |run[i].ws|
    requires run[i].ws[schedule[i].w].pc.Check? && run[i].ws[schedule[i].w].pc.i < |run[i].ws|
    ensures var w, s := schedule[i].w, run[i];
      var j := s.ws[w].pc.i;
      w == 0 && w < |run[i + 1].ws|
      && (run[i + 1].ws[w].pc == Check(j + 1, s.epoch) <==> s.ws[j].epoch == s.epoch)
  {
    assert StepAt(run, schedule, i);
    RunBase(run, schedule, i);
    assert WorkerWf(|run[i].recs|, |run[i].ws|, schedule[i].w, run[i].ws[schedule[i].w]);
  }

  /** In the midst of a scan that finds every worker in epoch e. */
  ghost predicate Scanning(s: State, e: nat) {
    && |s.ws| > 0 && s.epoch == e && CaughtUp(s, |s.ws|)
    && (s.ws[0].pc.CheckLoad? || s.ws[0].pc.Check? || s.ws[0].pc.AddLoad? || s.ws[0].pc.AddCas?)
  }

  lemma ScanStep(s: State, w: nat, c: Choice, e: nat)
    requires Base(s) && Legal(s, w, c) && Scanning(s, e)
    ensures var s' := Step(s, w, c); Scanning(s', e) || (|s'.ws| > 0 && s'.ws[0].pc.Start? && s'.epoch == e + 1)
  {
    var u := s.ws[w];
    assert WorkerWf(|s.recs|, |s.ws|, w, u);
    GapStep(s, w, c);
    MoveGap(s, w, u, c);
    if w == 0 {
      ScanMove(s, u, c);
    }
  }

  lemma ScanMove(s: State, u: Worker, c: Choice)
    requires Gap(s) && u == s.ws[0] && Scanning(s, s.epoch)
    ensures var m := MoveOf(s, 0, u, c);
      && m.u.epoch == u.epoch
      && if u.pc.AddCas? then m.eff == SetEpoch(s.epoch + 1) && m.u.pc.Start?
         else m.eff == Quiet && (m.u.pc.Check? || m.u.pc.AddLoad? || m.u.pc.AddCas?)
  {
  }

  lemma ScanAt(run: seq<State>, schedule: seq<Event>, i: nat, e: nat)
    requires IsRun(run, schedule) && i < |schedule| && Scanning(run[i], e)
    ensures Scanning(run[i + 1], e)
            || (|run[i + 1].ws| > 0 && run[i + 1].ws[0].pc.Start? && run[i + 1].epoch == e + 1)
    ensures |run[i + 1].ws| > 0
  {
    hide Base, MoveOf;
    assert StepAt(run, schedule, i);
    RunBase(run, schedule, i);
    ScanStep(run[i], schedule[i].w, schedule[i].c, e);
  }

  /**
   * If every other worker has published the present epoch when the leader begins its scan, the scan ends with the
   * next epoch, whatever steps the other workers make meanwhile.
   */
  lemma {:induction false} EpochAdvances(run: seq<State>, schedule: seq<Event>, i: nat, j: nat)
    requires IsRun(run, schedule) && i <= j < |run| && |run[i].ws| > 0 && run[i].ws[0].pc.CheckLoad?
    requires forall v | 1 <= v < |run[i].ws| :: run[i].ws[v].epoch == run[i].epoch
    requires forall m | i <= m < j :: |run[m].ws| > 0 && !run[m].ws[0].pc.Start?
    ensures |run[j].ws| > 0
    ensures if run[j].ws[0].pc.Start? then run[j].epoch == run[i].epoch + 1 else Scanning(run[j], run[i].epoch)
  {
    if i < j {
      hide Scanning, StepAt;
      EpochAdvances(run, schedule, i, j - 1);
      ScanAt(run, schedule, j - 1, run[i].epoch);
    }
  }
}
