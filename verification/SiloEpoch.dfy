/** The epoch protocol: no worker's epoch falls more than one behind the global epoch. */
module SiloEpoch {
  import opened SiloTid
  import opened SiloMachine
  import opened SiloLocks

  /** Program points of the leader at which its own epoch is the global one. */
  predicate LeaderCurrent(pc: Pc) {
    pc.Validate? || pc.Choose? || pc.WriteRec? || pc.UnlockLoad? || pc.UnlockStore?
    || pc.Idle? || pc.Retry? || pc.CheckLoad? || pc.Check? || pc.AddLoad? || pc.AddCas?
  }

  /** The gap of worker u, and what it has loaded but not yet stored. */
  ghost predicate GapOk(e: nat, u: Worker) {
    && u.epoch <= e <= u.epoch + 1
    && (u.pc.EpochStore? ==> u.epoch <= u.pc.e <= e)
  }

  ghost predicate LeaderOk(e: nat, u: Worker) {
    && (LeaderCurrent(u.pc) ==> u.epoch == e)
    && (u.pc.EpochStore? ==> u.pc.e == e)
  }

  /** Workers 1..i have stored the global epoch. */
  ghost predicate CaughtUp(s: State, i: nat) {
    forall j | 1 <= j < i && j < |s.ws| :: s.ws[j].epoch == s.epoch
  }

  /** How far the leader's scan has got. */
  ghost predicate ScanOk(s: State, pc: Pc) {
    match pc
    case Check(i, now) => now == s.epoch && CaughtUp(s, i)
    case AddLoad => CaughtUp(s, |s.ws|)
    case AddCas(before) => before == s.epoch && CaughtUp(s, |s.ws|)
    case _ => true
  }

  ghost predicate Gap(s: State) {
    && |s.ws| > 0
    && (forall w | 0 <= w < |s.ws| :: GapOk(s.epoch, s.ws[w]))
    && LeaderOk(s.epoch, s.ws[0])
    && ScanOk(s, s.ws[0].pc)
  }

  /** What a move of u may do to the epochs. */
  ghost predicate EpochMove(s: State, w: nat, u: Worker, m: Move) {
    if m.eff.SetEpoch? then
      w == 0 && u.pc.AddCas? && u.pc.before == s.epoch && m.eff.epoch == s.epoch + 1 && m.u == u.(pc := Start)
    else
      u.epoch <= m.u.epoch && GapOk(s.epoch, m.u) && (w == 0 ==> LeaderOk(s.epoch, m.u) && ScanOk(s, m.u.pc))
  }

  lemma OutsideGap(s: State, w: nat, u: Worker, c: Choice)
    requires Gap(s) && Legal(s, w, c) && u == s.ws[w] && WorkerWf(|s.recs|, |s.ws|, w, u) && Outside(u.pc)
    ensures EpochMove(s, w, u, MoveOutside(s, w, u, c))
  {
    assert GapOk(s.epoch, u);
  }

  lemma InsideGap(s: State, w: nat, u: Worker, c: Choice)
    requires Gap(s) && Legal(s, w, c) && u == s.ws[w] && !Outside(u.pc)
    ensures EpochMove(s, w, u, MoveOf(s, w, u, c))
  {
    assert GapOk(s.epoch, u);
  }

  lemma MoveGap(s: State, w: nat, u: Worker, c: Choice)
    requires Wf(s) && Gap(s) && Legal(s, w, c) && u == s.ws[w]
    ensures EpochMove(s, w, u, MoveOf(s, w, u, c))
  {
    assert WorkerWf(|s.recs|, |s.ws|, w, u);
    if Outside(u.pc) {
      OutsideGap(s, w, u, c);
    } else {
      InsideGap(s, w, u, c);
    }
  }

  /** 0 <= E - e_w <= 1 is kept by every step, the leader's advance included. */
  lemma GapStep(s: State, w: nat, c: Choice)
    requires Wf(s) && Gap(s) && Legal(s, w, c)
    ensures Gap(Step(s, w, c))
  {
    var u := s.ws[w];
    var m := MoveOf(s, w, u, c);
    MoveGap(s, w, u, c);
    var s' := After(s, w, m);
    if m.eff.SetEpoch? {
      assert CaughtUp(s, |s.ws|);
    } else {
      assert GapOk(s.epoch, u);
    }
  }
}
