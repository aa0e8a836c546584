/**
 * Shared memory as one worker's code meets it: before each of its accesses the other workers may do any
 * finite number of steps. What the code does to memory is followed by the machine, step by step, and
 * which steps those are is fixed beforehand by the turns that are given.
 */
module SiloShared {
  import opened SiloTid
  import opened SiloMachine
  import opened SiloLocks
  import opened SiloEpoch
  import opened SiloTheorems
  import opened SiloProgram

  /** What happens before an access, and what the environment decides for the access itself. */
  datatype Turn = Turn(others: seq<Event>, c: Choice)

  predicate GoodChoice(c: Choice, n: nat) {
    |c.value| == VALUE_SIZE && |c.prog| > 0 && forall i | 0 <= i < |c.prog| :: c.prog[i].key < n
  }

  predicate GoodTurn(t: Turn, id: nat, m: nat, n: nat) {
    GoodChoice(t.c, n) && forall i | 0 <= i < |t.others| ::
      t.others[i].w != id && t.others[i].w < m && GoodChoice(t.others[i].c, n)
  }

  /** The schedule of some turns: each time the others' steps, and then one step of worker id. */
  ghost function Played(turns: seq<Turn>, id: nat): seq<Event> {
    if turns == [] then []
    else
      var t := turns[|turns| - 1];
      Played(turns[..|turns| - 1], id) + t.others + [Event(id, t.c)]
  }

  lemma PlayedNext(turns: seq<Turn>, n: nat, id: nat)
    requires 0 < n <= |turns|
    ensures Played(turns[..n], id) == Played(turns[..n - 1], id) + turns[n - 1].others + [Event(id, turns[n - 1].c)]
  {
    assert turns[..n][..n - 1] == turns[..n - 1];
  }

  /** A step of another worker takes no notice of worker id but for its epoch. */
  lemma OtherStep(s: State, id: nat, u: Worker, w: nat, c: Choice)
    requires id < |s.ws| && w != id && s.ws[id].epoch == u.epoch && Legal(s, w, c)
    ensures Legal(s.(ws := s.ws[id := u]), w, c)
    ensures Step(s.(ws := s.ws[id := u]), w, c) == Step(s, w, c).(ws := Step(s, w, c).ws[id := u])
    ensures Step(s, w, c).ws[id] == s.ws[id] && |Step(s, w, c).ws| == |s.ws| && |Step(s, w, c).recs| == |s.recs|
  {
    var t := s.(ws := s.ws[id := u]);
    assert MoveOf(t, w, t.ws[w], c) == MoveOf(s, w, s.ws[w], c);
    assert s.ws[id := u][w := MoveOf(s, w, s.ws[w], c).u] == s.ws[w := MoveOf(s, w, s.ws[w], c).u][id := u];
  }

  lemma RunExtends(run: seq<State>, schedule: seq<Event>, e: Event)
    requires IsRun(run, schedule) && Legal(run[|run| - 1], e.w, e.c)
    ensures IsRun(run + [Step(run[|run| - 1], e.w, e.c)], schedule + [e])
  {
    var r, s := run + [Step(run[|run| - 1], e.w, e.c)], schedule + [e];
    forall i | 0 <= i < |s| ensures StepAt(r, s, i) {
      if i < |schedule| {
        assert StepAt(run, schedule, i);
      }
    }
  }

  /** An effect has nothing to do with the workers' states. */
  lemma EffectApart(s: State, ws: seq<Worker>, eff: Effect)
    ensures ApplyEffect(s.(ws := ws), eff) == ApplyEffect(s, eff).(ws := ws)
    ensures ApplyEffect(s, eff).ws == s.ws && |ApplyEffect(s, eff).recs| == |s.recs|
  {
  }

  class Shared {
    const id: nat
    /**
     * Shared memory and the other workers; slot id of the workers stands only for the epoch this worker has
     * published.
     */
    var mem: State
    /** The turns still to come, of all that were given. */
    var env: seq<Turn>
    ghost const given: seq<Turn>
    ghost var me: Worker
    ghost var run: seq<State>
    ghost var schedule: seq<Event>

    /** The state of the machine, with this worker's own state in its slot. */
    ghost function Whole(): State
      reads this
      requires id < |mem.ws|
    {
      mem.(ws := mem.ws[id := me])
    }

    ghost predicate Valid()
      reads this
    {
      && id < |mem.ws| && mem.ws[id].epoch == me.epoch
      && IsRun(run, schedule) && run[|run| - 1] == Whole()
      && |env| <= |given| && env == given[|given| - |env|..]
      && forall i | 0 <= i < |env| :: GoodTurn(env[i], id, |mem.ws|, |mem.recs|)
    }

    /** The number of turns taken. */
    ghost function Used(): int
      reads this
    {
      |given| - |env|
    }

    /** Exactly n turns were taken, or fewer were left. */
    twostate predicate Took(ok: bool, n: nat)
      reads this
    {
      if ok then |env| == old(|env|) - n else env == [] && old(|env|) < n
    }

    /** This worker has made exactly one step in every turn taken, and the others theirs. */
    ghost predicate Ready()
      reads this
    {
      Valid() && schedule == Played(given[..Used()], id)
    }

    /** In the turn taken last, the others have made their steps; this worker's is due, under the choice c. */
    ghost predicate Due(c: Choice)
      reads this
    {
      && Valid() && Used() > 0 && c == given[Used() - 1].c && GoodChoice(c, |mem.recs|)
      && schedule == Played(given[..Used() - 1], id) + given[Used() - 1].others
    }

    /** What the environment has decided for the turn taken last. */
    ghost function Decided(): Choice
      reads this
      requires Valid() && Used() > 0
    {
      given[Used() - 1].c
    }

    /** Any initial state, any worker in it, and any turns. */
    constructor (s: State, id: nat, env: seq<Turn>)
      requires Init(s) && id < |s.ws| && forall i | 0 <= i < |env| :: GoodTurn(env[i], id, |s.ws|, |s.recs|)
      ensures Ready() && this.id == id && me == s.ws[id] && run == [s] && this.env == env == given
      ensures mem == s
    {
      this.id := id;
      mem := s;
      this.env := env;
      given := env;
      me := s.ws[id];
      run, schedule := [s], [];
      new;
      assert mem.ws[id := me] == mem.ws;
    }

    /** The invariants of the machine hold of the state the code is in. */
    lemma Sound()
      requires Valid()
      ensures WorkerWf(|mem.recs|, |mem.ws|, id, me)
      ensures forall k | 0 <= k < |mem.recs| :: |mem.recs[k].value| == VALUE_SIZE
    {
      RunBase(run, schedule, |run| - 1);
      assert WorkerWf(|Whole().recs|, |Whole().ws|, id, Whole().ws[id]);
    }

    /** The keys a transaction works with are keys of the table. */
    lemma InTable()
      requires Valid() && !me.pc.Idle? && !me.pc.Stopped?
      ensures forall i | 0 <= i < |me.prog| :: me.prog[i].key < |mem.recs|
      ensures forall i | 0 <= i < |me.readSet| :: me.readSet[i].key < |mem.recs|
      ensures forall i | 0 <= i < |me.writeSet| :: me.writeSet[i] < |mem.recs|
      ensures me.pc.Reading? ==> me.pc.key < |mem.recs|
    {
      Sound();
    }

    /** The sets are those of the operations executed so far. */
    lemma ProgramFollowed()
      requires Valid()
      ensures Follows(me)
    {
      RunFollows(run, schedule, |run| - 1, id);
    }

    /** No other worker has record k locked. */
    ghost predicate Ours(k: nat)
      reads this
    {
      forall v | 0 <= v < |mem.ws| && v != id :: !Holds(mem.ws[v], k)
    }

    /** ... and so it is not locked, or this worker has locked it. */
    lemma OursIff(k: nat)
      requires Valid() && k < |mem.recs|
      ensures Ours(k) <==> !mem.recs[k].word.lock || Holds(me, k)
    {
      RunBase(run, schedule, |run| - 1);
      var s := Whole();
      OthersHold(s, id, k);
      assert forall v | 0 <= v < |s.ws| && v != id :: s.ws[v] == mem.ws[v];
    }

    /** The records of these keys are locked now. */
    ghost predicate Locked(keys: seq<nat>)
      reads this
    {
      forall i | 0 <= i < |keys| :: keys[i] < |mem.recs| && mem.recs[keys[i]].word.lock
    }

    /** What the worker holds is locked: the whole write set, from the last lock taken to the first one released. */
    lemma AllLocked()
      requires Valid()
      ensures forall k: nat | Holds(me, k) :: k < |mem.recs| && mem.recs[k].word.lock
      ensures HeldFrom(me) == 0 && HeldTo(me) >= |me.writeSet| ==> Locked(me.writeSet)
    {
      RunBase(run, schedule, |run| - 1);
      var s := Whole();
      forall k: nat | Holds(me, k) ensures k < |mem.recs| && mem.recs[k].word.lock {
        LockedBy(s, id, k);
      }
      if HeldFrom(me) == 0 && HeldTo(me) >= |me.writeSet| {
        forall i | 0 <= i < |me.writeSet| ensures me.writeSet[i] < |mem.recs| && mem.recs[me.writeSet[i]].word.lock {
          HoldsAt(me, i);
        }
      }
    }

    /** The leader's scan compares with the present epoch. */
    lemma ScanNow()
      requires Valid() && me.pc.Check?
      ensures id == 0 && me.pc.now == mem.epoch
    {
      RunBase(run, schedule, |run| - 1);
      var s := Whole();
      assert WorkerWf(|s.recs|, |s.ws|, id, s.ws[id]);
    }

    /** Seen from the leader's next increment of the epoch, every other worker has published the present epoch. */
    lemma CaughtUp()
      requires Valid() && me.pc.AddLoad?
      ensures id == 0 && forall i | 1 <= i < |mem.ws| :: mem.ws[i].epoch == mem.epoch
    {
      RunBase(run, schedule, |run| - 1);
      var s := Whole();
      assert WorkerWf(|s.recs|, |s.ws|, id, s.ws[id]);
      assert forall i | 1 <= i < |mem.ws| :: s.ws[i] == mem.ws[i];
    }

    method StepOther(e: Event)
      requires Valid() && e.w != id && e.w < |mem.ws| && GoodChoice(e.c, |mem.recs|)
      modifies this
      ensures Valid() && me == old(me) && env == old(env) && run == old(run) + [Whole()]
                && schedule == old(schedule) + [e]
      ensures |mem.ws| == old(|mem.ws|) && |mem.recs| == old(|mem.recs|)
    {
      OtherStep(mem, id, me, e.w, e.c);
      RunExtends(run, schedule, e);
      mem := Step(mem, e.w, e.c);
      run, schedule := run + [Whole()], schedule + [e];
    }

    /** The other workers make the steps of their turn; if there is no turn left, the run is over. */
    method Turn() returns (ok: bool, c: Choice)
      requires Ready()
      modifies this
      ensures ok <==> old(env) != []
      ensures Valid() && (ok ==> GoodChoice(c, |mem.recs|))
      ensures ok ==> Used() > 0 && c == Decided()
      ensures ok ==> Due(c) && env == old(env)[1..] && |run| == |old(run)| + |old(env)[0].others|
      ensures !ok ==> Ready() && env == []
      ensures me == old(me) && old(run) <= run && |mem.ws| == old(|mem.ws|) && |mem.recs| == old(|mem.recs|)
    {
      if env == [] {
        return false, Choice(false, false, [], []);
      }
      var t := env[0];
      assert GoodTurn(env[0], id, |mem.ws|, |mem.recs|);
      env := env[1..];
      ok, c := true, t.c;
      var i := 0;
      while i < |t.others|
        invariant 0 <= i <= |t.others| && Valid() && me == old(me) && env == old(env)[1..]
        invariant old(run) <= run && |run| == |old(run)| + i && schedule == old(schedule) + t.others[..i]
        invariant |mem.ws| == old(|mem.ws|) && |mem.recs| == old(|mem.recs|)
      {
        StepOther(t.others[i]);
        i := i + 1;
      }
    }

    /** The step that is due, with its effect on memory: the machine makes the same step. */
    method Done(eff: Effect, c: Choice)
      requires Due(c)
      requires var m := MoveOf(Whole(), id, me, c); m.eff == eff && m.u.epoch == me.epoch
      modifies this
      ensures Ready() && me == old(MoveOf(Whole(), id, me, c).u) && env == old(env)
      ensures mem == ApplyEffect(old(mem), eff) && Whole() == old(Step(Whole(), id, c)) && run == old(run) + [Whole()]
      ensures |mem.ws| == old(|mem.ws|) && |mem.recs| == old(|mem.recs|)
    {
      hide IsRun, MoveOf, ApplyEffect;
      RunExtends(run, schedule, Event(id, c));
      PlayedNext(given, Used(), id);
      EffectApart(mem, mem.ws[id := me], eff);
      ghost var next := Step(Whole(), id, c);
      me := MoveOf(Whole(), id, me, c).u;
      mem := ApplyEffect(mem, eff);
      assert next.ws == mem.ws[id := me];
      run, schedule := run + [next], schedule + [Event(id, c)];
    }

    /** The same for atomicStoreThreadLocalEpoch: the worker publishes its epoch. */
    method StoreEpoch(e: nat, c: Choice)
      requires Due(c)
      requires var m := MoveOf(Whole(), id, me, c); m.eff == Quiet && m.u.epoch == e
      modifies this
      ensures Ready() && me == old(MoveOf(Whole(), id, me, c).u) && env == old(env)
      ensures mem == old(mem).(ws := old(mem).ws[id := old(mem).ws[id].(epoch := e)])
      ensures Whole() == old(Step(Whole(), id, c)) && run == old(run) + [Whole()]
    {
      hide IsRun, MoveOf;
      RunExtends(run, schedule, Event(id, c));
      PlayedNext(given, Used(), id);
      ghost var next := Step(Whole(), id, c);
      me := MoveOf(Whole(), id, me, c).u;
      mem := mem.(ws := mem.ws[id := mem.ws[id].(epoch := e)]);
      assert next.ws == mem.ws[id := me];
      run, schedule := run + [next], schedule + [Event(id, c)];
    }
  }
}
