/** What is read and written, and committed, is what the programs given to the workers ask for. */
module SiloProgram {
  import opened SiloTid
  import opened SiloMachine
  import opened SiloLocks
  import opened SiloLog
  import opened SiloTheorems

  // ---- a program and its sets ----

  /** One of the first n operations of the program writes k. */
  ghost predicate Writes(prog: seq<Op>, n: nat, k: nat) {
    exists j :: 0 <= j < n && j < |prog| && prog[j] == Op.Write(k)
  }

  /** One of the first n operations of the program reads k, and none before it writes k. */
  ghost predicate Reads(prog: seq<Op>, n: nat, k: nat) {
    exists j :: 0 <= j < n && j < |prog| && prog[j] == Op.Read(k) && !Writes(prog, j, k)
  }

  /** How many operations of its program a worker has executed. */
  function Executed(u: Worker): nat {
    match u.pc
    case Exec(i) => i
    case Reading(i, _, _, _) => i
    case _ => |u.prog|
  }

  /** The sets of a worker within a transaction are those of the operations it has executed. */
  ghost predicate Follows(u: Worker) {
    !Outside(u.pc) ==>
      && (forall k: nat :: k in u.writeSet <==> Writes(u.prog, Executed(u), k))
      && (forall k: nat :: ReadsKey(u.readSet, k) <==> Reads(u.prog, Executed(u), k))
      && (forall i, j | 0 <= i < j < |u.readSet| :: u.readSet[i].key != u.readSet[j].key)
      && (u.pc.Reading? ==> u.pc.op < |u.prog| && u.prog[u.pc.op] == Op.Read(u.pc.key)
                            && u.pc.key !in u.writeSet && !ReadsKey(u.readSet, u.pc.key))
  }

  lemma OneMore(prog: seq<Op>, n: nat, k: nat)
    requires n < |prog|
    ensures Writes(prog, n + 1, k) <==> Writes(prog, n, k) || prog[n] == Op.Write(k)
    ensures Reads(prog, n + 1, k) <==> Reads(prog, n, k) || (prog[n] == Op.Read(k) && !Writes(prog, n, k))
  {
    if Writes(prog, n, k) {
      var j :| 0 <= j < n && j < |prog| && prog[j] == Op.Write(k);
      assert 0 <= j < n + 1;
    }
    if Reads(prog, n, k) {
      var j :| 0 <= j < n && j < |prog| && prog[j] == Op.Read(k) && !Writes(prog, j, k);
      assert 0 <= j < n + 1;
    }
  }

  lemma OneMoreRead(seen: seq<ReadElem>, r: ReadElem, k: nat)
    ensures ReadsKey(seen + [r], k) <==> ReadsKey(seen, k) || k == r.key
  {
    var more := seen + [r];
    assert more[|seen|] == r;
    if ReadsKey(seen, k) {
      var i :| 0 <= i < |seen| && seen[i].key == k;
      assert more[i] == seen[i];
    }
  }

  lemma FollowsExec(s: State, w: nat, u: Worker)
    requires WorkerWf(|s.recs|, |s.ws|, w, u) && Follows(u) && u.pc.Exec?
    ensures Follows(MoveExec(s, u).u)
  {
    hide Writes, Reads, ReadsKey;
    var i, u' := u.pc.op, MoveExec(s, u).u;
    if i >= |u.prog| {
      SortSorts(u.writeSet);
    } else {
      forall k: nat
        ensures k in u'.writeSet <==> Writes(u.prog, Executed(u'), k)
        ensures ReadsKey(u'.readSet, k) <==> Reads(u.prog, Executed(u'), k)
      {
        OneMore(u.prog, i, k);
      }
    }
  }

  lemma FollowsRead(s: State, w: nat, u: Worker)
    requires WorkerWf(|s.recs|, |s.ws|, w, u) && Follows(u) && u.pc.Reading?
    ensures Follows(MoveRead(s, u).u)
  {
    hide Writes, Reads;
    var i, key, u' := u.pc.op, u.pc.key, MoveRead(s, u).u;
    if u'.pc.Exec? {
      var r := ReadElem(key, u.pc.expected, u.pc.buf);
      assert u'.readSet == u.readSet + [r];
      forall k: nat
        ensures k in u'.writeSet <==> Writes(u.prog, i + 1, k)
        ensures ReadsKey(u'.readSet, k) <==> Reads(u.prog, i + 1, k)
      {
        OneMore(u.prog, i, k);
        OneMoreRead(u.readSet, r, k);
      }
      assert forall a | 0 <= a < |u.readSet| :: u.readSet[a].key != key;
    }
  }

  lemma FollowsStart(s: State, w: nat, u: Worker, c: Choice)
    requires WorkerWf(|s.recs|, |s.ws|, w, u) && Outside(u.pc)
    ensures Follows(MoveOutside(s, w, u, c).u)
  {
    var u' := MoveOutside(s, w, u, c).u;
    assert u'.pc.Exec? ==> u'.pc.op == 0 && u'.readSet == [] && u'.writeSet == [];
  }

  /** From the first lock on, the sets stay as they are until the transaction is left. */
  lemma FollowsRest(s: State, w: nat, u: Worker, c: Choice)
    requires !Outside(u.pc) && !Executing(u.pc)
    ensures var u' := MoveOf(s, w, u, c).u;
      || Outside(u'.pc)
      || (!Executing(u'.pc) && u'.prog == u.prog && u'.readSet == u.readSet && u'.writeSet == u.writeSet)
  {
    hide MoveOutside, MoveExec, MoveRead, ChooseTid, Max;
  }

  lemma FollowsMove(s: State, w: nat, u: Worker, c: Choice)
    requires WorkerWf(|s.recs|, |s.ws|, w, u) && Follows(u)
    ensures Follows(MoveOf(s, w, u, c).u)
  {
    hide WorkerWf, Writes, Reads, ReadsKey;
    hide MoveOutside, MoveExec, MoveRead, MoveLock, MoveValidate, MoveWrite, MoveUnlock;
    if Outside(u.pc) {
      FollowsStart(s, w, u, c);
    } else if u.pc.Exec? {
      FollowsExec(s, w, u);
    } else if u.pc.Reading? {
      FollowsRead(s, w, u);
    } else {
      FollowsRest(s, w, u, c);
    }
  }

  /**
   * In every state of every run, the write set has exactly the keys that the operations executed so far write,
   * and the read set, once each, those that they read before writing them.
   */
  lemma {:induction false} RunFollows(run: seq<State>, schedule: seq<Event>, i: nat, w: nat)
    requires IsRun(run, schedule) && i < |run| && w < |run[i].ws|
    ensures Follows(run[i].ws[w])
  {
    hide Follows, Base, MoveOf;
    if i == 0 {
      FollowsInit(run[0], w);
    } else {
      assert StepAt(run, schedule, i - 1);
      RunFollows(run, schedule, i - 1, w);
      RunBase(run, schedule, i - 1);
      FollowsStep(run[i - 1], schedule[i - 1].w, schedule[i - 1].c, w);
    }
  }

  lemma FollowsInit(s: State, w: nat)
    requires Init(s) && w < |s.ws|
    ensures Follows(s.ws[w])
  {
  }

  lemma FollowsStep(s: State, w: nat, c: Choice, v: nat)
    requires Base(s) && Legal(s, w, c) && v < |s.ws| && Follows(s.ws[v])
    ensures Follows(Step(s, w, c).ws[v])
  {
    hide Follows, MoveOf;
    if v == w {
      assert WorkerWf(|s.recs|, |s.ws|, w, s.ws[w]);
      FollowsMove(s, w, s.ws[w], c);
    }
  }

  // ---- what is entered into the log ----

  /** The entry has the reads and writes that the program asks for, and the value it was given to write. */
  ghost predicate AsksFor(e: Entry, prog: seq<Op>, value: Bytes) {
    && Increasing(e.writes) && e.value == value
    && (forall k: nat :: k in e.writes <==> Writes(prog, |prog|, k))
    && (forall k: nat :: ReadsKey(e.seen, k) <==> Reads(prog, |prog|, k))
  }

  /** Of an entry, only the number of checks and the decision change. */
  ghost predicate SameContent(log: seq<Entry>, log': seq<Entry>) {
    && |log| <= |log'|
    && forall q | 0 <= q < |log| ::
         log'[q] == log[q].(checked := log'[q].checked, status := log'[q].status)
  }

  lemma AfterContent(s: State, w: nat, m: Move)
    requires w < |s.ws|
    ensures SameContent(s.log, After(s, w, m).log)
    ensures |After(s, w, m).log| == |s.log| + (if m.eff.Append? then 1 else 0)
    ensures m.eff.Append? ==> After(s, w, m).log[|s.log|] == m.eff.entry
  {
  }

  lemma AppendsWhen(s: State, w: nat, u: Worker, c: Choice)
    ensures var eff := MoveOf(s, w, u, c).eff;
      && (eff.Append? <==> u.pc.EpochLoad?)
      && (eff.Append? ==> eff.entry.worker == w && eff.entry.seen == u.readSet && eff.entry.writes == u.writeSet
                          && eff.entry.value == u.value)
  {
  }

  /** A step enters a transaction at its lock point only, with what its program asks for. */
  lemma EnterStep(s: State, w: nat, c: Choice)
    requires Base(s) && Legal(s, w, c) && Follows(s.ws[w])
    ensures SameContent(s.log, Step(s, w, c).log)
    ensures |Step(s, w, c).log| == |s.log| + (if s.ws[w].pc.EpochLoad? then 1 else 0)
    ensures s.ws[w].pc.EpochLoad? ==>
              var e := Step(s, w, c).log[|s.log|]; e.worker == w && AsksFor(e, s.ws[w].prog, s.ws[w].value)
  {
    hide MoveOf, SameContent;
    var u := s.ws[w];
    assert WorkerWf(|s.recs|, |s.ws|, w, u);
    AppendsWhen(s, w, u, c);
    AfterContent(s, w, MoveOf(s, w, u, c));
  }

  /**
   * Every entry of the log was made by its worker at its lock point, in a state j before, and has what that worker's
   * program asks for.
   */
  lemma {:induction false} EntryAsked(run: seq<State>, schedule: seq<Event>, i: nat, p: nat) returns (j: nat)
    requires IsRun(run, schedule) && i < |run| && p < |run[i].log|
    ensures j < i && |run[j].log| == p
    ensures var w := run[i].log[p].worker;
      && schedule[j].w == w < |run[j].ws| && run[j].ws[w].pc.EpochLoad?
      && AsksFor(run[i].log[p], run[j].ws[w].prog, run[j].ws[w].value)
  {
    hide Base, MoveOf, Follows, Legal, Step;
    assert i > 0;
    var e := schedule[i - 1];
    assert StepAt(run, schedule, i - 1);
    RunBase(run, schedule, i - 1);
    LegalWorker(run[i - 1], e);
    RunFollows(run, schedule, i - 1, e.w);
    EnterStep(run[i - 1], e.w, e.c);
    if p < |run[i - 1].log| {
      j := EntryAsked(run, schedule, i - 1, p);
    } else {
      j := i - 1;
    }
  }

  lemma LegalWorker(s: State, e: Event)
    requires Legal(s, e.w, e.c)
    ensures e.w < |s.ws|
  {
  }

  // ---- where programs come from and how they are left ----

  /** How a worker's program, and what it is to write, may change: only from the top of its loop, by the choice. */
  lemma ProgramMove(s: State, w: nat, u: Worker, c: Choice)
    ensures var u' := MoveOf(s, w, u, c).u;
      && (u.pc.Idle? ==> if c.quit then u'.pc.Stopped? else u'.pc.Retry? && u'.prog == c.prog && u'.value == c.value)
      && (!u.pc.Idle? ==> u'.prog == u.prog && u'.value == u.value)
      && (u'.pc.Stopped? <==> u.pc.Stopped? || (c.quit && (u.pc.Idle? || u.pc.Start?)))
      && (u'.pc.Idle? ==> u.pc.WriteRec? && u.pc.i >= |u.writeSet|)
  {
  }

  /** A worker's program and value are those chosen when it left the top of its loop last; retries keep them. */
  lemma {:induction false} ProgramGiven(run: seq<State>, schedule: seq<Event>, i: nat, w: nat) returns (j: nat)
    requires IsRun(run, schedule) && i < |run| && w < |run[i].ws|
    requires !run[i].ws[w].pc.Idle? && !run[i].ws[w].pc.Stopped?
    ensures j < i && schedule[j].w == w < |run[j].ws| && run[j].ws[w].pc.Idle? && !schedule[j].c.quit
    ensures run[i].ws[w].prog == schedule[j].c.prog && run[i].ws[w].value == schedule[j].c.value
    ensures forall m | j < m <= i :: w < |run[m].ws| && !run[m].ws[w].pc.Idle?
  {
    hide MoveOf;
    assert i > 0;
    var e := schedule[i - 1];
    assert StepAt(run, schedule, i - 1);
    if e.w == w {
      ProgramMove(run[i - 1], w, run[i - 1].ws[w], e.c);
    }
    if e.w == w && run[i - 1].ws[w].pc.Idle? {
      j := i - 1;
    } else {
      j := ProgramGiven(run, schedule, i - 1, w);
    }
  }

  /** A worker stops exactly when it finds quit set, at the top of its loop or before an attempt. */
  lemma StopsOnQuit(run: seq<State>, schedule: seq<Event>, i: nat)
    requires IsRun(run, schedule) && i < |schedule|
    ensures var w := schedule[i].w;
      && w < |run[i].ws| && w < |run[i + 1].ws|
      && (run[i + 1].ws[w].pc.Stopped? <==>
            || run[i].ws[w].pc.Stopped?
            || (schedule[i].c.quit && (run[i].ws[w].pc.Idle? || run[i].ws[w].pc.Start?)))
  {
    hide MoveOf;
    assert StepAt(run, schedule, i);
    ProgramMove(run[i], schedule[i].w, run[i].ws[schedule[i].w], schedule[i].c);
  }

  /** A worker is back at the top of its loop only when the transaction of its program has committed. */
  lemma LeftCommitted(run: seq<State>, schedule: seq<Event>, i: nat)
    requires IsRun(run, schedule) && i < |schedule| && schedule[i].w < |run[i + 1].ws|
    requires run[i + 1].ws[schedule[i].w].pc.Idle?
    ensures var w := schedule[i].w;
      && w < |run[i].ws|
      && var u := run[i].ws[w];
      && u.pos < |run[i + 1].log| && run[i + 1].log[u.pos].worker == w
      && run[i + 1].log[u.pos].status.Committed? && AsksFor(run[i + 1].log[u.pos], u.prog, u.value)
  {
    assert StepAt(run, schedule, i);
    RunBase(run, schedule, i);
    LegalWorker(run[i], schedule[i]);
    RunFollows(run, schedule, i, schedule[i].w);
    LeftStep(run[i], schedule[i].w, schedule[i].c);
  }

  lemma LeftStep(s: State, w: nat, c: Choice)
    requires Base(s) && Legal(s, w, c) && Follows(s.ws[w]) && Step(s, w, c).ws[w].pc.Idle?
    ensures var u, log := s.ws[w], Step(s, w, c).log;
      u.pos < |log| && log[u.pos].worker == w && log[u.pos].status.Committed? && AsksFor(log[u.pos], u.prog, u.value)
  {
    hide Writes, Reads, ReadsKey;
    var u := s.ws[w];
    ProgramMove(s, w, u, c);
    assert MoveWrite(s, u).eff == Quiet;
    assert WorkerWf(|s.recs|, |s.ws|, w, u) && EntryOk(w, u, s.log[u.pos]);
  }
}
