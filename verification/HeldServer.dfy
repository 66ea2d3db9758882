/** The node side of a held line: one allocation that claims, runs and records, and ends in time. */
module HeldServer {
  import opened Text
  import opened HeldSpool
  import Walltime

  /** The seconds added to a walltime before it is held against the time left. */
  const GRACE := 120.0

  /** The seconds between a SIGTERM and the first SIGKILL. */
  const KILL_AFTER := 60.0

  datatype Submission = Submission(handle: Handle, walltime: string)

  /** One turn of the polling loop: the clock, the process's status once it ended, and its tombstone. */
  datatype Tick = Tick(now: real, status: Option<int>, tombstoned: bool)

  datatype Signal = Term(at: real) | Kill(at: real)

  /** Actions that no server but another, or the center, takes. */
  predicate Foreign(actions: seq<Action>, id: ServerId) {
    forall i :: 0 <= i < |actions| ==> ForeignTo(actions[i], id)
  }

  predicate ForeignTo(a: Action, id: ServerId) {
    match a
    case Submit(_) => true
    case Cancel(_, _) => true
    case Fencing(_) => true
    case StopLine => true
    case Reopen => true
    case StopClaims(_) => true
    case StopBuries(_) => true
    case _ => a.server != id
  }

  /** The spool directory as everyone reaching the shared filesystem sees it. */
  class SharedSpool {
    var files: Spool
    ghost var trace: seq<Action>

    /** The files are what the whole history of actions made of an empty spool. */
    ghost predicate Valid()
      reads this
    {
      files == Run(EMPTY, trace)
    }

    constructor ()
      ensures Valid() && files == EMPTY && trace == []
    {
      files, trace := EMPTY, [];
    }

    /** Everything the other servers and the center do until this server's next step. */
    method Others(actions: seq<Action>, ghost id: ServerId)
      requires Valid() && Foreign(actions, id)
      modifies this
      ensures Valid() && trace == old(trace) + actions && files == Run(old(files), actions)
    {
      files := Run(files, actions);
      RunOn(EMPTY, trace, actions);
      trace := trace + actions;
    }

    /** The file effect of `action`, atomic on the shared filesystem. */
    method Take(action: Action)
      requires Valid()
      modifies this
      ensures Valid() && trace == old(trace) + [action] && files == Step(old(files), action)
    {
      files := Step(files, action);
      RunOn(EMPTY, trace, [action]);
      assert Run(old(files), [action]) == files;
      trace := trace + [action];
    }
  }

  /** Server `id` stands where it stood, and what it works on has the same exit and the same history. */
  ghost predicate Undisturbed(s: Spool, t: Spool, id: ServerId, h: Handle) {
    && id in s.servers && id in t.servers && t.servers[id] == s.servers[id]
    && (s.servers[id].Works(h) ==>
          && Executions(t.log, h) == Executions(s.log, h)
          && (h in t.exits) == (h in s.exits)
          && (h in s.exits ==> t.exits[h] == s.exits[h]))
  }

  lemma ForeignPlace(s: Spool, a: Action, id: ServerId)
    requires ForeignTo(a, id) && id in s.servers
    ensures id in Step(s, a).servers && Step(s, a).servers[id] == s.servers[id]
  {
  }

  lemma ForeignWork(s: Spool, a: Action, id: ServerId, h: Handle)
    requires ForeignTo(a, id) && Worked(s, id, h) && Kept(s, h)
    ensures Executions(Step(s, a).log, h) == Executions(s.log, h)
    ensures (h in Step(s, a).exits) == (h in s.exits) && (h in s.exits ==> Step(s, a).exits[h] == s.exits[h])
  {
    LoggedBy(s, a, h);
    ExitsBy(s, a, h);
    if a.Serve? || a.RunnerWrites? {
      assert !Worked(s, a.server, h);
    }
  }

  lemma ForeignStep(s: Spool, a: Action, id: ServerId, h: Handle)
    requires ForeignTo(a, id) && id in s.servers && Kept(s, h)
    ensures Undisturbed(s, Step(s, a), id, h)
  {
    ForeignPlace(s, a, id);
    if s.servers[id].Works(h) {
      ForeignWork(s, a, id, h);
    }
  }

  /** Whatever everyone else does, a server's own work is left alone. */
  lemma {:induction false} ForeignLeavesAlone(s: Spool, actions: seq<Action>, id: ServerId, h: Handle)
    requires Foreign(actions, id) && id in s.servers && Kept(s, h)
    ensures Undisturbed(s, Run(s, actions), id, h) && Kept(Run(s, actions), h)
    decreases |actions|
  {
    if actions != [] {
      assert ForeignTo(actions[0], id);
      ForeignStep(s, actions[0], id, h);
      StepKeeps(s, actions[0], h);
      ForeignLeavesAlone(Step(s, actions[0]), actions[1..], id, h);
    }
  }

  /** The last step of a work on `h`: its server is ready again, and the exit is the one that was there or its own status. */
  lemma EndingStep(s: Spool, id: ServerId, h: Handle)
    requires Kept(s, h) && Ends(s, id, h)
    ensures var t := Step(s, Serve(id));
            && Kept(t, h) && id in t.servers && t.servers[id] == Ready
            && Completions(t.log, h) == 1 && Executions(t.log, h) == Executions(s.log, h)
            && h in t.claims && t.claims[h] == Owned(id) && h in t.exits
            && t.exits[h] == if s.servers[id].Writing? then s.servers[id].status else s.exits[h]
  {
    SpoolOnlyGrows(s, Serve(id), h);
    StepKeeps(s, Serve(id), h);
    LoggedBy(s, Serve(id), h);
    assert Worked(s, id, h);
  }

  /** The look that finds no exit artifact. */
  lemma LookingStep(s: Spool, id: ServerId, h: Handle)
    requires Kept(s, h) && Worked(s, id, h) && s.servers[id].Recording? && h !in s.exits
    ensures var t := Step(s, Serve(id));
            && Kept(t, h) && id in t.servers && t.servers[id] == Writing(h, s.servers[id].status)
            && Executions(t.log, h) == Executions(s.log, h)
  {
    StepKeeps(s, Serve(id), h);
    LoggedBy(s, Serve(id), h);
  }

  /** The walltime decodes, and with the grace added is no more than `remaining`. */
  predicate Fits(entry: Submission, remaining: real) {
    Walltime.Seconds(entry.walltime).Some? && Walltime.Seconds(entry.walltime).value as real + GRACE <= remaining
  }

  class Server {
    const id: ServerId
    const spool: SharedSpool
    const ends: real
    const deadline: real
    var running: Option<Handle>

    constructor (id: ServerId, spool: SharedSpool, ends: real, deadline: real)
      ensures this.id == id && this.spool == spool && this.ends == ends && this.deadline == deadline
      ensures running == None
    {
      this.id, this.spool, this.ends, this.deadline, running := id, spool, ends, deadline, None;
    }

    /** The time to the earlier of the two ends, negative past it. */
    function Usable(now: real): real {
      (if ends < deadline then ends else deadline) - now
    }

    /** Started at `now`, the job's walltime and two minutes more are over by the allocation's end and by the line's deadline. */
    ghost predicate EndsInTime(entry: Submission, now: real) {
      match Walltime.Seconds(entry.walltime)
      case None => false
      case Some(seconds) => now + seconds as real + 120.0 <= ends && now + seconds as real + 120.0 <= deadline
    }

    lemma FitsIsInTime(queued: seq<Submission>, now: real)
      ensures forall i :: 0 <= i < |queued| ==> (Fits(queued[i], Usable(now)) <==> EndsInTime(queued[i], now))
    {
    }

    /** Whether nothing more may start: the line was released, or the grace is all the time there is. */
    predicate Finished(stopped: bool, now: real) {
      stopped || Usable(now) <= GRACE
    }

    /** That is when two minutes from now are the allocation's end or the line's deadline, or past one; no job that takes any time would end in time then. */
    lemma FinishedExactly(stopped: bool, now: real)
      ensures Finished(stopped, now) <==> stopped || now + 120.0 >= ends || now + 120.0 >= deadline
      ensures Finished(stopped, now) && !stopped ==> forall entry :: EndsInTime(entry, now) ==> Walltime.Seconds(entry.walltime) == Some(0)
    {
    }

    /** The first entry of the queue that fits, read in its order. */
    method Next(queued: seq<Submission>, now: real) returns (entry: Option<Submission>)
      ensures entry.Some? ==> exists i ::
                && 0 <= i < |queued| && entry == Some(queued[i]) && EndsInTime(queued[i], now)
                && forall j :: 0 <= j < i ==> !EndsInTime(queued[j], now)
      ensures entry.None? ==> forall j :: 0 <= j < |queued| ==> !EndsInTime(queued[j], now)
    {
      FitsIsInTime(queued, now);
      for i := 0 to |queued|
        invariant forall j :: 0 <= j < i ==> !Fits(queued[j], Usable(now))
      {
        if Fits(queued[i], Usable(now)) {
          return Some(queued[i]);
        }
      }
      return None;
    }

    /** A turn of the poll that gives cause to end the job: its tombstone, or no time left. */
    predicate Cause(tick: Tick) {
      tick.tombstoned || Usable(tick.now) <= 0.0
    }

    /** The turns before the one that finds the process over. */
    function Polled(ticks: seq<Tick>): (polled: seq<Tick>)
      ensures polled <= ticks && (forall i :: 0 <= i < |polled| ==> ticks[i].status.None?)
      ensures |polled| < |ticks| ==> ticks[|polled|].status.Some?
    {
      if ticks == [] || ticks[0].status.Some? then [] else [ticks[0]] + Polled(ticks[1..])
    }

    /** The first of `polled` that gives cause, their number when none does. */
    function FirstCause(polled: seq<Tick>): (first: nat)
      ensures first <= |polled| && (forall i :: 0 <= i < first ==> !Cause(polled[i]))
      ensures first < |polled| ==> Cause(polled[first])
    {
      if polled == [] || Cause(polled[0]) then 0 else 1 + FirstCause(polled[1..])
    }

    /** The SIGKILLs of the turns after a SIGTERM at `since`: one at each that is more than a minute later. */
    function Kills(polled: seq<Tick>, since: real): (kills: seq<Signal>)
      ensures forall k :: 0 <= k < |kills| ==> kills[k].Kill? && kills[k].at - since > KILL_AFTER
    {
      if polled == [] then []
      else
        var last := polled[|polled| - 1];
        Kills(polled[..|polled| - 1], since) + if last.now - since > KILL_AFTER then [Kill(last.now)] else []
    }

    /** Everything sent over `polled`: nothing without cause, else one SIGTERM at the first cause and the SIGKILLs after it. */
    function Sent(polled: seq<Tick>): seq<Signal> {
      var first := FirstCause(polled);
      if first == |polled| then [] else [Term(polled[first].now)] + Kills(polled[first + 1..], polled[first].now)
    }

    lemma {:induction false} FirstCauseOfMore(polled: seq<Tick>, tick: Tick)
      ensures FirstCause(polled + [tick])
           == if FirstCause(polled) < |polled| then FirstCause(polled) else if Cause(tick) then |polled| else |polled| + 1
    {
      if polled == [] {
        assert [] + [tick] == [tick] && [tick][1..] == [];
      } else {
        assert (polled + [tick])[1..] == polled[1..] + [tick];
        FirstCauseOfMore(polled[1..], tick);
      }
    }

    lemma KillsOfMore(polled: seq<Tick>, tick: Tick, since: real)
      ensures Kills(polled + [tick], since) == Kills(polled, since) + if tick.now - since > KILL_AFTER then [Kill(tick.now)] else []
    {
      assert (polled + [tick])[..|polled|] == polled;
    }

    lemma SentOfMore(polled: seq<Tick>, tick: Tick)
      ensures Sent(polled + [tick])
           == Sent(polled) + if Sent(polled) == [] then (if Cause(tick) then [Term(tick.now)] else [])
                             else if tick.now - Sent(polled)[0].at > KILL_AFTER then [Kill(tick.now)] else []
    {
      hide FirstCause, Cause, Kills;
      var first, all := FirstCause(polled), polled + [tick];
      FirstCauseOfMore(polled, tick);
      if first < |polled| {
        var since, rest := polled[first].now, polled[first + 1..];
        assert all[first + 1..] == rest + [tick] && all[first] == polled[first];
        KillsOfMore(rest, tick, since);
        assert Sent(polled) == [Term(since)] + Kills(rest, since);
        assert Sent(all) == [Term(since)] + Kills(rest + [tick], since);
      } else if Cause(tick) {
        assert all[|polled| + 1..] == [] && all[|polled|] == tick;
        NoKills(tick.now);
      }
    }

    lemma NoKills(since: real)
      ensures Kills([], since) == []
    {
    }

    lemma {:induction false} PolledUntil(ticks: seq<Tick>, i: nat)
      requires i <= |ticks| && forall j :: 0 <= j < i ==> ticks[j].status.None?
      requires i < |ticks| ==> ticks[i].status.Some?
      ensures Polled(ticks) == ticks[..i]
    {
      if i > 0 {
        PolledUntil(ticks[1..], i - 1);
        assert ticks[..i] == [ticks[0]] + ticks[1..][..i - 1];
      }
    }

    /** Polls the job's process over `ticks`; None when the allocation dies before the process does. */
    method Execute(ticks: seq<Tick>) returns (status: Option<int>, signals: seq<Signal>)
      requires forall i :: 0 <= i < |ticks| ==> ticks[i].now > 0.0
      ensures signals == Sent(Polled(ticks))
      ensures status == if |Polled(ticks)| < |ticks| then ticks[|Polled(ticks)|].status else None
    {
      hide Sent, Polled;
      signals := [];
      var terminated := 0.0;
      SentAtTheFirstCause([]);
      for i := 0 to |ticks|
        invariant signals == Sent(ticks[..i])
        invariant terminated == if signals == [] then 0.0 else signals[0].at
        invariant signals != [] ==> terminated > 0.0
        invariant forall j :: 0 <= j < i ==> ticks[j].status.None?
      {
        if ticks[i].status.Some? {
          PolledUntil(ticks, i);
          return ticks[i].status, signals;
        }
        SentOfMore(ticks[..i], ticks[i]);
        assert ticks[..i + 1] == ticks[..i] + [ticks[i]] && signals + [] == signals;
        if terminated == 0.0 && (ticks[i].tombstoned || Usable(ticks[i].now) <= 0.0) {
          terminated := ticks[i].now;
          signals := signals + [Term(ticks[i].now)];
        } else if terminated != 0.0 && ticks[i].now - terminated > KILL_AFTER {
          signals := signals + [Kill(ticks[i].now)];
        }
      }
      PolledUntil(ticks, |ticks|);
      assert ticks[..|ticks|] == ticks;
      return None, signals;
    }

    /** What goes out, and when: nothing exactly when no turn gives cause, else one SIGTERM at the first turn that does. */
    lemma SentAtTheFirstCause(polled: seq<Tick>)
      ensures Sent(polled) == [] <==> forall i :: 0 <= i < |polled| ==> !MustEnd(polled[i])
      ensures Sent(polled) != [] ==>
                exists i :: 0 <= i < |polled| && MustEnd(polled[i]) && Sent(polled)[0] == Term(polled[i].now)
                            && forall j :: 0 <= j < i ==> !MustEnd(polled[j])
      ensures forall k :: 0 < k < |Sent(polled)| ==> Sent(polled)[k].Kill? && Sent(polled)[k].at - Sent(polled)[0].at > 60.0
    {
      assert forall i :: 0 <= i < |polled| ==> (Cause(polled[i]) <==> MustEnd(polled[i]));
    }

    /** The job was cancelled, or the allocation's end or the line's deadline has come. */
    ghost predicate MustEnd(tick: Tick) {
      tick.tombstoned || ends <= tick.now || deadline <= tick.now
    }

    /** Every turn more than a minute after the SIGTERM sends a SIGKILL. */
    lemma KilledEachTurn(polled: seq<Tick>, i: nat, j: nat)
      requires i < j < |polled| && MustEnd(polled[i]) && (forall k :: 0 <= k < i ==> !MustEnd(polled[k]))
      requires polled[j].now - polled[i].now > 60.0
      ensures Kill(polled[j].now) in Sent(polled)
    {
      hide Kills, FirstCause, MustEnd;
      FirstMust(polled, i);
      assert polled[i + 1..][j - i - 1] == polled[j];
      KillsEach(polled[i + 1..], j - i - 1, polled[i].now);
    }

    lemma FirstMust(polled: seq<Tick>, i: nat)
      requires i < |polled| && MustEnd(polled[i]) && (forall k :: 0 <= k < i ==> !MustEnd(polled[k]))
      ensures FirstCause(polled) == i
    {
      hide FirstCause;
      assert forall k :: 0 <= k < |polled| ==> (Cause(polled[k]) <==> MustEnd(polled[k]));
      hide MustEnd, Cause;
      var first := FirstCause(polled);
      assert first < |polled| ==> Cause(polled[first]);
    }

    lemma {:induction false} KillsEach(polled: seq<Tick>, j: nat, since: real)
      requires j < |polled| && polled[j].now - since > 60.0
      ensures Kill(polled[j].now) in Kills(polled, since)
    {
      if j < |polled| - 1 {
        KillsEach(polled[..|polled| - 1], j, since);
      }
    }

    /** A job that fitted when it was picked, and has no tombstone, is sent nothing before its walltime and its grace are over. */
    lemma KilledOnlyPastItsPromise(entry: Submission, picked: real, polled: seq<Tick>, k: nat)
      requires EndsInTime(entry, picked) && k < |Sent(polled)|
      requires forall i :: 0 <= i < |polled| ==> !polled[i].tombstoned
      ensures Sent(polled)[k].at >= picked + Walltime.Seconds(entry.walltime).value as real + 120.0
    {
      hide Sent;
      SentAtTheFirstCause(polled);
    }

    /** This server's place among the spool's servers. */
    ghost predicate At(place: Serving)
      reads spool
    {
      id in spool.files.servers && spool.files.servers[id] == place
    }

    method Yield(h: Handle, actions: seq<Action>)
      requires spool.Valid() && Kept(spool.files, h) && id in spool.files.servers && Foreign(actions, id)
      modifies spool
      ensures spool.Valid() && Kept(spool.files, h) && Undisturbed(old(spool.files), spool.files, id, h)
      ensures old(spool.trace) <= spool.trace
    {
      spool.Others(actions, id);
      ForeignLeavesAlone(old(spool.files), actions, id, h);
    }

    /** The link that takes `h`; it fails when anyone took it before. */
    method Claim(h: Handle) returns (won: bool)
      requires spool.Valid() && Kept(spool.files, h) && At(Picked(h))
      modifies spool
      ensures spool.Valid() && Kept(spool.files, h) && old(spool.trace) <= spool.trace
      ensures won == (h !in old(spool.files).claims) && At(if won then Won(h) else Ready) && h in spool.files.claims
    {
      won := h !in spool.files.claims;
      StepKeeps(spool.files, Serve(id), h);
      spool.Take(Serve(id));
    }

    /** Looks for a tombstone before anything of `h` runs. */
    method Tombstoned(h: Handle) returns (cancelled: bool)
      requires spool.Valid() && Kept(spool.files, h) && At(Won(h))
      modifies spool
      ensures spool.Valid() && Kept(spool.files, h) && old(spool.trace) <= spool.trace
      ensures cancelled == (h in old(spool.files).cancel)
      ensures At(if cancelled then Recording(h, TERMINATED) else Cleared(h))
      ensures Executions(spool.files.log, h) == 0 && h !in spool.files.exits
    {
      cancelled := h in spool.files.cancel;
      assert Worked(spool.files, id, h) && Early(spool.files, id);
      StepKeeps(spool.files, Serve(id), h);
      LoggedBy(spool.files, Serve(id), h);
      spool.Take(Serve(id));
    }

    method Start(h: Handle)
      requires spool.Valid() && Kept(spool.files, h) && At(Cleared(h))
      modifies spool
      ensures spool.Valid() && Kept(spool.files, h) && old(spool.trace) <= spool.trace
      ensures At(Running(h)) && Executions(spool.files.log, h) == 1 && h !in spool.files.exits
    {
      assert Worked(spool.files, id, h) && Early(spool.files, id);
      StepKeeps(spool.files, Serve(id), h);
      LoggedBy(spool.files, Serve(id), h);
      spool.Take(Serve(id));
    }

    /** The job's own runner leaves its exit artifact. */
    method RunnerLeaves(h: Handle, exit: int)
      requires spool.Valid() && Kept(spool.files, h) && At(Running(h))
      modifies spool
      ensures spool.Valid() && Kept(spool.files, h) && old(spool.trace) <= spool.trace && At(Running(h))
      ensures h in spool.files.exits && spool.files.exits[h] == exit && spool.files.log == old(spool.files).log
    {
      StepKeeps(spool.files, RunnerWrites(id, exit), h);
      spool.Take(RunnerWrites(id, exit));
    }

    method Reap(h: Handle, status: int)
      requires spool.Valid() && Kept(spool.files, h) && At(Running(h))
      modifies spool
      ensures spool.Valid() && Kept(spool.files, h) && old(spool.trace) <= spool.trace && At(Recording(h, status))
      ensures spool.files.exits == old(spool.files).exits && spool.files.log == old(spool.files).log
    {
      StepKeeps(spool.files, ProcessEnds(id, status), h);
      spool.Take(ProcessEnds(id, status));
    }

    /** Looks for the runner's exit and, finding none, writes the status after everyone else had a turn. */
    method Record(h: Handle, status: int, others: seq<Action>)
      requires spool.Valid() && Kept(spool.files, h) && At(Recording(h, status)) && Foreign(others, id)
      modifies spool
      ensures spool.Valid() && Kept(spool.files, h) && At(Ready) && old(spool.trace) <= spool.trace
      ensures Completions(spool.files.log, h) == 1 && Executions(spool.files.log, h) == Executions(old(spool.files).log, h)
      ensures h in spool.files.claims && spool.files.claims[h] == Owned(id) && h in spool.files.exits
      ensures spool.files.exits[h] == if h in old(spool.files).exits then old(spool.files).exits[h] else status
    {
      hide Step, Kept;
      if h in spool.files.exits {
        EndingStep(spool.files, id, h);
        spool.Take(Serve(id));
      } else {
        LookingStep(spool.files, id, h);
        spool.Take(Serve(id));
        Yield(h, others);
        EndingStep(spool.files, id, h);
        spool.Take(Serve(id));
      }
    }

    /** Runs the script of `h`, whose runner leaves `left` when it leaves an exit of its own. */
    method RunScript(h: Handle, others: seq<Action>, status: int, left: Option<int>)
      requires spool.Valid() && Kept(spool.files, h) && At(Cleared(h)) && Foreign(others, id)
      modifies spool
      ensures spool.Valid() && Kept(spool.files, h) && At(Recording(h, status)) && old(spool.trace) <= spool.trace
      ensures Executions(spool.files.log, h) == 1
      ensures h in spool.files.exits <==> left.Some?
      ensures left.Some? ==> spool.files.exits[h] == left.value
    {
      Start(h);
      Yield(h, others);
      if left.Some? {
        RunnerLeaves(h, left.value);
      }
      Reap(h, status);
    }

    /** What became of a claimed `h`: ended unrun on its tombstone, or run to its runner's exit or its process's status. */
    ghost predicate Settled(h: Handle, status: int, left: Option<int>)
      reads spool
    {
      && h in spool.files.claims && spool.files.claims[h] == Owned(id)
      && h in spool.files.exits && Completions(spool.files.log, h) == 1
      && spool.files.exits[h] ==
           if Executions(spool.files.log, h) == 0 then TERMINATED
           else if left.Some? then left.value else status
    }

    /** Runs a claimed `h` with no tombstone to its exit artifact. */
    method RunToExit(h: Handle, others: nat -> seq<Action>, status: int, left: Option<int>)
      requires spool.Valid() && Kept(spool.files, h) && At(Cleared(h))
      requires forall k :: Foreign(others(k), id)
      modifies spool
      ensures spool.Valid() && old(spool.trace) <= spool.trace && At(Ready) && Settled(h, status, left)
    {
      hide Kept, Foreign, Run;
      RunScript(h, others(3), status, left);
      Yield(h, others(4));
      Record(h, status, others(5));
    }

    /** Carries a claim just won to its end. */
    method Carry(h: Handle, others: nat -> seq<Action>, status: int, left: Option<int>)
      requires spool.Valid() && Kept(spool.files, h) && At(Won(h))
      requires forall k :: Foreign(others(k), id)
      modifies spool
      ensures spool.Valid() && old(spool.trace) <= spool.trace && At(Ready) && Settled(h, status, left)
    {
      hide Kept, Foreign, Run;
      Yield(h, others(1));
      var cancelled := Tombstoned(h);
      Yield(h, others(2));
      if cancelled {
        Record(h, TERMINATED, others(3));
      } else {
        RunToExit(h, others, status, left);
      }
    }

    /**
     Claims `h` and runs it to an exit artifact, or leaves it to whoever claimed it first.

     others: what everyone else does before this server's k-th step.
     status: what its process ends with, should it come to run.
     left: the exit its runner wrote, if it came to write one.
     */
    method Work(h: Handle, others: nat -> seq<Action>, status: int, left: Option<int>) returns (won: bool)
      requires spool.Valid() && At(Picked(h))
      requires forall k :: Foreign(others(k), id)
      modifies this, spool
      ensures spool.Valid() && old(spool.trace) <= spool.trace && At(Ready) && running == None
      ensures won ==> Settled(h, status, left)
      ensures !won ==> h in spool.files.claims
    {
      hide Foreign, Run;
      RunKeeps(EMPTY, spool.trace, h);
      Yield(h, others(0));
      won := Claim(h);
      running := None;
      if won {
        running := Some(h);
        Carry(h, others, status, left);
        running := None;
      }
    }
  }
}
