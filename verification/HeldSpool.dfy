/**
 The jobs of a held line: submissions, claims, tombstones and exit artifacts in one spool, taken by
 any number of allocations (`host serve`) while the center cancels and releases.

 Each action is one atomic file effect: a claim is a link, of which one can be made, a
 tombstone and an exit are files. Servers, cancels and releases interleave freely and a server may
 be killed between any two of its steps. A disabled action changes nothing.
 */
module HeldSpool {
  import opened Text

  /** The exit of a job ended unrun: 128 and the number of SIGTERM. */
  const TERMINATED := 143

  type Handle = nat
  type ServerId = nat
  type CancelId = nat

  /** Who owns a submission: the center's cancelled claim, or the allocation that took it. */
  datatype Claim = Cancelled | Owned(server: ServerId)

  /** The next thing a server does. */
  datatype Serving =
    | Ready                                  // about to ask whether anything more may start
    | Looking                                // the line was not released, about to look at the queue
    | Picked(handle: Handle)                 // saw it queued, about to link its claim
    | Won(handle: Handle)                    // its claim is the one, about to look for a tombstone
    | Cleared(handle: Handle)                // no tombstone, about to start the script
    | Running(handle: Handle)                // the script's process is alive
    | Recording(handle: Handle, status: int) // about to look for the runner's exit artifact
    | Writing(handle: Handle, status: int)   // there was none, about to leave one
    | Gone                                   // it ended, or was killed with no script running
    | Orphaned(handle: Handle)               // it was killed under a running script
  {
    /** The server holds `h` by the claim it won. */
    predicate Works(h: Handle) {
      !Ready? && !Looking? && !Picked? && !Gone? && handle == h
    }

    /** The script of `h` was started, or will be at the next step. */
    predicate Starts(h: Handle) {
      (Cleared? || Running? || Orphaned?) && handle == h
    }
  }

  /** The three words a cancel may answer. */
  datatype Fence = Exited | Fenced | Claimed

  datatype Cancelling =
    | AtExit(handle: Handle)       // about to look for an exit artifact
    | AtTombstone(handle: Handle)  // about to write the tombstone
    | AtClaim(handle: Handle)      // about to link the cancelled claim
    | Answered(handle: Handle, fence: Fence)

  datatype Event =
    | Took(server: ServerId, handle: Handle)
    | Executed(server: ServerId, handle: Handle)
    | Completed(server: ServerId, handle: Handle)

  /** owed: the entries a release fenced whose tombstone it has still to write. */
  datatype Spool = Spool(
    inbox: set<Handle>,
    claims: map<Handle, Claim>,
    cancel: set<Handle>,
    exits: map<Handle, int>,
    stopped: bool,
    servers: map<ServerId, Serving>,
    cancels: map<CancelId, Cancelling>,
    owed: set<Handle>,
    log: seq<Event>)

  datatype Action =
    | Submit(handle: Handle)
    | Open(server: ServerId)                       // an allocation starts serving
    | Look(server: ServerId, late: bool)           // `finished` asks whether the line was released or no time is left
    | Pick(server: ServerId, handle: Handle)       // `next` answered this entry
    | Rest(server: ServerId)                       // `next` answered none
    | Serve(server: ServerId)                      // the next step of `work`
    | RunnerWrites(server: ServerId, status: int)  // the job script's runner leaves its own exit
    | ProcessEnds(server: ServerId, status: int)
    | KillServer(server: ServerId)
    | Cancel(id: CancelId, handle: Handle)         // `fence` begins
    | Fencing(id: CancelId)                        // its next step
    | StopLine                                     // `: > stop`
    | Reopen                                       // the line is held again: `rm -f stop`
    | StopClaims(handle: Handle)                   // release links a cancelled claim
    | StopBuries(handle: Handle)                   // and then writes its tombstone

  const EMPTY := Spool({}, map[], {}, map[], false, map[], map[], {}, [])

  /** `Spool.queued` lists it: submitted, unclaimed and without a tombstone. */
  predicate Queued(s: Spool, h: Handle) {
    h in s.inbox && h !in s.claims && h !in s.cancel
  }

  /** A server after its next step of `Server.work`, by what the spool says now. */
  function Next(s: Spool, place: Serving): Serving {
    match place
    case Picked(h) => if h in s.claims then Ready else Won(h)
    case Won(h) => if h in s.cancel then Recording(h, TERMINATED) else Cleared(h)
    case Cleared(h) => Running(h)
    case Recording(h, status) => if h in s.exits then Ready else Writing(h, status)
    case Writing(h, status) => Ready
    case _ => place
  }

  /** What that step says it did. */
  function Said(s: Spool, id: ServerId, place: Serving): seq<Event> {
    match place
    case Picked(h) => if h in s.claims then [] else [Took(id, h)]
    case Cleared(h) => [Executed(id, h)]
    case Recording(h, status) => if h in s.exits then [Completed(id, h)] else []
    case Writing(h, status) => [Completed(id, h)]
    case _ => []
  }

  function ClaimsAfter(s: Spool, id: ServerId, place: Serving): map<Handle, Claim> {
    if place.Picked? && place.handle !in s.claims then s.claims[place.handle := Owned(id)] else s.claims
  }

  function ExitsAfter(s: Spool, place: Serving): map<Handle, int> {
    if place.Writing? then s.exits[place.handle := place.status] else s.exits
  }

  /** The next step of `Server.work` over the spool. */
  function Served(s: Spool, id: ServerId): Spool
    requires id in s.servers
  {
    var place := s.servers[id];
    s.(claims := ClaimsAfter(s, id, place), exits := ExitsAfter(s, place),
       servers := s.servers[id := Next(s, place)], log := s.log + Said(s, id, place))
  }

  /** A cancel after its next step of `Remote.fence`, by what the spool says now. */
  function FenceNext(s: Spool, c: Cancelling): Cancelling {
    match c
    case AtExit(h) => if h in s.exits then Answered(h, Exited) else AtTombstone(h)
    case AtTombstone(h) => AtClaim(h)
    case AtClaim(h) => Answered(h, if h in s.claims then Claimed else Fenced)
    case Answered(_, _) => c
  }

  function TombstonesAfter(s: Spool, c: Cancelling): set<Handle> {
    if c.AtTombstone? then s.cancel + {c.handle} else s.cancel
  }

  /** The link that takes an entry for the center; it fails when anyone took it before. */
  function CancelledClaims(s: Spool, h: Handle): map<Handle, Claim> {
    if h in s.claims then s.claims else s.claims[h := Cancelled]
  }

  /** The next step of `Remote.fence` over the spool. */
  function FenceStep(s: Spool, id: CancelId): Spool
    requires id in s.cancels
  {
    var c := s.cancels[id];
    s.(cancel := TombstonesAfter(s, c), claims := if c.AtClaim? then CancelledClaims(s, c.handle) else s.claims,
       cancels := s.cancels[id := FenceNext(s, c)])
  }

  function Step(s: Spool, a: Action): Spool {
    match a
    case Submit(h) => s.(inbox := s.inbox + {h})
    case Open(id) => if id in s.servers then s else s.(servers := s.servers[id := Ready])
    case Look(id, late) =>
      if id in s.servers && s.servers[id].Ready?
      then s.(servers := s.servers[id := if s.stopped || late then Gone else Looking]) else s
    case Pick(id, h) =>
      if id in s.servers && s.servers[id].Looking? && Queued(s, h)
      then s.(servers := s.servers[id := Picked(h)]) else s
    case Rest(id) =>
      if id in s.servers && s.servers[id].Looking? then s.(servers := s.servers[id := Ready]) else s
    case Serve(id) => if id in s.servers then Served(s, id) else s
    case RunnerWrites(id, status) =>
      if id in s.servers && (s.servers[id].Running? || s.servers[id].Orphaned?)
      then s.(exits := s.exits[s.servers[id].handle := status]) else s
    case ProcessEnds(id, status) =>
      if id in s.servers && s.servers[id].Running?
      then s.(servers := s.servers[id := Recording(s.servers[id].handle, status)]) else s
    case KillServer(id) =>
      if id !in s.servers || s.servers[id].Orphaned? then s
      else s.(servers := s.servers[id := if s.servers[id].Running? then Orphaned(s.servers[id].handle) else Gone])
    case Cancel(id, h) => if id in s.cancels then s else s.(cancels := s.cancels[id := AtExit(h)])
    case Fencing(id) => if id in s.cancels then FenceStep(s, id) else s
    case StopLine => s.(stopped := true)
    case Reopen => s.(stopped := false)
    case StopClaims(h) =>
      if s.stopped && h in s.inbox && h !in s.claims
      then s.(claims := CancelledClaims(s, h), owed := s.owed + {h}) else s
    case StopBuries(h) => if h in s.owed then s.(cancel := s.cancel + {h}) else s
  }

  function Run(s: Spool, actions: seq<Action>): Spool
    decreases |actions|
  {
    if actions == [] then s else Run(Step(s, actions[0]), actions[1..])
  }

  /** How often the script of `h` was started. */
  function Executions(log: seq<Event>, h: Handle): nat {
    if log == [] then 0
    else
      var last := log[|log| - 1];
      Executions(log[..|log| - 1], h) + if last.Executed? && last.handle == h then 1 else 0
  }

  /** How often a `work` on `h` ran to its end. */
  function Completions(log: seq<Event>, h: Handle): nat {
    if log == [] then 0
    else
      var last := log[|log| - 1];
      Completions(log[..|log| - 1], h) + if last.Completed? && last.handle == h then 1 else 0
  }

  /** How many submissions server `id` claimed. */
  function Takings(log: seq<Event>, id: ServerId): nat {
    if log == [] then 0
    else
      var last := log[|log| - 1];
      Takings(log[..|log| - 1], id) + if last.Took? && last.server == id then 1 else 0
  }

  lemma CountAppend(log: seq<Event>, event: Event, h: Handle)
    ensures Executions(log + [event], h) == Executions(log, h) + if event.Executed? && event.handle == h then 1 else 0
    ensures Completions(log + [event], h) == Completions(log, h) + if event.Completed? && event.handle == h then 1 else 0
  {
    assert (log + [event])[..|log|] == log;
  }

  predicate Worked(s: Spool, id: ServerId, h: Handle) {
    id in s.servers && s.servers[id].Works(h)
  }

  predicate Started(s: Spool, id: ServerId, h: Handle) {
    id in s.servers && s.servers[id].Starts(h)
  }

  // ---- What every step keeps, one handle at a time ----

  /**
   The state of one handle.

   A server at work on it owns its claim, so there is one at most. Its script was started at most
   once, and not while the claim is missing, is the center's, or its owner has not got that far, and
   an exit artifact is not there before that either. Its `work` ends at most once, leaves an exit
   artifact, and then nobody is at work on it.
   */
  ghost predicate Kept(s: Spool, h: Handle) {
    && (forall id :: Worked(s, id, h) ==> h in s.claims && s.claims[h] == Owned(id))
    && Executions(s.log, h) <= 1
    && Completions(s.log, h) <= 1
    && (h !in s.claims || s.claims[h].Cancelled? ==> Executions(s.log, h) == 0 && Completions(s.log, h) == 0)
    && (forall id :: Worked(s, id, h) ==> Completions(s.log, h) == 0)
    && (forall id :: Worked(s, id, h) && Early(s, id) ==> Executions(s.log, h) == 0)
    && (Completions(s.log, h) > 0 ==> h in s.exits)
    && (h in s.exits ==> h in s.claims && s.claims[h].Owned?)
    && (forall id :: Worked(s, id, h) && Early(s, id) ==> h !in s.exits)
  }

  /** A claim, a tombstone and an event stay; the link that makes a claim fails when there is one. */
  lemma SpoolOnlyGrows(s: Spool, a: Action, h: Handle)
    ensures h in s.claims ==> h in Step(s, a).claims && Step(s, a).claims[h] == s.claims[h]
    ensures h in s.cancel ==> h in Step(s, a).cancel
    ensures h in s.exits ==> h in Step(s, a).exits
    ensures s.log <= Step(s, a).log
  {
    hide Next, Said, FenceNext;
  }

  /** Server `id` has not started the script it holds. */
  predicate Early(s: Spool, id: ServerId) {
    id in s.servers && (s.servers[id].Won? || s.servers[id].Cleared?)
  }

  /** A step that starts a script leaves its server running it, one that ends a work leaves it ready. */
  lemma ServedMoves(s: Spool, id: ServerId, h: Handle)
    ensures Ends(s, id, h) ==> !Worked(Step(s, Serve(id)), id, h)
    ensures id in s.servers && s.servers[id] == Cleared(h) ==> !Early(Step(s, Serve(id)), id)
  {
    hide ExitsAfter, Said, ClaimsAfter;
  }

  /** A server comes to be at work on `h` only by the claim that was not there before. */
  lemma WorksByClaiming(s: Spool, a: Action, id: ServerId, h: Handle)
    requires Worked(Step(s, a), id, h)
    ensures || (Worked(s, id, h) && (Early(Step(s, a), id) ==> Early(s, id)))
            || (h !in s.claims && h in Step(s, a).claims && Step(s, a).claims[h] == Owned(id)
                && Step(s, a).servers[id] == Won(h))
  {
    hide ExitsAfter, Said, FenceNext, TombstonesAfter, CancelledClaims;
  }

  /** What one step adds to the log: what the server that took it says. */
  function SaidBy(s: Spool, a: Action): seq<Event> {
    if a.Serve? && a.server in s.servers then Said(s, a.server, s.servers[a.server]) else []
  }

  lemma LogGrowsBy(s: Spool, a: Action)
    ensures Step(s, a).log == s.log + SaidBy(s, a) && |SaidBy(s, a)| <= 1
  {
    hide Next, ClaimsAfter, ExitsAfter, FenceNext, TombstonesAfter, CancelledClaims;
    assert s.log + [] == s.log;
  }

  /** What one step adds for `h`: a start by the cleared owner, or an end by an owner with its exit there. */
  lemma LoggedBy(s: Spool, a: Action, h: Handle)
    ensures Executions(Step(s, a).log, h) == Executions(s.log, h)
              + if a.Serve? && a.server in s.servers && s.servers[a.server] == Cleared(h) then 1 else 0
    ensures Completions(Step(s, a).log, h) == Completions(s.log, h)
              + if a.Serve? && Ends(s, a.server, h) then 1 else 0
  {
    hide Step, Executions, Completions;
    LogGrowsBy(s, a);
    var said := SaidBy(s, a);
    if said == [] {
      assert s.log + said == s.log;
    } else {
      assert said == [said[0]];
      CountAppend(s.log, said[0], h);
    }
  }

  /** The next step of server `id` ends its `work` on `h`. */
  predicate Ends(s: Spool, id: ServerId, h: Handle) {
    && Worked(s, id, h)
    && ((s.servers[id].Recording? && h in s.exits) || s.servers[id].Writing?)
  }

  /** Only a server that started the script of `h`, or is about to record, makes or changes its exit artifact. */
  lemma ExitsBy(s: Spool, a: Action, h: Handle)
    ensures || ((h in Step(s, a).exits) == (h in s.exits) && (h in s.exits ==> Step(s, a).exits[h] == s.exits[h]))
            || ((a.Serve? || a.RunnerWrites?) && Worked(s, a.server, h) && !Early(s, a.server) && !Early(Step(s, a), a.server))
  {
    hide Said, ClaimsAfter, FenceNext, TombstonesAfter, CancelledClaims;
  }

  lemma WorkedKeeps(s: Spool, a: Action, id: ServerId, h: Handle)
    requires Kept(s, h) && Worked(Step(s, a), id, h)
    ensures var t := Step(s, a);
            && h in t.claims && t.claims[h] == Owned(id)
            && Completions(t.log, h) == 0
            && (Early(t, id) ==> Executions(t.log, h) == 0 && h !in t.exits)
  {
    hide Step;
    ExitsBy(s, a, h);
    SpoolOnlyGrows(s, a, h);
    WorksByClaiming(s, a, id, h);
    LoggedBy(s, a, h);
    if a.Serve? && Worked(s, a.server, h) {
      ServedMoves(s, a.server, h);
    }
  }

  lemma CountsKeep(s: Spool, a: Action, h: Handle)
    requires Kept(s, h)
    ensures var t := Step(s, a);
            && Executions(t.log, h) <= 1
            && Completions(t.log, h) <= 1
            && (h !in t.claims || t.claims[h].Cancelled? ==> Executions(t.log, h) == 0 && Completions(t.log, h) == 0)
            && (Completions(t.log, h) > 0 ==> h in t.exits)
            && (h in t.exits ==> h in t.claims && t.claims[h].Owned?)
  {
    ExitsBy(s, a, h);
    SpoolOnlyGrows(s, a, h);
    LoggedBy(s, a, h);
    if a.Serve? && a.server in s.servers && s.servers[a.server].Works(h) {
      assert Worked(s, a.server, h);
    }
  }

  lemma StepKeeps(s: Spool, a: Action, h: Handle)
    requires Kept(s, h)
    ensures Kept(Step(s, a), h)
  {
    CountsKeep(s, a, h);
    forall id | Worked(Step(s, a), id, h)
      ensures var t := Step(s, a);
              && h in t.claims && t.claims[h] == Owned(id)
              && Completions(t.log, h) == 0
              && (Early(t, id) ==> Executions(t.log, h) == 0 && h !in t.exits)
    {
      WorkedKeeps(s, a, id, h);
    }
  }

  /** Every handle of every reachable spool, whatever interleaved. */
  lemma {:induction false} RunKeeps(s: Spool, actions: seq<Action>, h: Handle)
    requires Kept(s, h)
    ensures Kept(Run(s, actions), h)
    decreases |actions|
  {
    if actions != [] {
      StepKeeps(s, actions[0], h);
      RunKeeps(Step(s, actions[0]), actions[1..], h);
    }
  }

  /** Over any number of allocations sharing one spool, a submission is executed at most once. */
  lemma {:induction false} ExecutedAtMostOnce(actions: seq<Action>, h: Handle)
    ensures Executions(Run(EMPTY, actions).log, h) <= 1
    ensures Completions(Run(EMPTY, actions).log, h) <= 1
    ensures Completions(Run(EMPTY, actions).log, h) == 1 ==> h in Run(EMPTY, actions).exits
  {
    RunKeeps(EMPTY, actions, h);
  }

  // ---- A tombstone before the claim ----

  /** `h` has a tombstone and nobody has started, or is about to start, its script. */
  ghost predicate Doomed(s: Spool, h: Handle) {
    h in s.cancel && Executions(s.log, h) == 0 && forall id :: !Started(s, id, h)
  }

  lemma DoomedStep(s: Spool, a: Action, h: Handle)
    requires Doomed(s, h)
    ensures Doomed(Step(s, a), h)
  {
    SpoolOnlyGrows(s, a, h);
    LoggedBy(s, a, h);
    if a.Serve? {
      assert !Started(s, a.server, h);
    }
    forall id ensures !Started(Step(s, a), id, h) {
      assert !Started(s, id, h);
      StartsByClearing(s, a, id, h);
    }
  }

  lemma StartsByClearing(s: Spool, a: Action, id: ServerId, h: Handle)
    ensures Started(Step(s, a), id, h) ==> Started(s, id, h) || h !in s.cancel
  {
    hide Said, ClaimsAfter, ExitsAfter, FenceNext, TombstonesAfter, CancelledClaims;
  }

  lemma {:induction false} DoomedNeverRuns(s: Spool, actions: seq<Action>, h: Handle)
    requires Doomed(s, h)
    ensures Doomed(Run(s, actions), h)
    decreases |actions|
  {
    if actions != [] {
      DoomedStep(s, actions[0], h);
      DoomedNeverRuns(Step(s, actions[0]), actions[1..], h);
    }
  }

  /** A handle whose tombstone comes before any claim on it is never executed, before or after. */
  lemma {:induction false} TombstonedBeforeClaimNeverRuns(s: Spool, actions: seq<Action>, h: Handle)
    requires Kept(s, h) && h in s.cancel && h !in s.claims
    ensures Executions(Run(s, actions).log, h) == 0
  {
    forall id ensures !Started(s, id, h) {
      assert Worked(s, id, h) ==> h in s.claims;
    }
    DoomedNeverRuns(s, actions, h);
  }

  // ---- The exit artifact of a completed work ----

  /** Once a `work` on `h` ended, its exit artifact is there and no later step changes it. */
  lemma {:induction false} CompletedExitStands(s: Spool, actions: seq<Action>, h: Handle)
    requires Kept(s, h) && Completions(s.log, h) > 0
    ensures h in Run(s, actions).exits && Run(s, actions).exits[h] == s.exits[h]
    ensures Completions(Run(s, actions).log, h) == 1 && Executions(Run(s, actions).log, h) == Executions(s.log, h)
    decreases |actions|
  {
    if actions != [] {
      hide Step;
      var a := actions[0];
      StepKeeps(s, a, h);
      LoggedBy(s, a, h);
      ExitsBy(s, a, h);
      if a.Serve? || a.RunnerWrites? {
        assert !Worked(s, a.server, h);
      }
      CompletedExitStands(Step(s, a), actions[1..], h);
    }
  }

  // ---- What a cancel's answer means ----

  /** Some cancel of `h` answered that it fenced the entry. */
  ghost predicate FencedBefore(s: Spool, h: Handle) {
    exists id :: id in s.cancels && s.cancels[id] == Answered(h, Fenced)
  }

  /** What cancel `id` knows about its handle at the step it is at. */
  ghost predicate CancelHonest(s: Spool, id: CancelId)
    requires id in s.cancels
  {
    match s.cancels[id]
    case AtExit(_) => true
    case AtTombstone(_) => true
    case AtClaim(h) => h in s.cancel
    case Answered(h, Exited) => h in s.exits
    case Answered(h, Fenced) => h in s.cancel && h in s.claims && s.claims[h].Cancelled?
    case Answered(h, Claimed) => h in s.cancel && h in s.claims
  }

  /** The center's claims are exactly those a cancel answered for or a release made. */
  ghost predicate Fences(s: Spool) {
    && (forall id :: id in s.cancels ==> CancelHonest(s, id))
    && (forall h :: h in s.owed ==> h in s.claims && s.claims[h].Cancelled?)
    && (forall h :: h in s.claims && s.claims[h].Cancelled? ==> h in s.owed || FencedBefore(s, h))
  }

  lemma CancelStep(s: Spool, a: Action, id: CancelId)
    requires Fences(s) && id in Step(s, a).cancels
    ensures CancelHonest(Step(s, a), id)
  {
    if id in s.cancels {
      assert CancelHonest(s, id);
      if a == Fencing(id) {
        hide Next, Said, ClaimsAfter, ExitsAfter;
      } else {
        hide Step;
        SpoolOnlyGrows(s, a, s.cancels[id].handle);
        OthersLeaveACancel(s, a, id);
      }
    }
  }

  lemma OthersLeaveACancel(s: Spool, a: Action, id: CancelId)
    requires id in s.cancels && a != Fencing(id)
    ensures id in Step(s, a).cancels && Step(s, a).cancels[id] == s.cancels[id]
  {
    hide Next, Said, ClaimsAfter, ExitsAfter, FenceNext, TombstonesAfter, CancelledClaims;
  }

  lemma AnswerStays(s: Spool, a: Action, id: CancelId)
    requires id in s.cancels && s.cancels[id].Answered?
    ensures id in Step(s, a).cancels && Step(s, a).cancels[id] == s.cancels[id]
  {
    if a != Fencing(id) {
      OthersLeaveACancel(s, a, id);
    }
  }

  lemma CancelledBy(s: Spool, a: Action, h: Handle)
    requires Fences(s) && h in Step(s, a).claims && Step(s, a).claims[h].Cancelled?
    ensures h in Step(s, a).owed || FencedBefore(Step(s, a), h)
  {
    hide Next, Said, ExitsAfter, TombstonesAfter;
    if h in s.claims && h !in s.owed {
      hide Step;
      SpoolOnlyGrows(s, a, h);
      var id :| id in s.cancels && s.cancels[id] == Answered(h, Fenced);
      AnswerStays(s, a, id);
    } else if h !in s.claims && a.Fencing? {
      assert Step(s, a).cancels[a.id] == Answered(h, Fenced);
    }
  }

  lemma OwedStep(s: Spool, a: Action, h: Handle)
    requires Fences(s) && h in Step(s, a).owed
    ensures h in Step(s, a).claims && Step(s, a).claims[h].Cancelled?
  {
    SpoolOnlyGrows(s, a, h);
  }

  lemma {:induction false} RunKeepsFences(s: Spool, actions: seq<Action>)
    requires Fences(s)
    ensures Fences(Run(s, actions))
    decreases |actions|
  {
    if actions != [] {
      var a := actions[0];
      var t := Step(s, a);
      forall id | id in t.cancels ensures CancelHonest(t, id) { CancelStep(s, a, id); }
      forall h | h in t.owed ensures h in t.claims && t.claims[h].Cancelled? { OwedStep(s, a, h); }
      forall h | h in t.claims && t.claims[h].Cancelled? ensures h in t.owed || FencedBefore(t, h) {
        CancelledBy(s, a, h);
      }
      RunKeepsFences(t, actions[1..]);
    }
  }

  /** After a cancel answered `fenced`, the entry was never started before and is not in any run from there on. */
  lemma {:induction false} FencedNeverRuns(before: seq<Action>, after: seq<Action>, id: CancelId, h: Handle)
    requires var s := Run(EMPTY, before); id in s.cancels && s.cancels[id] == Answered(h, Fenced)
    ensures Executions(Run(Run(EMPTY, before), after).log, h) == 0
  {
    var s := Run(EMPTY, before);
    RunKeeps(EMPTY, before, h);
    RunKeepsFences(EMPTY, before);
    assert CancelHonest(s, id);
    forall server ensures !Started(s, server, h) {
      assert !Worked(s, server, h);
    }
    DoomedNeverRuns(s, after, h);
  }

  /** A cancel that answered `claimed` means an allocation owns the entry, exactly when no cancel or release had fenced it first. */
  lemma {:induction false} ClaimedMeansOwnedUnlessFenced(before: seq<Action>, id: CancelId, h: Handle)
    requires var s := Run(EMPTY, before); id in s.cancels && s.cancels[id] == Answered(h, Claimed)
    ensures var s := Run(EMPTY, before);
            && h in s.cancel && h in s.claims
            && (s.claims[h].Owned? <==> h !in s.owed && !FencedBefore(s, h))
  {
    var s := Run(EMPTY, before);
    RunKeepsFences(EMPTY, before);
    assert CancelHonest(s, id);
    if FencedBefore(s, h) {
      var other :| other in s.cancels && s.cancels[other] == Answered(h, Fenced);
      assert CancelHonest(s, other);
    }
  }

  /** The spool after one queued entry was cancelled. */
  const CANCELLED_ONCE :=
    Spool({7}, map[7 := Cancelled], {7}, map[], false, map[], map[0 := Answered(7, Fenced)], {}, [])

  lemma CancelOnce()
    ensures Run(EMPTY, [Submit(7), Cancel(0, 7), Fencing(0), Fencing(0), Fencing(0)]) == CANCELLED_ONCE
  {
    var queued := EMPTY.(inbox := {7});
    var asked := queued.(cancels := map[0 := AtExit(7)]);
    var buried := asked.(cancels := map[0 := AtClaim(7)], cancel := {7});
    assert Run(buried, [Fencing(0)]) == CANCELLED_ONCE;
    assert Run(asked, [Fencing(0), Fencing(0), Fencing(0)]) == CANCELLED_ONCE by {
      var looked := asked.(cancels := map[0 := AtTombstone(7)]);
      assert Step(asked, Fencing(0)) == looked && Step(looked, Fencing(0)) == buried;
      assert Run(looked, [Fencing(0), Fencing(0)]) == Run(buried, [Fencing(0)]);
    }
    assert Step(EMPTY, Submit(7)) == queued && Step(queued, Cancel(0, 7)) == asked;
    assert Run(queued, [Cancel(0, 7), Fencing(0), Fencing(0), Fencing(0)]) == CANCELLED_ONCE;
  }

  /** Cancelling the entry a second time answers `claimed`, though no allocation ever took it. */
  lemma SecondCancelAnswersClaimed()
    ensures var s := Run(CANCELLED_ONCE, [Cancel(1, 7), Fencing(1), Fencing(1), Fencing(1)]);
            1 in s.cancels && s.cancels[1] == Answered(7, Claimed) && s.claims == map[7 := Cancelled] && s.servers == map[]
  {
    var asked := CANCELLED_ONCE.(cancels := map[0 := Answered(7, Fenced), 1 := AtExit(7)]);
    var looked := asked.(cancels := map[0 := Answered(7, Fenced), 1 := AtTombstone(7)]);
    var buried := asked.(cancels := map[0 := Answered(7, Fenced), 1 := AtClaim(7)]);
    var answered := asked.(cancels := map[0 := Answered(7, Fenced), 1 := Answered(7, Claimed)]);
    assert Step(CANCELLED_ONCE, Cancel(1, 7)) == asked;
    assert Step(asked, Fencing(1)) == looked;
    assert Step(looked, Fencing(1)) == buried by { assert {7} + {7} == {7}; }
    assert Step(buried, Fencing(1)) == answered;
    assert Run(buried, [Fencing(1)]) == answered;
    assert Run(looked, [Fencing(1), Fencing(1)]) == answered;
    assert Run(asked, [Fencing(1), Fencing(1), Fencing(1)]) == answered;
  }

  // ---- What a release does ----

  /** A release writes no tombstone over a claim an allocation holds, whatever it has got to. */
  lemma ReleaseSparesClaimed(s: Spool, a: Action, h: Handle)
    requires Fences(s) && h in s.claims && s.claims[h].Owned? && h !in s.cancel
    requires a.StopLine? || a.StopClaims? || a.StopBuries?
    ensures h !in Step(s, a).cancel && Step(s, a).claims[h] == s.claims[h]
  {
  }

  /** What server `id` can still claim once the line was released. */
  function ReleaseAllowance(s: Spool, id: ServerId): nat {
    if id in s.servers && (s.servers[id].Looking? || s.servers[id].Picked?) then 1 else 0
  }

  lemma TakingsAppend(log: seq<Event>, event: Event, id: ServerId)
    ensures Takings(log + [event], id) == Takings(log, id) + if event.Took? && event.server == id then 1 else 0
  {
    assert (log + [event])[..|log|] == log;
  }

  lemma TakenBy(s: Spool, a: Action, id: ServerId)
    ensures Takings(Step(s, a).log, id) == Takings(s.log, id)
      + if a == Serve(id) && id in s.servers && s.servers[id].Picked? && s.servers[id].handle !in s.claims then 1 else 0
  {
    hide Step, Takings;
    LogGrowsBy(s, a);
    var said := SaidBy(s, a);
    if said == [] {
      assert s.log + said == s.log;
    } else {
      assert said == [said[0]];
      TakingsAppend(s.log, said[0], id);
    }
  }

  lemma AllowanceStep(s: Spool, a: Action, id: ServerId)
    requires s.stopped && !a.Reopen?
    ensures Step(s, a).stopped
    ensures ReleaseAllowance(Step(s, a), id) <= ReleaseAllowance(s, id)
    ensures a == Serve(id) && id in s.servers && s.servers[id].Picked? ==> ReleaseAllowance(Step(s, a), id) == 0
  {
    hide Said, ClaimsAfter, ExitsAfter, FenceNext, TombstonesAfter, CancelledClaims;
  }

  lemma ReleasedStep(s: Spool, a: Action, id: ServerId)
    requires s.stopped && !a.Reopen?
    ensures Step(s, a).stopped
    ensures Takings(Step(s, a).log, id) + ReleaseAllowance(Step(s, a), id) <= Takings(s.log, id) + ReleaseAllowance(s, id)
  {
    hide Step;
    AllowanceStep(s, a, id);
    TakenBy(s, a, id);
  }

  /** After a release, and until the line is held again, a server claims at most one more entry, and none unless it had already asked. */
  lemma {:induction false} ReleasedServerTakesAtMostOne(s: Spool, actions: seq<Action>, id: ServerId)
    requires s.stopped && forall a :: a in actions ==> !a.Reopen?
    ensures Takings(Run(s, actions).log, id) + ReleaseAllowance(Run(s, actions), id)
         <= Takings(s.log, id) + ReleaseAllowance(s, id)
    decreases |actions|
  {
    if actions != [] {
      ReleasedStep(s, actions[0], id);
      ReleasedServerTakesAtMostOne(Step(s, actions[0]), actions[1..], id);
    }
  }

  // ---- What each party does when nobody else acts ----

  lemma Twice(s: Spool, a: Action, b: Action)
    ensures Run(s, [a, b]) == Step(Step(s, a), b)
  {
    hide Step;
    assert [a, b][1..] == [b] && [b][1..] == [];
    assert Run(Step(s, a), [b]) == Run(Step(Step(s, a), b), []);
  }

  lemma Thrice(s: Spool, a: Action, b: Action, c: Action)
    ensures Run(s, [a, b, c]) == Step(Step(Step(s, a), b), c)
  {
    hide Step;
    assert [a, b, c][1..] == [b, c];
    Twice(Step(s, a), b, c);
  }

  /** A cancel of a job that left its exit answers `exited` at its first look and touches nothing else. */
  lemma CancelOfAnEnded(s: Spool, id: CancelId, h: Handle)
    requires id in s.cancels && s.cancels[id] == AtExit(h) && h in s.exits
    ensures Step(s, Fencing(id)) == s.(cancels := s.cancels[id := Answered(h, Exited)])
  {
  }

  /** A cancel of any other leaves a tombstone, takes the entry for the center where nobody has it, and answers which it was. */
  lemma CancelOfTheRest(s: Spool, id: CancelId, h: Handle)
    requires id in s.cancels && s.cancels[id] == AtExit(h) && h !in s.exits
    ensures Run(s, [Fencing(id), Fencing(id), Fencing(id)])
         == s.(cancel := s.cancel + {h}, claims := if h in s.claims then s.claims else s.claims[h := Cancelled],
               cancels := s.cancels[id := Answered(h, if h in s.claims then Claimed else Fenced)])
  {
    hide Run;
    Thrice(s, Fencing(id), Fencing(id), Fencing(id));
    var one := s.(cancels := s.cancels[id := AtTombstone(h)]);
    var two := s.(cancels := s.cancels[id := AtClaim(h)], cancel := s.cancel + {h});
    assert Step(s, Fencing(id)) == one && Step(one, Fencing(id)) == two;
  }

  /** A release fences an entry nobody claimed: it has the center's claim and a tombstone, and never runs. */
  lemma {:induction false} ReleaseFencesTheUnclaimed(s: Spool, h: Handle, actions: seq<Action>)
    requires Kept(s, h) && h in s.inbox && h !in s.claims
    ensures var t := Run(s, [StopLine, StopClaims(h), StopBuries(h)]);
            && t.stopped && h in t.claims && t.claims[h] == Cancelled && h in t.cancel
            && Executions(Run(t, actions).log, h) == 0
  {
    hide Run, Executions;
    Thrice(s, StopLine, StopClaims(h), StopBuries(h));
    var t := Run(s, [StopLine, StopClaims(h), StopBuries(h)]);
    assert t.servers == s.servers && t.log == s.log;
    forall id ensures !Started(t, id, h) {
      assert Worked(s, id, h) ==> h in s.claims;
    }
    DoomedNeverRuns(t, actions, h);
  }

  /** A server picks exactly an entry that was submitted and has neither a claim nor a tombstone. */
  lemma PicksExactlyTheQueued(s: Spool, id: ServerId, h: Handle)
    requires id in s.servers && s.servers[id] == Looking
    ensures Step(s, Pick(id, h)).servers[id] == Picked(h) <==> h in s.inbox && h !in s.claims && h !in s.cancel
    ensures Step(s, Pick(id, h)).(servers := s.servers) == s
  {
  }

  /** Left alone, a ready server with time left on a line that was not released takes a queued entry and starts it. */
  lemma QueuedIsStarted(s: Spool, id: ServerId, h: Handle)
    requires id in s.servers && s.servers[id] == Ready && !s.stopped
    requires h in s.inbox && h !in s.claims && h !in s.cancel
    ensures Run(s, [Look(id, false), Pick(id, h), Serve(id)] + [Serve(id), Serve(id)])
         == s.(claims := s.claims[h := Owned(id)], servers := s.servers[id := Running(h)], log := s.log + [Took(id, h), Executed(id, h)])
  {
    hide Run;
    var looking, picked := s.(servers := s.servers[id := Looking]), s.(servers := s.servers[id := Picked(h)]);
    var won := s.(claims := s.claims[h := Owned(id)], servers := s.servers[id := Won(h)], log := s.log + [Took(id, h)]);
    var cleared := won.(servers := s.servers[id := Cleared(h)]);
    Thrice(s, Look(id, false), Pick(id, h), Serve(id));
    assert Step(s, Look(id, false)) == looking && Step(looking, Pick(id, h)) == picked && Step(picked, Serve(id)) == won;
    RunOn(s, [Look(id, false), Pick(id, h), Serve(id)], [Serve(id), Serve(id)]);
    Twice(won, Serve(id), Serve(id));
    assert won.log + [] == won.log;
    assert Step(won, Serve(id)) == cleared;
    assert s.log + [Took(id, h)] + [Executed(id, h)] == s.log + [Took(id, h), Executed(id, h)];
  }

  lemma {:induction false} RunOn(s: Spool, first: seq<Action>, second: seq<Action>)
    ensures Run(s, first + second) == Run(Run(s, first), second)
    decreases |first|
  {
    if first == [] {
      assert first + second == second;
    } else {
      assert (first + second)[1..] == first[1..] + second;
      RunOn(Step(s, first[0]), first[1..], second);
    }
  }

  /** A ready server goes exactly when at its look the line is released or its time is over. */
  lemma LooksByTheRelease(s: Spool, id: ServerId, late: bool)
    requires id in s.servers && s.servers[id] == Ready
    ensures Step(s, Look(id, late)).servers[id] == Gone <==> s.stopped || late
    ensures !s.stopped && !late ==> Step(s, Look(id, late)).servers[id] == Looking
    ensures Step(s, Look(id, late)).(servers := s.servers) == s
  {
  }

  /** A server that opens with time left on a line not released and finds nothing queued is ready to look again, and nothing else moved. */
  lemma OpensAndRests(s: Spool, id: ServerId)
    requires id !in s.servers && !s.stopped
    ensures Run(s, [Open(id), Look(id, false), Rest(id)]) == s.(servers := s.servers[id := Ready])
  {
    Thrice(s, Open(id), Look(id, false), Rest(id));
    var open := s.(servers := s.servers[id := Ready]);
    assert Step(open, Look(id, false)) == s.(servers := s.servers[id := Looking]);
  }

  /** Only a new server opens and only a looking one rests. */
  lemma OpensAndRestsOnly(s: Spool, id: ServerId)
    ensures id in s.servers ==> Step(s, Open(id)) == s
    ensures !(id in s.servers && s.servers[id] == Looking) ==> Step(s, Rest(id)) == s
  {
  }

  /** The runner's own exit is the one a completed work leaves, whatever status its process ended with. */
  lemma RunnersExitStands(s: Spool, id: ServerId, h: Handle, own: int, status: int)
    requires id in s.servers && s.servers[id] == Running(h)
    ensures Run(s, [RunnerWrites(id, own), ProcessEnds(id, status), Serve(id)])
         == s.(exits := s.exits[h := own], servers := s.servers[id := Ready], log := s.log + [Completed(id, h)])
  {
    hide Run;
    var wrote := s.(exits := s.exits[h := own]);
    var ended := wrote.(servers := s.servers[id := Recording(h, status)]);
    Thrice(s, RunnerWrites(id, own), ProcessEnds(id, status), Serve(id));
    assert Step(s, RunnerWrites(id, own)) == wrote && Step(wrote, ProcessEnds(id, status)) == ended;
  }

  /** Where it left none, the status its process ended with is. */
  lemma StatusStands(s: Spool, id: ServerId, h: Handle, status: int)
    requires id in s.servers && s.servers[id] == Running(h) && h !in s.exits
    ensures Run(s, [ProcessEnds(id, status), Serve(id), Serve(id)])
         == s.(exits := s.exits[h := status], servers := s.servers[id := Ready], log := s.log + [Completed(id, h)])
  {
    hide Run;
    var ended := s.(servers := s.servers[id := Recording(h, status)]);
    var writing := s.(servers := s.servers[id := Writing(h, status)]);
    Thrice(s, ProcessEnds(id, status), Serve(id), Serve(id));
    assert s.log + [] == s.log;
    assert Step(s, ProcessEnds(id, status)) == ended && Step(ended, Serve(id)) == writing;
  }

  /** A claimed entry that has its tombstone ends with 143, 128 and SIGTERM, and never starts. */
  lemma TombstonedEndsWithout(s: Spool, id: ServerId, h: Handle)
    requires id in s.servers && s.servers[id] == Won(h) && h in s.cancel && h !in s.exits
    ensures Run(s, [Serve(id), Serve(id), Serve(id)])
         == s.(exits := s.exits[h := 128 + 15], servers := s.servers[id := Ready], log := s.log + [Completed(id, h)])
  {
    hide Run;
    var recording := s.(servers := s.servers[id := Recording(h, 143)]);
    var writing := s.(servers := s.servers[id := Writing(h, 143)]);
    Thrice(s, Serve(id), Serve(id), Serve(id));
    assert s.log + [] == s.log;
    assert Step(s, Serve(id)) == recording && Step(recording, Serve(id)) == writing;
  }

  /** A script whose server died may still leave its exit; no other server's place lets a runner write. */
  lemma RunnerWritesExactly(s: Spool, id: ServerId, h: Handle, own: int)
    requires id in s.servers
    ensures s.servers[id] == Orphaned(h) ==> Step(s, RunnerWrites(id, own)) == s.(exits := s.exits[h := own])
    ensures s.servers[id] in {Ready, Looking, Picked(h), Won(h), Cleared(h), Gone} ==> Step(s, RunnerWrites(id, own)) == s
  {
  }
}
