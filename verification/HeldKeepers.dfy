/**
 The keepers of one held line: shell loops on login nodes that open numbered generations, each an
 interactive allocation, over a spool directory they share.

 Every action below is one atomic effect on the shared filesystem. Any number of keepers and openers
 take their actions in any order, are killed anywhere, and share the spool with allocations that
 write into a generation whenever they like. A disabled action changes nothing.
 */
module HeldKeepers {
  import opened Text
  import Walltime

  /** The keeper stops when this many seconds or fewer are left. */
  const LEAST := 300

  type KeeperId = nat
  type Token = nat

  /** `keeper.sh`: the loop with the values it was generated with. */
  datatype Script = Script(token: Token, deadline: int, cap: nat)

  /** The next thing a keeper does. `n` is the generation it tries next or is inside. */
  datatype Phase =
    | AtListing                        // n = newest of `gen` + 1
    | AtStop                           // [ ! -e stop ]
    | AtToken                          // own
    | AtClock                          // left, wall
    | AtMkdir(wall: string, at: int)   // mkdir gen/n, with the wall computed when the clock said `at`
    | AtQsub(wall: string, at: int)    // qsub -I
    | Waiting                          // qsub has not returned
    | AtAlloc                          // [ -e gen/n/alloc ]
    | AtRmdir                          // rmdir gen/n
    | Finished

  datatype Keeper = Keeper(script: Script, n: nat, phase: Phase, alive: bool) {
    /** Made `gen/n` and has neither moved past it nor tried to remove it since. */
    predicate Inside(generation: nat) {
      n == generation && (phase.AtQsub? || phase.Waiting? || phase.AtAlloc? || phase.AtRmdir?)
    }

    /** Past the token check and not yet past the `mkdir`. */
    predicate Passed() {
      phase.AtClock? || phase.AtMkdir?
    }
  }

  datatype Event =
    | Opened(keeper: KeeperId, generation: nat)
    | Asked(keeper: KeeperId, generation: nat, wall: string, at: int)

  /**
   The spool and everything running over it.

   token: what `keeper.token` holds, None before the first `host hold`.
   issued: every token ever drawn.
   gen: each generation directory and the names in it.
   log: what the keepers did, oldest first.
   */
  datatype Line = Line(
    token: Option<Token>,
    issued: set<Token>,
    script: Option<Script>,
    stop: bool,
    gen: map<nat, set<string>>,
    now: int,
    keepers: map<KeeperId, Keeper>,
    log: seq<Event>)

  datatype Action =
    | IssueToken(token: Token)                  // `_start` replaces keeper.token
    | WriteScript(script: Script)               // `_start` replaces keeper.sh
    | RemoveStop                                // `_start` removes stop
    | Spawn(id: KeeperId)                       // a tmux session runs keeper.sh
    | Release                                   // `: > stop`
    | Kill(id: KeeperId)
    | Wait(seconds: nat)
    | Advance(id: KeeperId)                     // one keeper takes its next step
    | ServeDirectory(generation: nat)           // an allocation's `mkdir -p gen/n`
    | ServeFile(generation: nat, name: string)  // an allocation creates a name in gen/n
    | ServeRename(generation: nat, temporary: string, name: string)

  const EMPTY := Line(None, {}, None, false, map[], 0, map[], [])

  /** The newest generation there is a directory for, zero when there is none. */
  function Newest(generations: set<nat>): (newest: nat)
    ensures newest == 0 || newest in generations
    ensures forall g :: g in generations ==> g <= newest
  {
    if generations == {} then 0
    else
      HasGreatest(generations);
      var greatest :| greatest in generations && forall g :: g in generations ==> g <= greatest;
      greatest
  }

  lemma {:induction false} HasGreatest(generations: set<nat>)
    requires generations != {}
    ensures exists g :: g in generations && forall h :: h in generations ==> h <= g
  {
    var some :| some in generations;
    var rest := generations - {some};
    if rest == {} {
      assert forall h :: h in generations ==> h in rest || h == some;
    } else {
      HasGreatest(rest);
      var g :| g in rest && forall h :: h in rest ==> h <= g;
      var greatest := if g <= some then some else g;
      assert forall h :: h in generations ==> h in rest || h == some;
      assert greatest in generations && forall h :: h in generations ==> h <= greatest;
    }
  }

  /** The seconds an allocation asks for: what is left of the line, at most the cap. */
  function WallOf(script: Script, now: int): nat
    requires script.deadline - now > LEAST
  {
    var left := script.deadline - now;
    if left < script.cap then left else script.cap
  }

  /** A keeper after its next step: where the script goes from here, by what the spool says now. */
  function Next(s: Line, k: Keeper): Keeper {
    match k.phase
    case AtListing => k.(n := Newest(s.gen.Keys) + 1, phase := AtStop)
    case AtStop => k.(phase := if s.stop then Finished else AtToken)
    case AtToken => k.(phase := if s.token == Some(k.script.token) then AtClock else Finished)
    case AtClock =>
      k.(phase := if k.script.deadline - s.now > LEAST
                  then AtMkdir(Walltime.Print(WallOf(k.script, s.now)), s.now) else Finished)
    case AtMkdir(wall, at) => if k.n in s.gen then k.(n := k.n + 1, phase := AtStop) else k.(phase := AtQsub(wall, at))
    case AtQsub(wall, at) => k.(phase := Waiting)
    case Waiting => k.(phase := AtAlloc)
    case AtAlloc => if Served(s, k.n) then k.(n := k.n + 1, phase := AtStop) else k.(phase := AtRmdir)
    case AtRmdir => k.(phase := AtStop)
    case Finished => k
  }

  /** The generation directories after that step: `mkdir` makes one, `rmdir` removes an empty one. */
  function GenAfter(s: Line, k: Keeper): map<nat, set<string>> {
    if k.phase.AtMkdir? && k.n !in s.gen then s.gen[k.n := {}]
    else if k.phase.AtRmdir? && k.n in s.gen && s.gen[k.n] == {} then s.gen - {k.n}
    else s.gen
  }

  /** What the keeper says it does. */
  function Said(s: Line, id: KeeperId, k: Keeper): seq<Event> {
    if k.phase.AtMkdir? && k.n !in s.gen then [Opened(id, k.n)]
    else if k.phase.AtQsub? then [Asked(id, k.n, k.phase.wall, k.phase.at)]
    else []
  }

  /** An allocation answered in `generation`. */
  predicate Served(s: Line, generation: nat) {
    generation in s.gen && "alloc" in s.gen[generation]
  }

  /** A keeper's next step over the spool. */
  function Advanced(s: Line, id: KeeperId): Line
    requires id in s.keepers
  {
    var k := s.keepers[id];
    s.(gen := GenAfter(s, k), keepers := s.keepers[id := Next(s, k)], log := s.log + Said(s, id, k))
  }

  function Step(s: Line, a: Action): Line {
    match a
    case IssueToken(token) =>
      if token in s.issued then s else s.(token := Some(token), issued := s.issued + {token})
    case WriteScript(script) => if script.token in s.issued then s.(script := Some(script)) else s
    case RemoveStop => s.(stop := false)
    case Spawn(id) =>
      if id in s.keepers || s.script.None? then s
      else s.(keepers := s.keepers[id := Keeper(s.script.value, 0, AtListing, true)])
    case Release => s.(stop := true)
    case Kill(id) => if id in s.keepers then s.(keepers := s.keepers[id := s.keepers[id].(alive := false)]) else s
    case Wait(seconds) => s.(now := s.now + seconds)
    case Advance(id) => if id in s.keepers && s.keepers[id].alive then Advanced(s, id) else s
    case ServeDirectory(g) => if g in s.gen then s else s.(gen := s.gen[g := {}])
    case ServeFile(g, name) => if g in s.gen then s.(gen := s.gen[g := s.gen[g] + {name}]) else s
    case ServeRename(g, temporary, name) =>
      if g in s.gen && temporary in s.gen[g] && temporary != "alloc"
      then s.(gen := s.gen[g := s.gen[g] - {temporary} + {name}]) else s
  }

  function Run(s: Line, actions: seq<Action>): Line
    decreases |actions|
  {
    if actions == [] then s else Run(Step(s, actions[0]), actions[1..])
  }

  /** How many generations `keeper` opened in `log`. */
  function Opens(log: seq<Event>, keeper: KeeperId): nat {
    if log == [] then 0
    else
      var last := log[|log| - 1];
      Opens(log[..|log| - 1], keeper) + (if last.Opened? && last.keeper == keeper then 1 else 0)
  }

  lemma OpensAppend(log: seq<Event>, event: Event, keeper: KeeperId)
    ensures Opens(log + [event], keeper)
         == Opens(log, keeper) + if event.Opened? && event.keeper == keeper then 1 else 0
  {
    assert (log + [event])[..|log|] == log;
  }

  /** What a step adds to the log: nothing, or one event of the keeper that advanced. */
  lemma LoggedBy(s: Line, a: Action, id: KeeperId)
    ensures s.log <= Step(s, a).log
    ensures Opens(Step(s, a).log, id)
         == Opens(s.log, id)
            + if a == Advance(id) && id in s.keepers && s.keepers[id].alive && s.keepers[id].phase.AtMkdir?
                 && s.keepers[id].n !in s.gen then 1 else 0
  {
    hide Step, Opens;
    LogGrowsBy(s, a);
    var said := SaidBy(s, a);
    if said == [] {
      assert s.log + said == s.log;
    } else {
      assert said == [said[0]];
      OpensAppend(s.log, said[0], id);
    }
  }

  /** What one step adds to the log: what the keeper that took it says. */
  function SaidBy(s: Line, a: Action): seq<Event> {
    if a.Advance? && a.id in s.keepers && s.keepers[a.id].alive then Said(s, a.id, s.keepers[a.id]) else []
  }

  lemma LogGrowsBy(s: Line, a: Action)
    ensures Step(s, a).log == s.log + SaidBy(s, a) && |SaidBy(s, a)| <= 1
  {
    hide Next, GenAfter;
    assert s.log + [] == s.log;
  }

  // ---- One keeper inside a generation ----

  /** Keeper `id`, running or killed, is inside `generation`. */
  predicate Holds(s: Line, id: KeeperId, generation: nat) {
    id in s.keepers && s.keepers[id].Inside(generation)
  }

  /** A keeper inside a generation has its directory, and no two keepers are inside one generation. */
  ghost predicate Exclusive(s: Line) {
    && (forall id, g :: Holds(s, id, g) ==> g in s.gen)
    && (forall i, j, g :: Holds(s, i, g) && Holds(s, j, g) ==> i == j)
  }

  /** A keeper comes to be inside a generation only by making the directory that was not there. */
  lemma EntersByMaking(s: Line, a: Action, id: KeeperId, generation: nat)
    requires Holds(Step(s, a), id, generation)
    ensures Holds(s, id, generation) || (a == Advance(id) && generation !in s.gen && generation in Step(s, a).gen)
  {
    hide Newest, Walltime.Print;
  }

  /** A directory goes away only at the hand of the keeper inside it, which leaves by doing so. */
  lemma RemovedFromInside(s: Line, a: Action, generation: nat)
    requires generation in s.gen && generation !in Step(s, a).gen
    ensures a.Advance? && Holds(s, a.id, generation) && !Holds(Step(s, a), a.id, generation)
  {
  }

  lemma StepKeepsExclusive(s: Line, a: Action)
    requires Exclusive(s)
    ensures Exclusive(Step(s, a))
  {
    var t := Step(s, a);
    forall id, g | Holds(t, id, g) ensures g in t.gen {
      EntersByMaking(s, a, id, g);
      if g in s.gen && g !in t.gen {
        RemovedFromInside(s, a, g);
      }
    }
    forall i, j, g | Holds(t, i, g) && Holds(t, j, g) ensures i == j {
      EntersByMaking(s, a, i, g);
      EntersByMaking(s, a, j, g);
    }
  }

  /** In every reachable state, whatever was killed or refused, at most one keeper is inside a generation. */
  lemma {:induction false} OneKeeperInside(s: Line, actions: seq<Action>)
    requires Exclusive(s)
    ensures Exclusive(Run(s, actions))
    decreases |actions|
  {
    if actions != [] {
      StepKeepsExclusive(s, actions[0]);
      OneKeeperInside(Step(s, actions[0]), actions[1..]);
    }
  }

  /** No line of `log` from `start` on opens `generation`. */
  ghost predicate NeverOpens(log: seq<Event>, start: nat, generation: nat) {
    forall i :: start <= i < |log| && log[i].Opened? ==> log[i].generation != generation
  }

  /** Once an allocation answered in a generation, no keeper ever opens that generation again. */
  lemma {:induction false} ServedIsNeverOpenedAgain(s: Line, actions: seq<Action>, generation: nat)
    requires Served(s, generation)
    ensures Served(Run(s, actions), generation)
    ensures s.log <= Run(s, actions).log
    ensures NeverOpens(Run(s, actions).log, |s.log|, generation)
    decreases |actions|
  {
    if actions != [] {
      var next := Step(s, actions[0]);
      assert Served(next, generation) && s.log <= next.log && NeverOpens(next.log, |s.log|, generation);
      ServedIsNeverOpenedAgain(next, actions[1..], generation);
      assert forall i :: 0 <= i < |next.log| ==> Run(s, actions).log[i] == next.log[i];
    }
  }

  // ---- The token fences out an older keeper ----

  /** Every keeper and script was generated with a token that was drawn, the one in `keeper.token` included. */
  ghost predicate Issued(s: Line) {
    && (s.token.Some? ==> s.token.value in s.issued)
    && (s.script.Some? ==> s.script.value.token in s.issued)
    && (forall id :: id in s.keepers ==> s.keepers[id].script.token in s.issued)
  }

  /** A keeper keeps the script it was started with, which was the one in `keeper.sh`. */
  lemma ScriptStays(s: Line, a: Action, id: KeeperId)
    requires id in Step(s, a).keepers
    ensures id in s.keepers ==> Step(s, a).keepers[id].script == s.keepers[id].script
    ensures id !in s.keepers ==> s.script == Some(Step(s, a).keepers[id].script)
  {
    hide GenAfter, Said, Walltime.Print, Newest;
  }

  lemma KeepersStay(s: Line, a: Action, id: KeeperId)
    requires id in s.keepers
    ensures id in Step(s, a).keepers
  {
    hide Next, GenAfter, Said;
  }

  lemma StepKeepsIssued(s: Line, a: Action)
    requires Issued(s)
    ensures Issued(Step(s, a))
  {
    var t := Step(s, a);
    assert s.issued <= t.issued;
    forall id | id in t.keepers ensures t.keepers[id].script.token in t.issued {
      ScriptStays(s, a, id);
    }
  }

  lemma {:induction false} TokensAreIssued(s: Line, actions: seq<Action>)
    requires Issued(s)
    ensures Issued(Run(s, actions))
    decreases |actions|
  {
    if actions != [] {
      StepKeepsIssued(s, actions[0]);
      TokensAreIssued(Step(s, actions[0]), actions[1..]);
    }
  }

  /** `keeper.token` no longer names keeper `id`. */
  predicate Fenced(s: Line, id: KeeperId) {
    id in s.keepers && s.token != Some(s.keepers[id].script.token)
  }

  /** What a fenced keeper can still open: one generation, and only when its check came before the fence. */
  function Allowance(s: Line, id: KeeperId): nat {
    if id in s.keepers && s.keepers[id].Passed() then 1 else 0
  }

  lemma FencedStep(s: Line, a: Action, id: KeeperId)
    requires Issued(s) && Fenced(s, id)
    ensures Issued(Step(s, a)) && Fenced(Step(s, a), id)
    ensures Opens(Step(s, a).log, id) + Allowance(Step(s, a), id) <= Opens(s.log, id) + Allowance(s, id)
  {
    hide Step;
    StepKeepsIssued(s, a);
    FenceStays(s, a, id);
    LoggedBy(s, a, id);
    AllowanceStep(s, a, id);
  }

  lemma FenceStays(s: Line, a: Action, id: KeeperId)
    requires Issued(s) && Fenced(s, id)
    ensures Fenced(Step(s, a), id)
  {
    KeepersStay(s, a, id);
    ScriptStays(s, a, id);
  }

  lemma AllowanceStep(s: Line, a: Action, id: KeeperId)
    requires Fenced(s, id)
    ensures Allowance(Step(s, a), id) <= Allowance(s, id)
    ensures a == Advance(id) && s.keepers[id].alive && s.keepers[id].phase.AtMkdir? ==>
              Allowance(Step(s, a), id) == 0 && Allowance(s, id) == 1
  {
  }

  /** A keeper whose token was replaced opens at most one generation more, and none unless it had already passed its check. */
  lemma {:induction false} FencedKeeperOpensAtMostOne(s: Line, actions: seq<Action>, id: KeeperId)
    requires Issued(s) && Fenced(s, id)
    ensures Fenced(Run(s, actions), id)
    ensures Opens(Run(s, actions).log, id) + Allowance(Run(s, actions), id) <= Opens(s.log, id) + Allowance(s, id)
    decreases |actions|
  {
    if actions != [] {
      FencedStep(s, actions[0], id);
      FencedKeeperOpensAtMostOne(Step(s, actions[0]), actions[1..], id);
    }
  }

  /** A fresh token fences out every keeper there is, whatever is left of the run. */
  lemma FreshTokenFencesAll(s: Line, token: Token, actions: seq<Action>, id: KeeperId)
    requires Issued(s) && token !in s.issued && id in s.keepers
    ensures Opens(Run(s, [IssueToken(token)] + actions).log, id) <= Opens(s.log, id) + 1
  {
    var next := Step(s, IssueToken(token));
    assert ([IssueToken(token)] + actions)[1..] == actions;
    FencedKeeperOpensAtMostOne(next, actions, id);
  }

  /** What a keeper can still open once `stop` is there. */
  function ReleaseAllowance(s: Line, id: KeeperId): nat {
    if id in s.keepers && (s.keepers[id].Passed() || s.keepers[id].phase.AtToken?) then 1 else 0
  }

  lemma ReleasedStep(s: Line, a: Action, id: KeeperId)
    requires s.stop && !a.RemoveStop?
    ensures Step(s, a).stop
    ensures Opens(Step(s, a).log, id) + ReleaseAllowance(Step(s, a), id) <= Opens(s.log, id) + ReleaseAllowance(s, id)
  {
    hide Step;
    LoggedBy(s, a, id);
    ReleaseAllowanceStep(s, a, id);
  }

  lemma ReleaseAllowanceStep(s: Line, a: Action, id: KeeperId)
    requires s.stop && !a.RemoveStop?
    ensures Step(s, a).stop
    ensures ReleaseAllowance(Step(s, a), id) <= ReleaseAllowance(s, id)
    ensures a == Advance(id) && id in s.keepers && s.keepers[id].alive && s.keepers[id].phase.AtMkdir? ==>
              ReleaseAllowance(Step(s, a), id) == 0 && ReleaseAllowance(s, id) == 1
  {
  }

  /** After a release, and until the line is held again, a keeper opens at most one generation more. */
  lemma {:induction false} ReleasedKeeperOpensAtMostOne(s: Line, actions: seq<Action>, id: KeeperId)
    requires s.stop
    requires forall a :: a in actions ==> !a.RemoveStop?
    ensures Run(s, actions).stop
    ensures Opens(Run(s, actions).log, id) <= Opens(s.log, id) + ReleaseAllowance(s, id)
    decreases |actions|
  {
    if actions != [] {
      ReleasedStep(s, actions[0], id);
      ReleasedKeeperOpensAtMostOne(Step(s, actions[0]), actions[1..], id);
    }
  }

  // ---- Every wall fits the deadline ----

  /** `wall`, computed when the clock said `at`, is what `script` allows and decodes to exactly that. */
  ghost predicate WallFits(script: Script, wall: string, at: int) {
    && script.deadline - at > LEAST
    && Walltime.Seconds(wall).Some?
    && var seconds := Walltime.Seconds(wall).value;
       && at + seconds <= script.deadline
       && seconds <= script.cap
       && (at + seconds == script.deadline || seconds == script.cap)
  }

  /** The wall keeper `id` carries, if it carries one, fits its own deadline and cap. */
  ghost predicate CarriesFit(s: Line, id: KeeperId)
    requires id in s.keepers
  {
    var k := s.keepers[id];
    && (k.phase.AtMkdir? ==> WallFits(k.script, k.phase.wall, k.phase.at))
    && (k.phase.AtQsub? ==> WallFits(k.script, k.phase.wall, k.phase.at))
  }

  /** The wall `event` asked for fits the deadline and cap of the keeper that asked. */
  ghost predicate AskFits(s: Line, event: Event) {
    event.Asked? ==> event.keeper in s.keepers && WallFits(s.keepers[event.keeper].script, event.wall, event.at)
  }

  ghost predicate WallsFit(s: Line) {
    && (forall id :: id in s.keepers ==> CarriesFit(s, id))
    && (forall i :: 0 <= i < |s.log| ==> AskFits(s, s.log[i]))
  }

  /** The wall printed at any clock reading fits. */
  lemma PrintedWallFits(script: Script, now: int)
    requires script.deadline - now > LEAST
    ensures WallFits(script, Walltime.Print(WallOf(script, now)), now)
  {
    Walltime.PrintedWallDecodes(WallOf(script, now));
  }

  /** The wall a keeper carries after a step is the one it carried, or one printed just now. */
  lemma CarriedFrom(s: Line, a: Action, id: KeeperId)
    requires id in Step(s, a).keepers
    ensures var k := Step(s, a).keepers[id];
            k.phase.AtMkdir? || k.phase.AtQsub? ==>
              && id in s.keepers
              && var was := s.keepers[id];
                 || ((was.phase.AtMkdir? || was.phase.AtQsub?) && k.phase.wall == was.phase.wall && k.phase.at == was.phase.at)
                 || (was.script.deadline - s.now > LEAST && k.phase.at == s.now
                     && k.phase.wall == Walltime.Print(WallOf(was.script, s.now)))
  {
    hide Walltime.Print, Newest, GenAfter, Said;
  }

  lemma CarriesStep(s: Line, a: Action, id: KeeperId)
    requires WallsFit(s) && id in Step(s, a).keepers
    ensures CarriesFit(Step(s, a), id)
  {
    hide Step;
    CarriedFrom(s, a, id);
    ScriptStays(s, a, id);
    if id in s.keepers {
      assert CarriesFit(s, id);
      if s.keepers[id].script.deadline - s.now > LEAST {
        PrintedWallFits(s.keepers[id].script, s.now);
      }
    }
  }

  lemma AskStays(s: Line, a: Action, event: Event)
    requires AskFits(s, event)
    ensures AskFits(Step(s, a), event)
  {
    hide Step;
    if event.Asked? {
      KeepersStay(s, a, event.keeper);
      ScriptStays(s, a, event.keeper);
    }
  }

  lemma StepKeepsWalls(s: Line, a: Action)
    requires WallsFit(s)
    ensures WallsFit(Step(s, a))
  {
    var t := Step(s, a);
    forall id | id in t.keepers ensures CarriesFit(t, id) {
      CarriesStep(s, a, id);
    }
    forall i | 0 <= i < |t.log| ensures AskFits(t, t.log[i]) {
      if i < |s.log| {
        assert AskFits(s, s.log[i]) && t.log[i] == s.log[i];
        AskStays(s, a, s.log[i]);
      } else {
        assert CarriesFit(s, a.id);
      }
    }
  }

  /** Every allocation ever asked for lasts no longer than the deadline allowed when its wall was computed. */
  lemma {:induction false} EveryAskFitsTheDeadline(s: Line, actions: seq<Action>)
    requires WallsFit(s)
    ensures WallsFit(Run(s, actions))
    decreases |actions|
  {
    if actions != [] {
      StepKeepsWalls(s, actions[0]);
      EveryAskFitsTheDeadline(Step(s, actions[0]), actions[1..]);
    }
  }

  /** All of it over every run of a line from its empty spool. */
  lemma {:induction false} EveryRunOfALine(actions: seq<Action>)
    ensures var s := Run(EMPTY, actions); Exclusive(s) && Issued(s) && WallsFit(s)
  {
    OneKeeperInside(EMPTY, actions);
    TokensAreIssued(EMPTY, actions);
    EveryAskFitsTheDeadline(EMPTY, actions);
  }

  // ---- When a keeper stops, and what it does while it does not ----

  /** A step finishes a keeper exactly at its stop check with `stop` there, at its token check with another token there, or at its clock with 300 seconds or fewer left. */
  lemma FinishesExactly(s: Line, a: Action, id: KeeperId)
    requires id in s.keepers && !s.keepers[id].phase.Finished?
    ensures var k := s.keepers[id];
            Step(s, a).keepers[id].phase.Finished? <==>
              && a == Advance(id) && k.alive
              && ((k.phase.AtStop? && s.stop)
                  || (k.phase.AtToken? && s.token != Some(k.script.token))
                  || (k.phase.AtClock? && k.script.deadline - s.now <= 300))
  {
    hide GenAfter, Said, Newest, Walltime.Print;
    KeepersStay(s, a, id);
  }

  /** `count` steps of one keeper and nobody else's. */
  function Steps(id: KeeperId, count: nat): seq<Action> {
    seq(count, _ => Advance(id))
  }

  lemma {:induction false} RunAppend(s: Line, first: seq<Action>, second: seq<Action>)
    ensures Run(s, first + second) == Run(Run(s, first), second)
    decreases |first|
  {
    if first == [] {
      assert first + second == second;
    } else {
      assert (first + second)[1..] == first[1..] + second;
      RunAppend(Step(s, first[0]), first[1..], second);
    }
  }

  lemma StepsOn(s: Line, id: KeeperId, one: nat, two: nat)
    ensures Run(s, Steps(id, one + two)) == Run(Run(s, Steps(id, one)), Steps(id, two))
  {
    assert Steps(id, one + two) == Steps(id, one) + Steps(id, two);
    RunAppend(s, Steps(id, one), Steps(id, two));
  }

  lemma OneStep(s: Line, id: KeeperId, count: nat)
    requires count > 0
    ensures Run(s, Steps(id, count)) == Run(Step(s, Advance(id)), Steps(id, count - 1))
  {
    assert Steps(id, count)[1..] == Steps(id, count - 1) && Steps(id, count)[0] == Advance(id);
  }

  /** Nothing ends the line for keeper `id`: no `stop`, its own token in place, and more than 300 seconds left. */
  predicate Kept(s: Line, id: KeeperId) {
    && id in s.keepers && s.keepers[id].alive && !s.stop && s.token == Some(s.keepers[id].script.token)
    && s.keepers[id].script.deadline - s.now > 300
  }

  /** `s` with keeper `id` elsewhere in its script. */
  function Moved(s: Line, id: KeeperId, n: nat, phase: Phase): Line
    requires id in s.keepers
  {
    s.(keepers := s.keepers[id := s.keepers[id].(n := n, phase := phase)])
  }

  /** Three checks passed bring a kept keeper to its `mkdir`, with a wall that fits. */
  lemma PassesItsChecks(s: Line, id: KeeperId)
    requires Kept(s, id) && s.keepers[id].phase.AtStop?
    ensures exists wall :: WallFits(s.keepers[id].script, wall, s.now)
                           && Run(s, Steps(id, 3)) == Moved(s, id, s.keepers[id].n, AtMkdir(wall, s.now))
  {
    hide Walltime.Print, Newest, WallFits, Run;
    var k := s.keepers[id];
    var wall := Walltime.Print(WallOf(k.script, s.now));
    var one, two, three := Moved(s, id, k.n, AtToken), Moved(s, id, k.n, AtClock), Moved(s, id, k.n, AtMkdir(wall, s.now));
    assert s.log + [] == s.log;
    assert Step(s, Advance(id)) == one && Step(one, Advance(id)) == two && Step(two, Advance(id)) == three;
    PrintedWallFits(k.script, s.now);
    OneStep(s, id, 3);
    OneStep(one, id, 2);
    OneStep(two, id, 1);
    RunNothing(three, id);
  }

  lemma RunNothing(s: Line, id: KeeperId)
    ensures Run(s, Steps(id, 0)) == s
  {
  }

  /** What a keeper did: opened `g` and asked for an allocation in it, and waits. */
  ghost predicate OpenedAndAsked(s: Line, t: Line, id: KeeperId, g: nat)
    requires id in s.keepers
  {
    exists wall ::
      && WallFits(s.keepers[id].script, wall, s.now)
      && t == Moved(s, id, g, Waiting).(gen := s.gen[g := {}], log := s.log + [Opened(id, g), Asked(id, g, wall, s.now)])
  }

  /** At its `mkdir` over a free number, a keeper opens it and asks for an allocation in it. */
  lemma OpensAFreeOne(s: Line, id: KeeperId, wall: string)
    requires id in s.keepers && s.keepers[id].alive && s.keepers[id].phase == AtMkdir(wall, s.now) && s.keepers[id].n !in s.gen
    requires WallFits(s.keepers[id].script, wall, s.now)
    ensures OpenedAndAsked(s, Run(s, Steps(id, 2)), id, s.keepers[id].n)
  {
    hide Newest, WallFits, Run, Walltime.Print;
    var k := s.keepers[id];
    var one := Moved(s, id, k.n, AtQsub(wall, s.now)).(gen := s.gen[k.n := {}], log := s.log + [Opened(id, k.n)]);
    var two := Moved(s, id, k.n, Waiting).(gen := s.gen[k.n := {}], log := s.log + [Opened(id, k.n)] + [Asked(id, k.n, wall, s.now)]);
    assert Step(s, Advance(id)) == one && Step(one, Advance(id)) == two;
    OneStep(s, id, 2);
    OneStep(one, id, 1);
    RunNothing(two, id);
    assert s.log + [Opened(id, k.n)] + [Asked(id, k.n, wall, s.now)] == s.log + [Opened(id, k.n), Asked(id, k.n, wall, s.now)];
  }

  /**
   A keeper that nothing ends opens, by its own steps alone, the least number from its own on that is free,
   and asks for an allocation in it that fits.
   */
  lemma {:induction false} OpensTheNextFree(s: Line, id: KeeperId, g: nat) returns (count: nat)
    requires Kept(s, id) && s.keepers[id].phase.AtStop?
    requires s.keepers[id].n <= g && g !in s.gen && forall h :: s.keepers[id].n <= h < g ==> h in s.gen
    ensures count == 4 * (g - s.keepers[id].n) + 5
    ensures OpenedAndAsked(s, Run(s, Steps(id, count)), id, g)
    decreases g - s.keepers[id].n
  {
    hide Walltime.Print, Newest, WallFits, Run, Next, GenAfter, Said;
    var n := s.keepers[id].n;
    PassesItsChecks(s, id);
    var wall :| WallFits(s.keepers[id].script, wall, s.now) && Run(s, Steps(id, 3)) == Moved(s, id, n, AtMkdir(wall, s.now));
    var t := Moved(s, id, n, AtMkdir(wall, s.now));
    if n == g {
      OpensAFreeOne(t, id, wall);
      StepsOn(s, id, 3, 2);
      count := 5;
    } else {
      var u := Moved(s, id, n + 1, AtStop);
      TakenMovesOn(s, id, wall);
      var rest := OpensTheNextFree(u, id, g);
      OneStep(t, id, 1 + rest);
      StepsOn(s, id, 3, 1 + rest);
      count := 4 + rest;
    }
  }

  lemma TakenMovesOn(s: Line, id: KeeperId, wall: string)
    requires id in s.keepers && s.keepers[id].alive && s.keepers[id].n in s.gen
    ensures Step(Moved(s, id, s.keepers[id].n, AtMkdir(wall, s.now)), Advance(id)) == Moved(s, id, s.keepers[id].n + 1, AtStop)
  {
    assert s.log + [] == s.log;
  }

  /** When its `qsub` returned and an allocation had answered, a keeper goes on to the next number. */
  lemma GoesOnAfterAnAllocation(s: Line, id: KeeperId)
    requires id in s.keepers && s.keepers[id].alive && s.keepers[id].phase.AtAlloc?
    requires s.keepers[id].n in s.gen && "alloc" in s.gen[s.keepers[id].n]
    ensures Run(s, Steps(id, 1)) == Moved(s, id, s.keepers[id].n + 1, AtStop)
  {
    hide Run;
    OneStep(s, id, 1);
    assert s.log + [] == s.log;
    RunNothing(Step(s, Advance(id)), id);
  }

  /** When its `qsub` was refused, it takes its empty generation back and tries that number again. */
  lemma TriesAgainAfterARefusal(s: Line, id: KeeperId)
    requires id in s.keepers && s.keepers[id].alive && s.keepers[id].phase.AtAlloc?
    requires s.keepers[id].n in s.gen && s.gen[s.keepers[id].n] == {}
    ensures Run(s, Steps(id, 2)) == Moved(s, id, s.keepers[id].n, AtStop).(gen := s.gen - {s.keepers[id].n})
  {
    hide Run, Newest, Walltime.Print;
    var k := s.keepers[id];
    var one, two := Moved(s, id, k.n, AtRmdir), Moved(s, id, k.n, AtStop).(gen := s.gen - {k.n});
    assert s.log + [] == s.log;
    assert Step(s, Advance(id)) == one && Step(one, Advance(id)) == two;
    OneStep(s, id, 2);
    OneStep(one, id, 1);
    RunNothing(two, id);
  }

  /** A keeper just started begins one above every generation there is. */
  lemma StartsAboveAll(s: Line, id: KeeperId, g: nat)
    requires id in s.keepers && s.keepers[id].alive && s.keepers[id].phase.AtListing?
    requires g in s.gen || (g == 0 && s.gen == map[])
    requires forall h :: h in s.gen ==> h <= g
    ensures Run(s, Steps(id, 1)) == Moved(s, id, g + 1, AtStop)
  {
    hide Run, Walltime.Print;
    assert Newest(s.gen.Keys) == g;
    OneStep(s, id, 1);
    assert s.log + [] == s.log;
    RunNothing(Step(s, Advance(id)), id);
  }

  /** A line held again, under a fresh token and with time left, opens one above every generation there is, released or not before. */
  lemma HeldAgainOpensAboveAll(s: Line, script: Script, id: KeeperId, g: nat)
    requires script.token !in s.issued && id !in s.keepers && script.deadline - s.now > 300
    requires g in s.gen || (g == 0 && s.gen == map[])
    requires forall h :: h in s.gen ==> h <= g
    ensures var held := Run(s, [IssueToken(script.token), WriteScript(script), RemoveStop, Spawn(id)]);
            id in held.keepers && OpenedAndAsked(held, Run(held, Steps(id, 6)), id, g + 1)
  {
    hide Run, Next, GenAfter, Said, OpenedAndAsked;
    var started := s.(token := Some(script.token), issued := s.issued + {script.token}, script := Some(script), stop := false,
                      keepers := s.keepers[id := Keeper(script, 0, AtListing, true)]);
    Holding(s, script, id, started);
    StartsAboveAll(started, id, g);
    var listed := Moved(started, id, g + 1, AtStop);
    var count := OpensTheNextFree(listed, id, g + 1);
    StepsOn(started, id, 1, 5);
    OpenedFrom(started, id, g + 1, g + 1, Run(started, Steps(id, 6)));
  }

  lemma Holding(s: Line, script: Script, id: KeeperId, started: Line)
    requires script.token !in s.issued && id !in s.keepers
    requires started == s.(token := Some(script.token), issued := s.issued + {script.token}, script := Some(script), stop := false,
                           keepers := s.keepers[id := Keeper(script, 0, AtListing, true)])
    ensures Run(s, [IssueToken(script.token), WriteScript(script), RemoveStop, Spawn(id)]) == started
  {
    hide Next, GenAfter, Said;
    var actions := [IssueToken(script.token), WriteScript(script), RemoveStop, Spawn(id)];
    var one := Step(s, actions[0]);
    var two := Step(one, actions[1]);
    var three := Step(two, actions[2]);
    assert Step(three, actions[3]) == started;
    assert Run(started, []) == started;
    assert actions[3..][1..] == [] && actions[2..][1..] == actions[3..] && actions[1..][1..] == actions[2..];
    assert Run(three, actions[3..]) == started;
    assert Run(two, actions[2..]) == started;
    assert Run(one, actions[1..]) == started;
  }

  /** When the `qsub` of a served generation returns to a keeper that nothing ends, it opens the least free number above. */
  lemma OpensAnotherAfterAnAllocation(s: Line, id: KeeperId, g: nat)
    requires Kept(s, id) && s.keepers[id].phase.Waiting?
    requires s.keepers[id].n in s.gen && "alloc" in s.gen[s.keepers[id].n]
    requires s.keepers[id].n < g && g !in s.gen && forall h :: s.keepers[id].n < h < g ==> h in s.gen
    ensures OpenedAndAsked(s, Run(s, Steps(id, 4 * (g - s.keepers[id].n) + 3)), id, g)
  {
    hide Run, OpenedAndAsked, Newest, Walltime.Print;
    var n := s.keepers[id].n;
    var returned, on := Moved(s, id, n, AtAlloc), Moved(s, id, n + 1, AtStop);
    assert s.log + [] == s.log;
    assert Step(s, Advance(id)) == returned;
    GoesOnAfterAnAllocation(returned, id);
    assert Moved(returned, id, n + 1, AtStop) == on;
    var count := OpensTheNextFree(on, id, g);
    OneStep(s, id, 2 + count);
    StepsOn(returned, id, 1, count);
    OpenedFrom(s, id, n + 1, g, Run(on, Steps(id, count)));
  }

  /** Where in its script a keeper was before does not change what it did. */
  lemma OpenedFrom(s: Line, id: KeeperId, n: nat, g: nat, t: Line)
    requires id in s.keepers && OpenedAndAsked(Moved(s, id, n, AtStop), t, id, g)
    ensures OpenedAndAsked(s, t, id, g)
  {
    hide WallFits;
    var before := Moved(s, id, n, AtStop);
    var wall :| WallFits(before.keepers[id].script, wall, s.now)
                && t == Moved(before, id, g, Waiting).(gen := s.gen[g := {}], log := s.log + [Opened(id, g), Asked(id, g, wall, s.now)]);
    assert Moved(before, id, g, Waiting) == Moved(s, id, g, Waiting);
  }
}
