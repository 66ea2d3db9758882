/** Dispatching one declared batch in waves, each over its own selection, into one stream of receipts. */
module BatchWaves {
  import opened Text
  import opened Receipts
  import opened BatchWatch
  import opened WatchPass

  datatype Job = Job(name: string, target: string, command: string)

  /** What a target says to an offered job: taken, refused, or refused for a full quota and so held. */
  datatype Answer = Accepted(handle: string, kind: string) | Declined(reason: string) | Full(reason: string)

  /** How `fnmatchcase(name, pattern)` reads. */
  type Match = (string, string) -> bool

  predicate Named(jobs: seq<Job>, name: string) {
    exists i :: 0 <= i < |jobs| && jobs[i].name == name
  }

  /** `Selection.holds`: no pattern holds everything. */
  predicate Holds(patterns: seq<string>, name: string, matches: Match) {
    patterns == [] || exists i :: 0 <= i < |patterns| && matches(name, patterns[i])
  }

  /** A pattern naming nothing refuses the selection. */
  predicate Refuses(patterns: seq<string>, jobs: seq<Job>, matches: Match) {
    exists i :: 0 <= i < |patterns| && forall j :: 0 <= j < |jobs| ==> !matches(jobs[j].name, patterns[i])
  }

  /** A selection names `name`: it has no patterns, or some pattern of it matches. */
  ghost predicate Chosen(patterns: seq<string>, name: string, matches: Match) {
    patterns != [] ==> exists pattern :: pattern in patterns && matches(name, pattern)
  }

  /** Some pattern matches no declared job. */
  ghost predicate Mistyped(patterns: seq<string>, jobs: seq<Job>, matches: Match) {
    exists pattern :: pattern in patterns && forall job :: job in jobs ==> !matches(job.name, pattern)
  }

  lemma SelectionIs(patterns: seq<string>, name: string, jobs: seq<Job>, matches: Match)
    ensures Holds(patterns, name, matches) <==> Chosen(patterns, name, matches)
    ensures Refuses(patterns, jobs, matches) <==> Mistyped(patterns, jobs, matches)
  {
    if i :| 0 <= i < |patterns| && matches(name, patterns[i]) {
      assert patterns[i] in patterns;
    }
    if i :| 0 <= i < |patterns| && forall j :: 0 <= j < |jobs| ==> !matches(jobs[j].name, patterns[i]) {
      assert patterns[i] in patterns;
    }
    if pattern :| pattern in patterns && forall job :: job in jobs ==> !matches(job.name, pattern) {
      var i :| 0 <= i < |patterns| && patterns[i] == pattern;
      assert forall j :: 0 <= j < |jobs| ==> jobs[j] in jobs;
    }
  }

  /** What a target answers reaches the journal under its own topic: the handle of a job taken, the reason of one refused or held. */
  function OfferDraft(job: Job, answer: Answer): (draft: Draft)
    ensures draft.topic in OFFERED && draft.job == job.name && Field(draft.data, "target") == Some(Str(job.target))
    ensures answer.Accepted? ==> draft.topic == Submitted && Field(draft.data, "handle") == Some(Str(answer.handle)) && draft.run == answer.handle
    ensures answer.Accepted? ==> Field(draft.data, "kind") == Some(Str(answer.kind)) && Field(draft.data, "command") == Some(Str(job.command))
    ensures !answer.Accepted? ==> Field(draft.data, "reason") == Some(Str(answer.reason))
    ensures answer.Declined? ==> draft.topic == Refused
    ensures answer.Full? ==> draft.topic == Held
  {
    match answer
    case Accepted(handle, kind) =>
      Draft(Submitted, job.name, map["handle" := Str(handle), "target" := Str(job.target), "kind" := Str(kind), "command" := Str(job.command)], handle)
    case Declined(reason) => Draft(Refused, job.name, map["target" := Str(job.target), "reason" := Str(reason)], "")
    case Full(reason) => Draft(Held, job.name, map["target" := Str(job.target), "reason" := Str(reason)], "")
  }

  function SkipDraft(job: Job): (draft: Draft)
    ensures draft.topic == Skipped && draft.job == job.name
    ensures Field(draft.data, "target") == Some(Str(job.target)) && Field(draft.data, "reason") == Some(Str("skipped: not named by --only"))
  {
    Draft(Skipped, job.name, map["target" := Str(job.target), "reason" := Str("skipped: not named by --only")], "")
  }

  /** The chosen jobs' answers, in the plan's order. */
  function Offers(jobs: seq<Job>, patterns: seq<string>, matches: Match, answers: string -> Answer): seq<Draft> {
    if jobs == [] then []
    else
      (if Holds(patterns, jobs[0].name, matches) then [OfferDraft(jobs[0], answers(jobs[0].name))] else [])
      + Offers(jobs[1..], patterns, matches, answers)
  }

  /** The jobs a selection leaves out, recorded as skipped. */
  function Skips(jobs: seq<Job>, patterns: seq<string>, matches: Match): seq<Draft> {
    if jobs == [] then []
    else
      (if Holds(patterns, jobs[0].name, matches) then [] else [SkipDraft(jobs[0])]) + Skips(jobs[1..], patterns, matches)
  }

  function JobNames(jobs: seq<Job>): seq<string> {
    seq(|jobs|, i requires 0 <= i < |jobs| => jobs[i].name)
  }

  function OpenDraft(name: string, jobs: seq<Job>): (draft: Draft)
    ensures draft.topic == Opened && draft.job == "" && Field(draft.data, "name") == Some(Str(name))
    ensures exists names :: Field(draft.data, "jobs") == Some(Names(names)) && |names| == |jobs| && forall i :: 0 <= i < |jobs| ==> names[i] == jobs[i].name
  {
    Draft(Opened, "", map["name" := Str(name), "jobs" := Names(JobNames(jobs))], "")
  }

  /** Everything one wave publishes: the announcement when it is the first, the answers, then the skips. */
  function WaveDrafts(name: string, jobs: seq<Job>, patterns: seq<string>, matches: Match, answers: string -> Answer, first: bool): seq<Draft> {
    (if first then [OpenDraft(name, jobs)] else [])
    + Offers(jobs, patterns, matches, answers) + Skips(jobs, patterns, matches)
  }

  class Batch {
    const name: string
    const jobs: seq<Job>
    const bus: Journal
    const now: nat -> int

    constructor (name: string, jobs: seq<Job>, bus: Journal, now: nat -> int)
      ensures this.name == name && this.jobs == jobs && this.bus == bus && this.now == now
    {
      this.name, this.jobs, this.bus, this.now := name, jobs, bus, now;
    }

    method Say(draft: Draft)
      modifies bus
      ensures bus.log == Posted(old(bus.log), [draft], now, bus.batch)
    {
      bus.Publish(Event(now(|bus.log|), bus.batch, draft.topic, draft.job, draft.data));
    }

    /** Publishes the announcement onto an empty stream, and nothing onto any other. */
    method Open()
      modifies bus
      ensures bus.log == Posted(old(bus.log), if old(bus.Events()) == [] then [OpenDraft(name, jobs)] else [], now, bus.batch)
    {
      if bus.Events() == [] {
        Say(OpenDraft(name, jobs));
      }
    }

    method Dispatch(patterns: seq<string>, matches: Match, answers: string -> Answer)
      modifies bus
      ensures bus.log == Posted(old(bus.log), Offers(jobs, patterns, matches, answers), now, bus.batch)
    {
      for i := 0 to |jobs|
        invariant bus.log == Posted(old(bus.log), Offers(jobs[..i], patterns, matches, answers), now, bus.batch)
      {
        OffersNext(jobs, i, patterns, matches, answers);
        if Holds(patterns, jobs[i].name, matches) {
          Say(OfferDraft(jobs[i], answers(jobs[i].name)));
          PostedTwice(old(bus.log), Offers(jobs[..i], patterns, matches, answers), [OfferDraft(jobs[i], answers(jobs[i].name))], now, bus.batch);
        }
      }
      assert jobs[..|jobs|] == jobs;
    }

    method Skip(patterns: seq<string>, matches: Match)
      modifies bus
      ensures bus.log == Posted(old(bus.log), Skips(jobs, patterns, matches), now, bus.batch)
    {
      for i := 0 to |jobs|
        invariant bus.log == Posted(old(bus.log), Skips(jobs[..i], patterns, matches), now, bus.batch)
      {
        SkipsNext(jobs, i, patterns, matches);
        if !Holds(patterns, jobs[i].name, matches) {
          Say(SkipDraft(jobs[i]));
          PostedTwice(old(bus.log), Skips(jobs[..i], patterns, matches), [SkipDraft(jobs[i])], now, bus.batch);
        }
      }
      assert jobs[..|jobs|] == jobs;
    }

    /** Dispatches every selected job and records the rest as skipped; a selection that names nothing is refused whole. */
    method Run(patterns: seq<string>, matches: Match, answers: string -> Answer) returns (went: bool)
      modifies bus
      ensures went == !Mistyped(patterns, jobs, matches)
      ensures bus.log == if !went then old(bus.log) else
                Posted(old(bus.log), WaveDrafts(name, jobs, patterns, matches, answers, old(bus.Events()) == []), now, bus.batch)
    {
      SelectionIs(patterns, "", jobs, matches);
      went := !Refuses(patterns, jobs, matches);
      if went {
        ghost var opening := if bus.Events() == [] then [OpenDraft(name, jobs)] else [];
        Open();
        Dispatch(patterns, matches, answers);
        PostedTwice(old(bus.log), opening, Offers(jobs, patterns, matches, answers), now, bus.batch);
        Skip(patterns, matches);
        PostedTwice(old(bus.log), opening + Offers(jobs, patterns, matches, answers), Skips(jobs, patterns, matches), now, bus.batch);
      }
    }
  }

  lemma {:induction false} OffersAppend(jobs: seq<Job>, job: Job, patterns: seq<string>, matches: Match, answers: string -> Answer)
    ensures Offers(jobs + [job], patterns, matches, answers)
         == Offers(jobs, patterns, matches, answers)
            + if Holds(patterns, job.name, matches) then [OfferDraft(job, answers(job.name))] else []
  {
    hide OfferDraft, Holds;
    if jobs == [] {
      assert jobs + [job] == [job];
    } else {
      assert (jobs + [job])[1..] == jobs[1..] + [job] && (jobs + [job])[0] == jobs[0];
      OffersAppend(jobs[1..], job, patterns, matches, answers);
      var head := if Holds(patterns, jobs[0].name, matches) then [OfferDraft(jobs[0], answers(jobs[0].name))] else [];
      assert Offers(jobs + [job], patterns, matches, answers) == head + Offers(jobs[1..] + [job], patterns, matches, answers);
    }
  }

  lemma OffersNext(jobs: seq<Job>, i: nat, patterns: seq<string>, matches: Match, answers: string -> Answer)
    requires i < |jobs|
    ensures Offers(jobs[..i + 1], patterns, matches, answers)
         == Offers(jobs[..i], patterns, matches, answers)
            + if Holds(patterns, jobs[i].name, matches) then [OfferDraft(jobs[i], answers(jobs[i].name))] else []
  {
    assert jobs[..i + 1] == jobs[..i] + [jobs[i]];
    OffersAppend(jobs[..i], jobs[i], patterns, matches, answers);
  }

  lemma {:induction false} SkipsAppend(jobs: seq<Job>, job: Job, patterns: seq<string>, matches: Match)
    ensures Skips(jobs + [job], patterns, matches)
         == Skips(jobs, patterns, matches) + if Holds(patterns, job.name, matches) then [] else [SkipDraft(job)]
  {
    hide SkipDraft, Holds;
    if jobs == [] {
      assert jobs + [job] == [job];
    } else {
      assert (jobs + [job])[1..] == jobs[1..] + [job] && (jobs + [job])[0] == jobs[0];
      SkipsAppend(jobs[1..], job, patterns, matches);
      var head := if Holds(patterns, jobs[0].name, matches) then [] else [SkipDraft(jobs[0])];
      assert Skips(jobs + [job], patterns, matches) == head + Skips(jobs[1..] + [job], patterns, matches);
    }
  }

  lemma SkipsNext(jobs: seq<Job>, i: nat, patterns: seq<string>, matches: Match)
    requires i < |jobs|
    ensures Skips(jobs[..i + 1], patterns, matches)
         == Skips(jobs[..i], patterns, matches) + if Holds(patterns, jobs[i].name, matches) then [] else [SkipDraft(jobs[i])]
  {
    assert jobs[..i + 1] == jobs[..i] + [jobs[i]];
    SkipsAppend(jobs[..i], jobs[i], patterns, matches);
  }

  // ---- Any sequence of waves ----

  /** A wave over a selection, or whatever other lines reach the stream: no skip, and no answer to a job never offered. */
  datatype Turn = Wave(patterns: seq<string>, answers: string -> Answer) | Between(lines: seq<Event>)

  predicate Admissible(turn: Turn, events: seq<Event>) {
    turn.Between? ==> forall i :: 0 <= i < |turn.lines| ==>
      turn.lines[i].topic != Skipped && (turn.lines[i].topic in OFFERED ==> turn.lines[i].job in Latest(events, OFFERED))
  }

  /** A declared plan: the batch it is, its name and its jobs. */
  datatype Plan = Plan(id: string, name: string, jobs: seq<Job>)

  /** The stream after one turn; one that is not admissible, and a refused wave, publish nothing. */
  function After(events: seq<Event>, turn: Turn, plan: Plan, matches: Match, now: nat -> int): seq<Event> {
    match turn
    case Between(lines) => if Admissible(turn, events) then events + lines else events
    case Wave(patterns, answers) =>
      if Refuses(patterns, plan.jobs, matches) then events
      else Posted(events, WaveDrafts(plan.name, plan.jobs, patterns, matches, answers, events == []), now, plan.id)
  }

  /** The stream after all the turns, each with the clock it published by. */
  function AfterAll(turns: seq<Turn>, plan: Plan, matches: Match, clocks: seq<nat -> int>): seq<Event>
    requires |clocks| == |turns|
  {
    if turns == [] then []
    else
      var n := |turns| - 1;
      After(AfterAll(turns[..n], plan, matches, clocks[..n]), turns[n], plan, matches, clocks[n])
  }

  /** Some wave that went out was over `name`. */
  ghost predicate EverOffered(turns: seq<Turn>, jobs: seq<Job>, matches: Match, name: string) {
    exists i :: 0 <= i < |turns| && turns[i].Wave? && !Mistyped(turns[i].patterns, jobs, matches) && Chosen(turns[i].patterns, name, matches)
  }

  /** Some wave that went out left `name` behind. */
  ghost predicate EverLeft(turns: seq<Turn>, jobs: seq<Job>, matches: Match, name: string) {
    exists i :: 0 <= i < |turns| && turns[i].Wave? && !Mistyped(turns[i].patterns, jobs, matches) && !Chosen(turns[i].patterns, name, matches)
  }

  ghost predicate Mentions(lines: seq<Event>, topics: set<Topic>, job: string) {
    exists i :: 0 <= i < |lines| && Answers(lines[i], topics, job)
  }

  lemma {:induction false} LatestKeys(events: seq<Event>, lines: seq<Event>, topics: set<Topic>, job: string)
    ensures job in Latest(events + lines, topics) <==> job in Latest(events, topics) || Mentions(lines, topics, job)
  {
    LatestIsNewest(events, topics, job);
    LatestIsNewest(events + lines, topics, job);
    NewestIsNewest(events, Asking(topics, job));
    NewestIsNewest(events + lines, Asking(topics, job));
    var all, wanted := events + lines, Asking(topics, job);
    if Mentions(lines, topics, job) {
      var i :| 0 <= i < |lines| && Answers(lines[i], topics, job);
      assert wanted(all[|events| + i]);
    }
    if i :| 0 <= i < |events| && wanted(events[i]) {
      assert wanted(all[i]);
    }
    if i :| 0 <= i < |all| && wanted(all[i]) {
      assert if i < |events| then wanted(events[i]) else Answers(lines[i - |events|], topics, job);
    }
  }

  ghost predicate Drafted(drafts: seq<Draft>, topics: set<Topic>, job: string) {
    exists i :: 0 <= i < |drafts| && drafts[i].topic in topics && drafts[i].job == job
  }

  lemma DraftedAppend(one: seq<Draft>, two: seq<Draft>, topics: set<Topic>, job: string)
    ensures Drafted(one + two, topics, job) <==> Drafted(one, topics, job) || Drafted(two, topics, job)
  {
    var all := one + two;
    if i :| 0 <= i < |one| && one[i].topic in topics && one[i].job == job {
      assert all[i] == one[i];
    }
    if i :| 0 <= i < |two| && two[i].topic in topics && two[i].job == job {
      assert all[|one| + i] == two[i];
    }
  }

  lemma {:induction false} OffersDrafted(jobs: seq<Job>, patterns: seq<string>, matches: Match, answers: string -> Answer, job: string)
    ensures Drafted(Offers(jobs, patterns, matches, answers), OFFERED, job) <==> Named(jobs, job) && Holds(patterns, job, matches)
    ensures !Drafted(Offers(jobs, patterns, matches, answers), {Skipped}, job)
  {
    if jobs != [] {
      var head := if Holds(patterns, jobs[0].name, matches) then [OfferDraft(jobs[0], answers(jobs[0].name))] else [];
      DraftedAppend(head, Offers(jobs[1..], patterns, matches, answers), OFFERED, job);
      DraftedAppend(head, Offers(jobs[1..], patterns, matches, answers), {Skipped}, job);
      OffersDrafted(jobs[1..], patterns, matches, answers, job);
      NamedSplit(jobs, job);
      assert Drafted(head, OFFERED, job) <==> jobs[0].name == job && Holds(patterns, job, matches) by {
        if head != [] { assert head[0].topic in OFFERED && head[0].job == jobs[0].name; }
      }
    }
  }

  lemma NamedSplit(jobs: seq<Job>, name: string)
    requires jobs != []
    ensures Named(jobs, name) <==> jobs[0].name == name || Named(jobs[1..], name)
  {
    if i :| 0 <= i < |jobs[1..]| && jobs[1..][i].name == name {
      assert jobs[i + 1].name == name;
    }
    if i :| 0 < i < |jobs| && jobs[i].name == name {
      assert jobs[1..][i - 1].name == name;
    }
  }

  lemma {:induction false} SkipsDrafted(jobs: seq<Job>, patterns: seq<string>, matches: Match, job: string)
    ensures Drafted(Skips(jobs, patterns, matches), {Skipped}, job) <==> Named(jobs, job) && !Holds(patterns, job, matches)
    ensures !Drafted(Skips(jobs, patterns, matches), OFFERED, job)
  {
    if jobs != [] {
      var head := if Holds(patterns, jobs[0].name, matches) then [] else [SkipDraft(jobs[0])];
      DraftedAppend(head, Skips(jobs[1..], patterns, matches), {Skipped}, job);
      DraftedAppend(head, Skips(jobs[1..], patterns, matches), OFFERED, job);
      SkipsDrafted(jobs[1..], patterns, matches, job);
      NamedSplit(jobs, job);
      assert Drafted(head, {Skipped}, job) <==> jobs[0].name == job && !Holds(patterns, job, matches) by {
        if head != [] { assert head[0].topic == Skipped && head[0].job == jobs[0].name; }
      }
    }
  }

  /** A wave answers for exactly the declared jobs it chose, and skips exactly the rest. */
  lemma WaveDrafted(name: string, jobs: seq<Job>, patterns: seq<string>, matches: Match, answers: string -> Answer, first: bool, job: string)
    ensures Drafted(WaveDrafts(name, jobs, patterns, matches, answers, first), OFFERED, job)
       <==> Named(jobs, job) && Chosen(patterns, job, matches)
    ensures Drafted(WaveDrafts(name, jobs, patterns, matches, answers, first), {Skipped}, job)
       <==> Named(jobs, job) && !Chosen(patterns, job, matches)
  {
    SelectionIs(patterns, job, jobs, matches);
    var opening := if first then [OpenDraft(name, jobs)] else [];
    var offers, skips := Offers(jobs, patterns, matches, answers), Skips(jobs, patterns, matches);
    OffersDrafted(jobs, patterns, matches, answers, job);
    SkipsDrafted(jobs, patterns, matches, job);
    DraftedAppend(opening + offers, skips, OFFERED, job);
    DraftedAppend(opening + offers, skips, {Skipped}, job);
    DraftedAppend(opening, offers, OFFERED, job);
    DraftedAppend(opening, offers, {Skipped}, job);
  }

  lemma StampMentions(drafts: seq<Draft>, lines: seq<Event>, topics: set<Topic>, job: string)
    requires Publishes(lines, drafts)
    ensures Mentions(lines, topics, job) <==> Drafted(drafts, topics, job)
  {
    if i :| 0 <= i < |drafts| && drafts[i].topic in topics && drafts[i].job == job {
      assert Answers(lines[i], topics, job);
    }
    if i :| 0 <= i < |lines| && Answers(lines[i], topics, job) {
      assert drafts[i].topic in topics && drafts[i].job == job;
    }
  }

  lemma EverSplit(turns: seq<Turn>, jobs: seq<Job>, matches: Match, name: string)
    requires turns != []
    ensures var last := turns[|turns| - 1];
            EverOffered(turns, jobs, matches, name)
            <==> EverOffered(turns[..|turns| - 1], jobs, matches, name)
                 || (last.Wave? && !Mistyped(last.patterns, jobs, matches) && Chosen(last.patterns, name, matches))
    ensures var last := turns[|turns| - 1];
            EverLeft(turns, jobs, matches, name)
            <==> EverLeft(turns[..|turns| - 1], jobs, matches, name)
                 || (last.Wave? && !Mistyped(last.patterns, jobs, matches) && !Chosen(last.patterns, name, matches))
  {
    var before := turns[..|turns| - 1];
    assert forall i :: 0 <= i < |before| ==> before[i] == turns[i];
  }

  /** Whose answers and skips the stream holds: exactly the jobs some wave was over, and some wave left behind. */
  lemma {:induction false} StreamHolds(turns: seq<Turn>, plan: Plan, matches: Match, clocks: seq<nat -> int>, job: string)
    requires |clocks| == |turns|
    ensures var events, jobs := AfterAll(turns, plan, matches, clocks), plan.jobs;
            && (job in Latest(events, OFFERED) <==> Named(jobs, job) && EverOffered(turns, jobs, matches, job))
            && (job in Latest(events, {Skipped}) <==> Named(jobs, job) && EverLeft(turns, jobs, matches, job))
  {
    if turns != [] {
      var n := |turns| - 1;
      StreamHolds(turns[..n], plan, matches, clocks[..n], job);
      EverSplit(turns, plan.jobs, matches, job);
      TurnHolds(AfterAll(turns[..n], plan, matches, clocks[..n]), turns[n], plan, matches, clocks[n], job);
    }
  }

  lemma TurnHolds(events: seq<Event>, turn: Turn, plan: Plan, matches: Match, now: nat -> int, job: string)
    ensures var jobs, after := plan.jobs, After(events, turn, plan, matches, now);
            var went := turn.Wave? && !Mistyped(turn.patterns, jobs, matches);
            && (job in Latest(after, OFFERED)
                <==> job in Latest(events, OFFERED) || (went && Named(jobs, job) && Chosen(turn.patterns, job, matches)))
            && (job in Latest(after, {Skipped})
                <==> job in Latest(events, {Skipped}) || (went && Named(jobs, job) && !Chosen(turn.patterns, job, matches)))
  {
    match turn
    case Between(lines) =>
      if Admissible(turn, events) {
        LatestKeys(events, lines, OFFERED, job);
        LatestKeys(events, lines, {Skipped}, job);
      }
    case Wave(patterns, answers) =>
      SelectionIs(patterns, job, plan.jobs, matches);
      var drafts := WaveDrafts(plan.name, plan.jobs, patterns, matches, answers, events == []);
      var lines := Stamp(drafts, |events|, now, plan.id);
      WaveDrafted(plan.name, plan.jobs, patterns, matches, answers, events == [], job);
      StampMentions(drafts, lines, OFFERED, job);
      StampMentions(drafts, lines, {Skipped}, job);
      LatestKeys(events, lines, OFFERED, job);
      LatestKeys(events, lines, {Skipped}, job);
  }

  // ---- The status ----

  function StatusRows(events: seq<Event>, sweep: Sweep): seq<Row> {
    Rows(events, Jobs(events, OFFERED), sweep) + Unselected(events)
  }

  lemma {:induction false} LeftAre(events: seq<Event>, jobs: seq<string>)
    requires forall job :: job in jobs ==> job in Latest(events, {Skipped})
    ensures forall i :: 0 <= i < |Left(events, jobs)| ==>
              var row := Left(events, jobs)[i]; row.job in jobs && row.job !in Latest(events, OFFERED) && row.verdict == SKIPPED
  {
    hide Latest;
    if jobs != [] {
      LeftAre(events, jobs[1..]);
    }
  }

  lemma {:induction false} LeftHas(events: seq<Event>, jobs: seq<string>, job: string)
    requires forall job :: job in jobs ==> job in Latest(events, {Skipped})
    requires job in jobs && job !in Latest(events, OFFERED)
    ensures HasRow(Left(events, jobs), job)
  {
    hide Latest;
    var rest, rows := Left(events, jobs[1..]), Left(events, jobs);
    if job == jobs[0] {
      assert rows[0].job == job;
    } else {
      LeftHas(events, jobs[1..], job);
      var i :| 0 <= i < |rest| && rest[i].job == job;
      assert rows[|rows| - |rest| + i] == rest[i];
    }
  }

  lemma {:induction false} LeftOnce(events: seq<Event>, jobs: seq<string>)
    requires forall job :: job in jobs ==> job in Latest(events, {Skipped})
    requires forall i, j :: 0 <= i < j < |jobs| ==> jobs[i] != jobs[j]
    ensures forall i, j :: 0 <= i < j < |Left(events, jobs)| ==> Left(events, jobs)[i].job != Left(events, jobs)[j].job
  {
    hide Latest;
    if jobs != [] {
      LeftOnce(events, jobs[1..]);
      LeftAre(events, jobs[1..]);
    }
  }

  /** The rows of the jobs left out: each once, over from the start, and of no job that was offered. */
  lemma LeftRows(events: seq<Event>, jobs: seq<string>)
    requires forall job :: job in jobs ==> job in Latest(events, {Skipped})
    requires forall i, j :: 0 <= i < j < |jobs| ==> jobs[i] != jobs[j]
    ensures var rows := Left(events, jobs);
            && (forall i :: 0 <= i < |rows| ==> rows[i].job in jobs && rows[i].job !in Latest(events, OFFERED) && rows[i].verdict == SKIPPED)
            && (forall i, j :: 0 <= i < j < |rows| ==> rows[i].job != rows[j].job)
            && (forall job :: job in jobs && job !in Latest(events, OFFERED) ==> HasRow(rows, job))
  {
    hide Latest, HasRow;
    LeftAre(events, jobs);
    LeftOnce(events, jobs);
    forall job | job in jobs && job !in Latest(events, OFFERED) ensures HasRow(Left(events, jobs), job) {
      LeftHas(events, jobs, job);
    }
  }

  /** No run the registry holds reads skipped, which is no word a backend reports. */
  predicate Ran(sweep: Sweep) {
    forall key :: key in sweep.registry ==> sweep.registry[key].verdict != SKIPPED
  }

  lemma AnsweredRan(job: string, answer: Event, sweep: Sweep)
    requires Ran(sweep)
    ensures Answered(job, answer, sweep).verdict != SKIPPED
  {
  }

  /** One row for every declared job, none for another, and it reads skipped exactly when no wave ever offered the job. */
  ghost predicate Complete(rows: seq<Row>, turns: seq<Turn>, jobs: seq<Job>, matches: Match) {
    && (forall i, j :: 0 <= i < j < |rows| ==> rows[i].job != rows[j].job)
    && (forall i :: 0 <= i < |rows| ==>
          && Named(jobs, rows[i].job)
          && (rows[i].verdict == SKIPPED <==> !EverOffered(turns, jobs, matches, rows[i].job)))
    && (forall j :: 0 <= j < |jobs| ==> HasRow(rows, jobs[j].name))
  }

  ghost predicate HasRow(rows: seq<Row>, job: string) {
    exists i :: 0 <= i < |rows| && rows[i].job == job
  }

  /** Some wave went out. */
  ghost predicate Went(turns: seq<Turn>, jobs: seq<Job>, matches: Match) {
    exists i :: 0 <= i < |turns| && turns[i].Wave? && !Mistyped(turns[i].patterns, jobs, matches)
  }

  lemma RowIsOf(events: seq<Event>, sweep: Sweep, i: nat)
    requires Ran(sweep) && i < |StatusRows(events, sweep)|
    ensures var row, answered := StatusRows(events, sweep)[i], |Jobs(events, OFFERED)|;
            && (i < answered ==> row.job == Jobs(events, OFFERED)[i] && row.job in Latest(events, OFFERED) && row.verdict != SKIPPED)
            && (i >= answered ==>
                  && row == Unselected(events)[i - answered] && row.verdict == SKIPPED
                  && row.job in Latest(events, {Skipped}) && row.job !in Latest(events, OFFERED))
  {
    hide Latest, Answered, Ran, Rows;
    var jobs := Jobs(events, OFFERED);
    LeftRows(events, Jobs(events, {Skipped}));
    if i < |jobs| {
      assert jobs[i] in jobs;
      AnsweredRan(jobs[i], Latest(events, OFFERED)[jobs[i]], sweep);
    } else {
      var left, row := Left(events, Jobs(events, {Skipped})), StatusRows(events, sweep)[i];
      assert left == Unselected(events) && row == left[i - |jobs|];
      assert row.job in Jobs(events, {Skipped});
    }
  }

  /**
   After any waves over one spec, whatever their selections and their answers and whatever lines come
   between, with one wave at least having gone out, the status is complete.
   */
  lemma StatusIsComplete(turns: seq<Turn>, plan: Plan, matches: Match, clocks: seq<nat -> int>, sweep: Sweep)
    requires |clocks| == |turns| && Ran(sweep) && Went(turns, plan.jobs, matches)
    ensures Complete(StatusRows(AfterAll(turns, plan, matches, clocks), sweep), turns, plan.jobs, matches)
  {
    hide AfterAll, Latest, Jobs, Left, Answered, EverOffered, HasRow, Named, Chosen, Mistyped, Went;
    var events, jobs := AfterAll(turns, plan, matches, clocks), plan.jobs;
    var rows, offered := StatusRows(events, sweep), Jobs(events, OFFERED);
    LeftRows(events, Jobs(events, {Skipped}));
    forall i | 0 <= i < |rows|
      ensures Named(jobs, rows[i].job) && (rows[i].verdict == SKIPPED <==> !EverOffered(turns, jobs, matches, rows[i].job))
    {
      RowIsOf(events, sweep, i);
      StreamHolds(turns, plan, matches, clocks, rows[i].job);
    }
    forall i, j | 0 <= i < j < |rows| ensures rows[i].job != rows[j].job {
      RowIsOf(events, sweep, i);
      RowIsOf(events, sweep, j);
    }
    forall j | 0 <= j < |jobs| ensures HasRow(rows, jobs[j].name) {
      JobHasARow(turns, plan, matches, clocks, sweep, j);
    }
  }

  lemma JobHasARow(turns: seq<Turn>, plan: Plan, matches: Match, clocks: seq<nat -> int>, sweep: Sweep, j: nat)
    requires |clocks| == |turns| && j < |plan.jobs| && Went(turns, plan.jobs, matches)
    ensures HasRow(StatusRows(AfterAll(turns, plan, matches, clocks), sweep), plan.jobs[j].name)
  {
    hide AfterAll, Latest, Jobs, Left, Chosen, Mistyped, Answered, StatusRows, HasRow;
    var jobs, job := plan.jobs, plan.jobs[j].name;
    StreamHolds(turns, plan, matches, clocks, job);
    var w :| 0 <= w < |turns| && turns[w].Wave? && !Mistyped(turns[w].patterns, jobs, matches);
    assert Named(jobs, job);
    assert EverOffered(turns, jobs, matches, job) || EverLeft(turns, jobs, matches, job);
    SpokenOfHasARow(AfterAll(turns, plan, matches, clocks), sweep, job);
  }

  lemma SpokenOfHasARow(events: seq<Event>, sweep: Sweep, job: string)
    requires job in Latest(events, OFFERED) || job in Latest(events, {Skipped})
    ensures HasRow(StatusRows(events, sweep), job)
  {
    hide Latest, Answered;
    var rows, offered, left := StatusRows(events, sweep), Jobs(events, OFFERED), Left(events, Jobs(events, {Skipped}));
    if job in Latest(events, OFFERED) {
      assert job in offered;
      var i :| 0 <= i < |offered| && offered[i] == job;
      assert rows[i].job == job;
    } else {
      LeftRows(events, Jobs(events, {Skipped}));
      assert job in Jobs(events, {Skipped});
      var i :| 0 <= i < |left| && left[i].job == job;
      assert rows[|offered| + i] == left[i];
    }
  }

  lemma {:induction false} OnlyOffers(jobs: seq<Job>, patterns: seq<string>, matches: Match, answers: string -> Answer)
    ensures forall i :: 0 <= i < |Offers(jobs, patterns, matches, answers)| ==> Offers(jobs, patterns, matches, answers)[i].topic in OFFERED
  {
    if jobs != [] {
      OnlyOffers(jobs[1..], patterns, matches, answers);
    }
  }

  lemma {:induction false} OnlySkips(jobs: seq<Job>, patterns: seq<string>, matches: Match)
    ensures forall i :: 0 <= i < |Skips(jobs, patterns, matches)| ==> Skips(jobs, patterns, matches)[i].topic == Skipped
  {
    if jobs != [] {
      OnlySkips(jobs[1..], patterns, matches);
    }
  }

  lemma DraftTopics(name: string, jobs: seq<Job>, patterns: seq<string>, matches: Match, answers: string -> Answer, first: bool, k: nat)
    requires k < |WaveDrafts(name, jobs, patterns, matches, answers, first)|
    ensures var topic := WaveDrafts(name, jobs, patterns, matches, answers, first)[k].topic;
            (topic == Opened <==> first && k == 0) && topic in OFFERED + {Opened, Skipped}
  {
    hide Offers, Skips;
    var offers, skips := Offers(jobs, patterns, matches, answers), Skips(jobs, patterns, matches);
    OnlyOffers(jobs, patterns, matches, answers);
    OnlySkips(jobs, patterns, matches);
    var opening, rest: seq<Draft> := if first then [OpenDraft(name, jobs)] else [], offers + skips;
    assert WaveDrafts(name, jobs, patterns, matches, answers, first) == opening + rest;
    if k >= |opening| {
      assert rest[k - |opening|].topic in OFFERED + {Skipped};
    }
  }

  lemma WentOut(events: seq<Event>, plan: Plan, patterns: seq<string>, answers: string -> Answer, matches: Match, now: nat -> int)
    requires !Mistyped(patterns, plan.jobs, matches)
    ensures After(events, Wave(patterns, answers), plan, matches, now)
         == events + Stamp(WaveDrafts(plan.name, plan.jobs, patterns, matches, answers, events == []), |events|, now, plan.id)
  {
    hide WaveDrafts, Mistyped, Refuses, Stamp;
    SelectionIs(patterns, "", plan.jobs, matches);
  }

  /** A wave that goes out is announced, by its first line, exactly when nothing was said before; then come its answers and its skips. */
  lemma AnnouncedFirst(events: seq<Event>, plan: Plan, patterns: seq<string>, answers: string -> Answer, matches: Match, now: nat -> int, i: nat)
    requires !Mistyped(patterns, plan.jobs, matches)
    requires |events| <= i < |After(events, Wave(patterns, answers), plan, matches, now)|
    ensures var stream := After(events, Wave(patterns, answers), plan, matches, now);
            && events <= stream && stream[i].batch == plan.id && stream[i].at == now(i)
            && (stream[i].topic == Opened <==> i == 0)
            && stream[i].topic in OFFERED + {Opened, Skipped}
  {
    hide WaveDrafts, Mistyped, After, Stamp, OFFERED;
    WentOut(events, plan, patterns, answers, matches, now);
    var drafts := WaveDrafts(plan.name, plan.jobs, patterns, matches, answers, events == []);
    var lines := Stamp(drafts, |events|, now, plan.id);
    var k := i - |events|;
    DraftTopics(plan.name, plan.jobs, patterns, matches, answers, events == [], k);
    assert (events + lines)[i] == lines[k];
  }

  // ---- The same over the journal everyone shares ----

  lemma {:induction false} ReplayConcat(log: seq<Event>, lines: seq<Event>, batch: string)
    ensures Replay(log + lines, batch) == Replay(log, batch) + Replay(lines, batch)
    decreases |lines|
  {
    if lines == [] {
      assert log + lines == log;
    } else {
      var n := |lines| - 1;
      assert log + lines == log + lines[..n] + [lines[n]];
      ReplayAppend(log + lines[..n], lines[n], batch);
      ReplayConcat(log, lines[..n], batch);
    }
  }

  lemma {:induction false} ReplayOwn(lines: seq<Event>, batch: string)
    requires forall i :: 0 <= i < |lines| ==> lines[i].batch == batch
    ensures Replay(lines, batch) == lines
  {
    if lines != [] {
      ReplayOwn(lines[..|lines| - 1], batch);
    }
  }

  /** The journal's clock, read by positions in a stream of `length` lines within a log of `total`. */
  function Shifted(now: nat -> int, length: nat, total: nat): nat -> int {
    (k: nat) => if k < length then 0 else now(total + (k - length))
  }

  /** What is published onto the journal joins the stream, by the clock as the stream sees it. */
  lemma PostedJoinsTheStream(log: seq<Event>, drafts: seq<Draft>, now: nat -> int, batch: string)
    ensures Replay(Posted(log, drafts, now, batch), batch)
         == Posted(Replay(log, batch), drafts, Shifted(now, |Replay(log, batch)|, |log|), batch)
  {
    hide Replay, Stamp, Publishes;
    var lines := Stamp(drafts, |log|, now, batch);
    ReplayConcat(log, lines, batch);
    ReplayOwn(lines, batch);
    StampShifted(drafts, now, |Replay(log, batch)|, |log|, batch);
  }

  lemma StampShifted(drafts: seq<Draft>, now: nat -> int, length: nat, total: nat, batch: string)
    ensures Stamp(drafts, total, now, batch) == Stamp(drafts, length, Shifted(now, length, total), batch)
  {
    var one, two := Stamp(drafts, total, now, batch), Stamp(drafts, length, Shifted(now, length, total), batch);
    forall i | 0 <= i < |drafts| ensures one[i] == two[i] {
      assert Shifted(now, length, total)(length + i) == now(total + i);
    }
  }

  /** The lines others publish are this batch's. */
  predicate OfBatch(turns: seq<Turn>, batch: string) {
    forall i :: 0 <= i < |turns| && turns[i].Between? ==> forall k :: 0 <= k < |turns[i].lines| ==> turns[i].lines[k].batch == batch
  }

  lemma NextTurn(turns: seq<Turn>, i: nat, plan: Plan, matches: Match, clocks: seq<nat -> int>, now: nat -> int)
    requires i < |turns| && |clocks| == i
    ensures AfterAll(turns[..i + 1], plan, matches, clocks + [now])
         == After(AfterAll(turns[..i], plan, matches, clocks), turns[i], plan, matches, now)
  {
    assert turns[..i + 1][..i] == turns[..i] && (clocks + [now])[..i] == clocks;
  }

  /** One turn over the journal: a wave of the batch's, or anyone else's lines when they are admissible. */
  method Take(batch: Batch, turn: Turn, matches: Match)
    requires turn.Between? ==> forall k :: 0 <= k < |turn.lines| ==> turn.lines[k].batch == batch.bus.batch
    modifies batch.bus
    ensures batch.bus.Events()
         == After(old(batch.bus.Events()), turn, Plan(batch.bus.batch, batch.name, batch.jobs), matches,
                  Shifted(batch.now, |old(batch.bus.Events())|, |old(batch.bus.log)|))
  {
    ghost var log := batch.bus.log;
    match turn
    case Wave(patterns, answers) =>
      SelectionIs(patterns, "", batch.jobs, matches);
      var went := batch.Run(patterns, matches, answers);
      PostedJoinsTheStream(log, WaveDrafts(batch.name, batch.jobs, patterns, matches, answers, Replay(log, batch.bus.batch) == []), batch.now, batch.bus.batch);
    case Between(lines) =>
      ReplayConcat(log, lines, batch.bus.batch);
      ReplayOwn(lines, batch.bus.batch);
      if Admissible(turn, batch.bus.Events()) {
        batch.bus.PublishAll(lines);
      }
  }

  /**
   Any waves of one batch over the journal it shares, any lines of others in between, then one pass of its
   watch: the status it answers is complete as soon as one wave went out.
   */
  method WaveByWave(batch: Batch, watch: Watch, turns: seq<Turn>, matches: Match, sweep: Sweep, figures: Row -> Data) returns (status: Status)
    requires watch.bus == batch.bus && batch.bus.Events() == [] && OfBatch(turns, batch.bus.batch)
    requires Ran(sweep)
    modifies batch.bus
    ensures Went(turns, batch.jobs, matches) ==> Complete(status.rows, turns, batch.jobs, matches)
  {
    hide Complete, After, Went, AfterAll, Ran;
    ghost var plan, clocks := Plan(batch.bus.batch, batch.name, batch.jobs), [];
    assert turns[..0] == [] && AfterAll([], plan, matches, []) == [] by { NoTurns(plan, matches); }
    for i := 0 to |turns|
      invariant |clocks| == i && batch.bus.Events() == AfterAll(turns[..i], plan, matches, clocks)
    {
      ghost var now := Shifted(batch.now, |batch.bus.Events()|, |batch.bus.log|);
      Take(batch, turns[i], matches);
      NextTurn(turns, i, plan, matches, clocks, now);
      clocks := clocks + [now];
    }
    assert turns[..|turns|] == turns;
    ghost var events := batch.bus.Events();
    status := watch.Once(sweep, figures);
    if Went(turns, batch.jobs, matches) {
      StatusIsComplete(turns, plan, matches, clocks, sweep);
    }
  }

  lemma NoTurns(plan: Plan, matches: Match)
    ensures AfterAll([], plan, matches, []) == []
  {
  }
}
