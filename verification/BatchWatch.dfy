/**
 Watching a batch by its journal alone. A pass replays the journal, renders a row per job and
 publishes only what moved. It may die after any of its publishes, and the targets' answers go on
 arriving in the journal meanwhile.
 */
module BatchWatch {
  import opened Text
  import opened Receipts

  const RUNNING := "running"
  const HELD := "held"
  const VANISHED := "vanished"
  const UNKNOWN := "unknown"
  const SKIPPED := "skipped"
  const OK := "ok"

  /** The words settled for good: the ones `vocabulary` lets move nowhere. */
  const SETTLED_WORDS: set<string> := {OK, "failed", VANISHED, UNKNOWN, "timeout", "cancelled", SKIPPED}

  /** What a pass shows of a job: where it went and how it stands. */
  datatype Row = Row(job: string, target: string, handle: string, state: string, verdict: string, detail: string)

  /** What the run registry holds of a handle, empty where it has nothing. */
  datatype Record = Record(state: string, verdict: string)

  /** One settling sweep: the registry by handle and target, and what it said about a handle. */
  datatype Sweep = Sweep(registry: map<(string, string), Record>, said: map<string, string>)

  /** A line about to be published. `run` is the handle of the row it is about; no reader sees it. */
  datatype Draft = Draft(topic: Topic, job: string, data: Data, run: string)

  /** A published line, with the run it was published about. */
  datatype Line = Line(event: Event, run: string)

  function TextOf(data: Data, key: string): string {
    if key in data && data[key].Str? then data[key].text else ""
  }

  /** The handle an answer carries, empty for a refusal and a hold. */
  function HandleOf(answer: Event): string {
    if answer.topic == Submitted then TextOf(answer.data, "handle") else ""
  }

  /** The row of a submitted job: the registry's word on its handle, unknown when it has none. */
  function StatusOf(job: string, submitted: Event, sweep: Sweep): Row {
    var handle, target := TextOf(submitted.data, "handle"), TextOf(submitted.data, "target");
    if (handle, target) !in sweep.registry
    then Row(job, target, handle, "", UNKNOWN, "the run registry has no record of this handle")
    else
      var record := sweep.registry[(handle, target)];
      Row(job, target, handle, record.state, if record.verdict == "" then RUNNING else record.verdict,
          if handle in sweep.said then sweep.said[handle] else "")
  }

  /** A job's row by what its target last said: over when refused, in flight when held, else as the registry has it. */
  function Answered(job: string, answer: Event, sweep: Sweep): (row: Row)
    ensures row.job == job && (answer.topic in OFFERED ==> row.handle == HandleOf(answer))
    ensures answer.topic == Held ==> row.verdict !in SETTLED_WORDS
    ensures answer.topic == Refused ==> row.verdict in SETTLED_WORDS
  {
    var target, reason := TextOf(answer.data, "target"), TextOf(answer.data, "reason");
    if answer.topic == Refused then Row(job, target, "", "", VANISHED, reason)
    else if answer.topic == Held then Row(job, target, "", HELD, HELD, "waiting on the target's quota: " + reason)
    else StatusOf(job, answer, sweep)
  }

  /** The jobs `topics` speak of, each once, in the order they first do. */
  function Jobs(events: seq<Event>, topics: set<Topic>): (jobs: seq<string>)
    ensures forall i, j :: 0 <= i < j < |jobs| ==> jobs[i] != jobs[j]
    ensures forall job :: job in jobs <==> job in Latest(events, topics)
  {
    if events == [] then []
    else
      var before, last := Jobs(events[..|events| - 1], topics), events[|events| - 1];
      if last.topic in topics && last.job !in before then before + [last.job] else before
  }

  /** The rows of every job offered. */
  function Rows(events: seq<Event>, jobs: seq<string>, sweep: Sweep): (rows: seq<Row>)
    requires forall job :: job in jobs ==> job in Latest(events, OFFERED)
    ensures |rows| == |jobs|
    ensures forall i :: 0 <= i < |jobs| ==> rows[i] == Answered(jobs[i], Latest(events, OFFERED)[jobs[i]], sweep)
  {
    seq(|jobs|, i requires 0 <= i < |jobs| => Answered(jobs[i], Latest(events, OFFERED)[jobs[i]], sweep))
  }

  /** The rows of the jobs that were skipped and never offered. */
  function Unselected(events: seq<Event>): seq<Row> {
    Left(events, Jobs(events, {Skipped}))
  }

  function Left(events: seq<Event>, jobs: seq<string>): seq<Row>
    requires forall job :: job in jobs ==> job in Latest(events, {Skipped})
  {
    if jobs == [] then []
    else
      var event := Latest(events, {Skipped})[jobs[0]];
      (if jobs[0] in Latest(events, OFFERED) then []
       else [Row(jobs[0], TextOf(event.data, "target"), "", "", SKIPPED, TextOf(event.data, "reason"))])
      + Left(events, jobs[1..])
  }

  /** What was last published of a job under one topic. */
  function Seen(events: seq<Event>, topic: Topic, job: string): Option<Event> {
    Lookup(Latest(events, {topic}), job)
  }

  /** The row says something its last state line does not. */
  predicate Moved(row: Row, events: seq<Event>) {
    var seen := Seen(events, State, row.job);
    seen.None? || Field(seen.value.data, "handle") != Some(Str(row.handle)) || Field(seen.value.data, "verdict") != Some(Str(row.verdict))
  }

  /** The row settles in this pass: over, and its run not settled before. */
  predicate Settles(row: Row, events: seq<Event>) {
    var settled := Seen(events, Settled, row.job);
    row.verdict in SETTLED_WORDS && (settled.None? || Field(settled.value.data, "handle") != Some(Str(row.handle)))
  }

  function StateDraft(row: Row): Draft {
    Draft(State, row.job, map["handle" := Str(row.handle), "state" := Str(row.state), "verdict" := Str(row.verdict)], row.handle)
  }

  function SettledDraft(row: Row): Draft {
    Draft(Settled, row.job, map["handle" := Str(row.handle), "verdict" := Str(row.verdict), "detail" := Str(row.detail)], row.handle)
  }

  /** `record`: what is published about one row, the cost before the terminal line. */
  function Recorded(row: Row, events: seq<Event>, figures: Row -> Data): seq<Draft> {
    (if Moved(row, events) then [StateDraft(row)] else [])
    + if Settles(row, events) then [Draft(Cost, row.job, figures(row), row.handle), SettledDraft(row)] else []
  }

  function AllRecorded(rows: seq<Row>, events: seq<Event>, figures: Row -> Data): seq<Draft> {
    if rows == [] then [] else Recorded(rows[0], events, figures) + AllRecorded(rows[1..], events, figures)
  }

  function Tally(rows: seq<Row>, verdicts: set<string>): nat {
    if rows == [] then 0 else (if rows[0].verdict in verdicts then 1 else 0) + Tally(rows[1..], verdicts)
  }

  function Failures(rows: seq<Row>): nat {
    if rows == [] then 0 else (if rows[0].verdict !in {OK, SKIPPED} then 1 else 0) + Failures(rows[1..])
  }

  /** The counts `batch.closed` announces. */
  function Counts(rows: seq<Row>): Data {
    map["jobs" := Num(|rows| as real), "ok" := Num(Tally(rows, {OK}) as real),
        "failed" := Num(Failures(rows) as real), "skipped" := Num(Tally(rows, {SKIPPED}) as real)]
  }

  /** The three counts of a closing line add up to its jobs. */
  lemma {:induction false} CountsAddUp(rows: seq<Row>)
    ensures Tally(rows, {OK}) + Failures(rows) + Tally(rows, {SKIPPED}) == |rows|
  {
    if rows != [] {
      CountsAddUp(rows[1..]);
    }
  }

  /** Some row settles in this pass. */
  predicate Lands(rows: seq<Row>, events: seq<Event>) {
    exists i :: 0 <= i < |rows| && Settles(rows[i], events)
  }

  /** Everything a pass over `events` publishes, in order. */
  function Pass(events: seq<Event>, sweep: Sweep, figures: Row -> Data): seq<Draft> {
    var rows := Rows(events, Jobs(events, OFFERED), sweep);
    var landed := Lands(rows, events);
    var over := forall i :: 0 <= i < |rows| ==> rows[i].verdict in SETTLED_WORDS;
    AllRecorded(rows, events, figures)
    + if landed && over then [Draft(Closed, "", Counts(rows + Unselected(events)), "")] else []
  }

  // ---- Drafts of one job ----

  /** The drafts of `job` under `topics`, in order. */
  function Of(drafts: seq<Draft>, topics: set<Topic>, job: string): seq<Draft> {
    if drafts == [] then []
    else (if drafts[0].topic in topics && drafts[0].job == job then [drafts[0]] else []) + Of(drafts[1..], topics, job)
  }

  lemma {:induction false} OfAppend(one: seq<Draft>, two: seq<Draft>, topics: set<Topic>, job: string)
    ensures Of(one + two, topics, job) == Of(one, topics, job) + Of(two, topics, job)
  {
    if one == [] {
      assert one + two == two;
    } else {
      assert (one + two)[1..] == one[1..] + two;
      OfAppend(one[1..], two, topics, job);
    }
  }

  lemma DraftTopics(row: Row)
    ensures StateDraft(row).topic == State && StateDraft(row).job == row.job
    ensures SettledDraft(row).topic == Settled && SettledDraft(row).job == row.job
  {
  }

  lemma OfRecorded(row: Row, events: seq<Event>, figures: Row -> Data, topics: set<Topic>, job: string)
    requires Closed !in topics
    ensures row.job != job ==> Of(Recorded(row, events, figures), topics, job) == []
    ensures row.job == job ==>
              (Of(Recorded(row, events, figures), topics, job)
               == (if Moved(row, events) && State in topics then [StateDraft(row)] else [])
                + (if Settles(row, events) && Cost in topics then [Draft(Cost, row.job, figures(row), row.handle)] else [])
                + (if Settles(row, events) && Settled in topics then [SettledDraft(row)] else []))
  {
    hide Moved, Settles, StateDraft, SettledDraft;
    DraftTopics(row);
    var state := if Moved(row, events) then [StateDraft(row)] else [];
    var end := if Settles(row, events) then [Draft(Cost, row.job, figures(row), row.handle), SettledDraft(row)] else [];
    OfAppend(state, end, topics, job);
    if Settles(row, events) {
      assert end == [end[0]] + [end[1]];
      OfAppend([end[0]], [end[1]], topics, job);
    }
  }

  /** Of all the rows' drafts, a job's are the ones of its own row. */
  lemma {:induction false} OfAllRecorded(rows: seq<Row>, events: seq<Event>, figures: Row -> Data, topics: set<Topic>, job: string)
    requires Closed !in topics
    requires forall i, j :: 0 <= i < j < |rows| ==> rows[i].job != rows[j].job
    ensures (forall i :: 0 <= i < |rows| ==> rows[i].job != job) ==> Of(AllRecorded(rows, events, figures), topics, job) == []
    ensures forall i :: 0 <= i < |rows| && rows[i].job == job ==>
              Of(AllRecorded(rows, events, figures), topics, job) == Of(Recorded(rows[i], events, figures), topics, job)
  {
    if rows != [] {
      OfAppend(Recorded(rows[0], events, figures), AllRecorded(rows[1..], events, figures), topics, job);
      OfAllRecorded(rows[1..], events, figures, topics, job);
      OfRecorded(rows[0], events, figures, topics, job);
      forall i | 0 <= i < |rows| && rows[i].job == job
        ensures Of(AllRecorded(rows, events, figures), topics, job) == Of(Recorded(rows[i], events, figures), topics, job)
      {
        if i > 0 {
          assert rows[1..][i - 1] == rows[i] && rows[0].job != job;
        } else {
          assert forall k :: 0 <= k < |rows[1..]| ==> rows[1..][k] == rows[k + 1];
        }
      }
    }
  }

  /** A closing line is about no job's run. */
  lemma OfClosing(events: seq<Event>, sweep: Sweep, figures: Row -> Data, topics: set<Topic>, job: string)
    requires Closed !in topics
    ensures Of(Pass(events, sweep, figures), topics, job)
         == Of(AllRecorded(Rows(events, Jobs(events, OFFERED), sweep), events, figures), topics, job)
  {
    hide Lands, Counts, Latest, AllRecorded, Jobs, Rows, Unselected;
    var recorded := AllRecorded(Rows(events, Jobs(events, OFFERED), sweep), events, figures);
    var pass := Pass(events, sweep, figures);
    assert pass == recorded || exists data :: pass == recorded + [Draft(Closed, "", data, "")];
    if pass != recorded {
      var data :| pass == recorded + [Draft(Closed, "", data, "")];
      OfAppend(recorded, [Draft(Closed, "", data, "")], topics, job);
    }
  }

  /** What a pass publishes of one job: nothing when it was never offered, else its row's own drafts. */
  lemma OfPass(events: seq<Event>, sweep: Sweep, figures: Row -> Data, topics: set<Topic>, job: string)
    requires Closed !in topics
    ensures job !in Latest(events, OFFERED) ==> Of(Pass(events, sweep, figures), topics, job) == []
    ensures job in Latest(events, OFFERED) ==>
              Of(Pass(events, sweep, figures), topics, job)
              == Of(Recorded(Answered(job, Latest(events, OFFERED)[job], sweep), events, figures), topics, job)
  {
    hide Pass, Latest, Recorded, AllRecorded, Jobs, Rows, Of, Answered;
    var jobs := Jobs(events, OFFERED);
    var rows := Rows(events, jobs, sweep);
    OfClosing(events, sweep, figures, topics, job);
    OfAllRecorded(rows, events, figures, topics, job);
    if job in Latest(events, OFFERED) {
      assert job in jobs;
      var i :| 0 <= i < |jobs| && jobs[i] == job;
      assert rows[i].job == job;
    }
  }

  lemma {:induction false} LatestTopics(events: seq<Event>, topics: set<Topic>)
    ensures forall job :: job in Latest(events, topics) ==>
              Latest(events, topics)[job].topic in topics && Latest(events, topics)[job].job == job
  {
    if events != [] {
      LatestTopics(events[..|events| - 1], topics);
    }
  }

  // ---- A watched batch, publish by publish ----

  /** The journal's lines and what the pass under way, if any, has still to publish. */
  datatype Watching = Watching(log: seq<Line>, pending: seq<Draft>)

  datatype Action =
    | Begin(sweep: Sweep, figures: Row -> Data)                 // a pass starts; one under way has died
    | Publish(at: int)                                          // it publishes its next line
    | Other(at: int, topic: Topic, job: string, data: Data)     // anyone else's line arrives

  function Events(log: seq<Line>): (events: seq<Event>)
    ensures |events| == |log|
    ensures forall i :: 0 <= i < |log| ==> events[i] == log[i].event
  {
    seq(|log|, i requires 0 <= i < |log| => log[i].event)
  }

  function Now(log: seq<Line>): int {
    if log == [] then 0 else log[|log| - 1].event.at
  }

  function Stamped(draft: Draft, at: int, batch: string): Line {
    Line(Event(at, batch, draft.topic, draft.job, draft.data), draft.run)
  }

  /** The topics only the watch publishes. */
  const OWN: set<Topic> := {State, Cost, Settled, Closed}

  /** No earlier dispatch of `job` got this handle. */
  predicate FreshHandle(log: seq<Line>, job: string, handle: string) {
    handle == "" || Trace(log, job, handle).submits == 0
  }

  /** A line of anyone else: none of the watch's topics, and a submission's handle is new to its job or empty. */
  predicate Arrives(log: seq<Line>, topic: Topic, job: string, data: Data) {
    topic !in OWN && (topic == Submitted ==> FreshHandle(log, job, TextOf(data, "handle")))
  }

  /** Times never go back, and a disabled action changes nothing. */
  function Step(w: Watching, a: Action, batch: string): Watching {
    match a
    case Begin(sweep, figures) => w.(pending := Pass(Events(w.log), sweep, figures))
    case Publish(at) =>
      if w.pending == [] || at < Now(w.log) then w
      else Watching(w.log + [Stamped(w.pending[0], at, batch)], w.pending[1..])
    case Other(at, topic, job, data) =>
      if at < Now(w.log) || !Arrives(w.log, topic, job, data) then w
      else w.(log := w.log + [Line(Event(at, batch, topic, job, data), "")])
  }

  function Run(w: Watching, actions: seq<Action>, batch: string): Watching
    decreases |actions|
  {
    if actions == [] then w else Run(Step(w, actions[0], batch), actions[1..], batch)
  }

  // ---- One run of one job, read off the log ----

  predicate IsCost(line: Line, job: string, handle: string) {
    line.event.topic == Cost && line.event.job == job && line.run == handle
  }

  predicate IsSettled(line: Line, job: string, handle: string) {
    line.event.topic == Settled && line.event.job == job && Field(line.event.data, "handle") == Some(Str(handle))
  }

  predicate IsSubmitted(line: Line, job: string, handle: string) {
    line.event.topic == Submitted && line.event.job == job && TextOf(line.event.data, "handle") == handle
  }

  /**
   What the log says of the run of `job` with one handle.

   offer: the handle of the job's last answer, whatever it was.
   last: the last line that settled the job, under any handle.
   orderly: each settling of this run came after a cost of it, and no cost of it came after one.
   */
  datatype Story = Story(offer: Option<string>, submits: nat, costs: nat, settles: nat, last: Option<Event>, orderly: bool)

  function Told(t: Story, line: Line, job: string, handle: string): Story {
    if line.event.job != job then t
    else if line.event.topic in OFFERED then
      t.(offer := Some(HandleOf(line.event)), submits := t.submits + if IsSubmitted(line, job, handle) then 1 else 0)
    else if IsCost(line, job, handle) then t.(costs := t.costs + 1, orderly := t.orderly && t.settles == 0)
    else if line.event.topic == Settled then
      t.(last := Some(line.event),
         settles := t.settles + (if IsSettled(line, job, handle) then 1 else 0),
         orderly := t.orderly && (IsSettled(line, job, handle) ==> t.costs > 0))
    else t
  }

  function Trace(log: seq<Line>, job: string, handle: string): Story {
    if log == [] then Story(None, 0, 0, 0, None, true)
    else Told(Trace(log[..|log| - 1], job, handle), log[|log| - 1], job, handle)
  }

  lemma TraceAppend(log: seq<Line>, line: Line, job: string, handle: string)
    ensures Trace(log + [line], job, handle) == Told(Trace(log, job, handle), line, job, handle)
  {
    assert (log + [line])[..|log|] == log;
  }

  /** In a chronological log the story's last answer and last settling are the ones `latest` reads. */
  lemma {:induction false} TraceIsLatest(log: seq<Line>, job: string, handle: string)
    requires Chronological(Events(log))
    ensures Trace(log, job, handle).last == Seen(Events(log), Settled, job)
    ensures Trace(log, job, handle).offer ==
              if job in Latest(Events(log), OFFERED) then Some(HandleOf(Latest(Events(log), OFFERED)[job])) else None
  {
    if log != [] {
      var n := |log| - 1;
      var before, event := Events(log[..n]), log[n].event;
      assert Events(log) == before + [event];
      TraceIsLatest(log[..n], job, handle);
      LatestIsNewest(Events(log), {Settled}, job);
      LatestIsNewest(before, {Settled}, job);
      NewestAppend(before, event, Asking({Settled}, job));
      LatestIsNewest(Events(log), OFFERED, job);
      LatestIsNewest(before, OFFERED, job);
      NewestAppend(before, event, Asking(OFFERED, job));
    }
  }

  /** The costs and settlings of `job` the pass under way has still to publish. */
  function Due(w: Watching, job: string): seq<Draft> {
    Of(w.pending, {Cost, Settled}, job)
  }

  /**
   What every publish keeps, for the run of `job` with `handle`.

   A pass owes a job nothing, a cost and its settling, or the settling alone once the cost is out. It
   owes them for this run only while the run is not settled, and for another run only while this one
   is not the job's last answer or is not settled either.
   */
  ghost predicate Sound(w: Watching, job: string, handle: string) {
    && Chronological(Events(w.log))
    && (forall i :: 0 <= i < |w.pending| ==> w.pending[i].topic in OWN)
    && Consistent(Trace(w.log, job, handle), Due(w, job), handle)
  }

  /** A cost and its settling, or the settling alone, of one run. */
  predicate Closing(due: seq<Draft>) {
    && 1 <= |due| <= 2
    && (|due| == 2 ==> due[0].topic == Cost && due[0].run == due[1].run)
    && due[|due| - 1].topic == Settled
    && Field(due[|due| - 1].data, "handle") == Some(Str(due[|due| - 1].run))
  }

  predicate Consistent(t: Story, due: seq<Draft>, handle: string) {
    && t.orderly && t.settles <= 1 && t.submits <= 1
    && (t.settles > 0 ==> t.submits > 0)
    && (t.settles > 0 && t.offer == Some(handle) ==> t.last.Some? && Field(t.last.value.data, "handle") == Some(Str(handle)))
    && (due != [] ==>
          && Closing(due)
          && if due[0].run == handle
             then t.settles == 0 && t.submits > 0 && (|due| == 1 ==> t.costs > 0)
             else t.settles == 0 || t.offer != Some(handle))
  }

  lemma ChronologicalAppend(log: seq<Line>, line: Line)
    requires Chronological(Events(log)) && line.event.at >= Now(log)
    ensures Chronological(Events(log + [line]))
  {
  }

  lemma {:induction false} OfferWasSubmitted(log: seq<Line>, job: string, handle: string)
    requires handle != ""
    ensures Trace(log, job, handle).offer == Some(handle) ==> Trace(log, job, handle).submits > 0
  {
    if log != [] {
      OfferWasSubmitted(log[..|log| - 1], job, handle);
    }
  }

  lemma {:induction false} RecordedIsOwn(rows: seq<Row>, events: seq<Event>, figures: Row -> Data)
    ensures forall i :: 0 <= i < |AllRecorded(rows, events, figures)| ==> AllRecorded(rows, events, figures)[i].topic in OWN
  {
    if rows != [] {
      RecordedIsOwn(rows[1..], events, figures);
    }
  }

  lemma RowDue(row: Row, events: seq<Event>, figures: Row -> Data)
    ensures var due := Of(Recorded(row, events, figures), {Cost, Settled}, row.job);
            if Settles(row, events) then |due| == 2 && Closing(due) && due[0].run == row.handle else due == []
  {
    OfRecorded(row, events, figures, {Cost, Settled}, row.job);
    if Settles(row, events) {
      var due := [Draft(Cost, row.job, figures(row), row.handle), SettledDraft(row)];
      assert Of(Recorded(row, events, figures), {Cost, Settled}, row.job) == due;
    }
  }

  /** What a pass beginning now owes a job: nothing, or its row's cost and settling. */
  lemma PassDue(events: seq<Event>, sweep: Sweep, figures: Row -> Data, job: string)
    ensures var due := Of(Pass(events, sweep, figures), {Cost, Settled}, job);
            due != [] ==>
              && |due| == 2 && Closing(due)
              && job in Latest(events, OFFERED)
              && due[0].run == HandleOf(Latest(events, OFFERED)[job])
              && (var settled := Seen(events, Settled, job);
                  settled.None? || Field(settled.value.data, "handle") != Some(Str(due[0].run)))
  {
    OfPass(events, sweep, figures, {Cost, Settled}, job);
    if job in Latest(events, OFFERED) {
      LatestTopics(events, OFFERED);
      RowDue(Answered(job, Latest(events, OFFERED)[job], sweep), events, figures);
    }
  }

  lemma BeginSound(w: Watching, sweep: Sweep, figures: Row -> Data, job: string, handle: string)
    requires Sound(w, job, handle) && handle != ""
    ensures Sound(w.(pending := Pass(Events(w.log), sweep, figures)), job, handle)
  {
    hide Trace, Latest, Pass, Closing, Seen, Chronological, Of;
    var events := Events(w.log);
    TraceIsLatest(w.log, job, handle);
    OfferWasSubmitted(w.log, job, handle);
    PassDue(events, sweep, figures, job);
    PassIsOwn(events, sweep, figures);
  }

  lemma PassIsOwn(events: seq<Event>, sweep: Sweep, figures: Row -> Data)
    ensures forall i :: 0 <= i < |Pass(events, sweep, figures)| ==> Pass(events, sweep, figures)[i].topic in OWN
  {
    hide AllRecorded, Rows, Jobs, Lands, Counts, Unselected;
    RecordedIsOwn(Rows(events, Jobs(events, OFFERED), sweep), events, figures);
  }

  /** The story after the pass's next line, whichever job that line is about. */
  lemma PublishConsistent(t: Story, draft: Draft, due: seq<Draft>, line: Line, job: string, handle: string)
    requires draft.topic in OWN
    requires line.event.topic == draft.topic && line.event.job == draft.job && line.event.data == draft.data && line.run == draft.run
    requires Consistent(t, (if draft.topic in {Cost, Settled} && draft.job == job then [draft] else []) + due, handle)
    ensures Consistent(Told(t, line, job, handle), due, handle)
  {
    if draft.topic in {Cost, Settled} && draft.job == job {
      var all := [draft] + due;
      assert all[0] == draft && (|all| == 2 ==> all[1] == due[0]);
    } else {
      assert [] + due == due;
    }
  }

  lemma PublishSound(w: Watching, at: int, batch: string, job: string, handle: string)
    requires Sound(w, job, handle) && handle != "" && w.pending != [] && at >= Now(w.log)
    ensures Sound(Watching(w.log + [Stamped(w.pending[0], at, batch)], w.pending[1..]), job, handle)
  {
    var line := Stamped(w.pending[0], at, batch);
    ChronologicalAppend(w.log, line);
    TraceAppend(w.log, line, job, handle);
    PublishConsistent(Trace(w.log, job, handle), w.pending[0], Of(w.pending[1..], {Cost, Settled}, job), line, job, handle);
  }

  lemma OtherSound(w: Watching, at: int, topic: Topic, data: Data, about: string, batch: string, job: string, handle: string)
    requires Sound(w, job, handle) && handle != "" && at >= Now(w.log) && Arrives(w.log, topic, about, data)
    ensures Sound(w.(log := w.log + [Line(Event(at, batch, topic, about, data), "")]), job, handle)
  {
    var line := Line(Event(at, batch, topic, about, data), "");
    ChronologicalAppend(w.log, line);
    TraceAppend(w.log, line, job, handle);
  }

  lemma {:induction false} RunSound(w: Watching, actions: seq<Action>, batch: string, job: string, handle: string)
    requires Sound(w, job, handle) && handle != ""
    ensures Sound(Run(w, actions, batch), job, handle)
    decreases |actions|
  {
    hide Sound, Pass, Arrives, Events;
    if actions != [] {
      match actions[0] {
        case Begin(sweep, figures) => BeginSound(w, sweep, figures, job, handle);
        case Publish(at) =>
          if w.pending != [] && at >= Now(w.log) {
            PublishSound(w, at, batch, job, handle);
          }
        case Other(at, topic, about, data) =>
          if at >= Now(w.log) && Arrives(w.log, topic, about, data) {
            OtherSound(w, at, topic, data, about, batch, job, handle);
          }
      }
      RunSound(Step(w, actions[0], batch), actions[1..], batch, job, handle);
    }
  }

  // ---- One settling per run, after its cost ----

  lemma {:induction false} Unsubmitted(log: seq<Line>, job: string, handle: string)
    ensures Trace(log, job, handle).submits == 0 <==> forall i :: 0 <= i < |log| ==> !IsSubmitted(log[i], job, handle)
  {
    if log != [] {
      var n := |log| - 1;
      Unsubmitted(log[..n], job, handle);
      assert forall i :: 0 <= i < n ==> log[..n][i] == log[i];
    }
  }

  /**
   The runs leave nothing out: at any time not before the last line, what a pass has next is published, and a line
   of anyone else arrives, unless it is of the watch's own topics or submits a handle its job had before.
   */
  lemma RunsAdmit(w: Watching, at: int, topic: Topic, job: string, data: Data, batch: string)
    requires at >= 0 && forall i :: 0 <= i < |w.log| ==> w.log[i].event.at <= at
    ensures w.pending != [] ==>
              && |Step(w, Publish(at), batch).log| == |w.log| + 1 && w.log <= Step(w, Publish(at), batch).log
              && Step(w, Publish(at), batch).pending == w.pending[1..]
              && var line := Step(w, Publish(at), batch).log[|w.log|];
                 line.run == w.pending[0].run && line.event == Event(at, batch, w.pending[0].topic, w.pending[0].job, w.pending[0].data)
    ensures topic !in {State, Cost, Settled, Closed}
            && (topic == Submitted && TextOf(data, "handle") != "" ==>
                  forall i :: 0 <= i < |w.log| ==> !IsSubmitted(w.log[i], job, TextOf(data, "handle"))) ==>
              Step(w, Other(at, topic, job, data), batch) == Watching(w.log + [Line(Event(at, batch, topic, job, data), "")], w.pending)
  {
    hide Trace, Pass;
    Unsubmitted(w.log, job, TextOf(data, "handle"));
  }

  /** What a story's counts and order mean, line by line. */
  ghost predicate Orderly(log: seq<Line>, job: string, handle: string) {
    && (forall i, j :: 0 <= i < j < |log| && IsSettled(log[i], job, handle) ==> !IsSettled(log[j], job, handle))
    && (forall i :: 0 <= i < |log| && IsSettled(log[i], job, handle) ==>
          exists k :: 0 <= k < i && IsCost(log[k], job, handle))
    && (forall i, k :: 0 <= i < k < |log| && IsSettled(log[i], job, handle) ==> !IsCost(log[k], job, handle))
  }

  lemma {:induction false} StoryCounts(log: seq<Line>, job: string, handle: string)
    ensures Trace(log, job, handle).settles > 0 <==> exists i :: 0 <= i < |log| && IsSettled(log[i], job, handle)
    ensures Trace(log, job, handle).costs > 0 <==> exists i :: 0 <= i < |log| && IsCost(log[i], job, handle)
  {
    if log != [] {
      var n := |log| - 1;
      StoryCounts(log[..n], job, handle);
      assert forall i :: 0 <= i < n ==> log[..n][i] == log[i];
      if IsSettled(log[n], job, handle) || IsCost(log[n], job, handle) {
        assert 0 <= n < |log|;
      }
    }
  }

  lemma OrderlyAppend(log: seq<Line>, line: Line, job: string, handle: string)
    requires Orderly(log, job, handle)
    requires IsSettled(line, job, handle) || IsCost(line, job, handle) ==>
               forall i :: 0 <= i < |log| ==> !IsSettled(log[i], job, handle)
    requires IsSettled(line, job, handle) ==> exists k :: 0 <= k < |log| && IsCost(log[k], job, handle)
    ensures Orderly(log + [line], job, handle)
  {
    hide IsSettled, IsCost;
    var all := log + [line];
    assert forall i :: 0 <= i < |log| ==> all[i] == log[i];
    forall i | 0 <= i < |all| && IsSettled(all[i], job, handle)
      ensures exists k :: 0 <= k < i && IsCost(all[k], job, handle)
    {
      var k :| 0 <= k < i && IsCost(log[k], job, handle);
      assert IsCost(all[k], job, handle);
    }
  }

  lemma OrderlyNext(log: seq<Line>, line: Line, job: string, handle: string)
    requires Orderly(log, job, handle)
    requires var t := Told(Trace(log, job, handle), line, job, handle); t.orderly && t.settles <= 1
    ensures Orderly(log + [line], job, handle)
  {
    hide Trace, Orderly, IsSubmitted;
    StoryCounts(log, job, handle);
    OrderlyAppend(log, line, job, handle);
  }

  lemma {:induction false} StoryIsOrderly(log: seq<Line>, job: string, handle: string)
    requires Trace(log, job, handle).orderly && Trace(log, job, handle).settles <= 1
    ensures Orderly(log, job, handle)
  {
    if log != [] {
      hide Orderly, IsSubmitted;
      var n := |log| - 1;
      StoryIsOrderly(log[..n], job, handle);
      OrderlyNext(log[..n], log[n], job, handle);
      assert log == log[..n] + [log[n]];
    }
  }

  const UNWATCHED := Watching([], [])

  /**
   Over any passes, each dying after any of its publishes, and any answers arriving meanwhile: a run
   is settled at most once, a cost of it comes before that, and none comes after.
   */
  lemma {:induction false} SettledOnceAfterItsCost(actions: seq<Action>, batch: string, job: string, handle: string)
    requires handle != ""
    ensures Orderly(Run(UNWATCHED, actions, batch).log, job, handle)
  {
    RunSound(UNWATCHED, actions, batch, job, handle);
    StoryIsOrderly(Run(UNWATCHED, actions, batch).log, job, handle);
  }

  // ---- A quiet pass ----

  /** `lines` are `drafts` as published, whatever their times. */
  predicate Publishes(lines: seq<Event>, drafts: seq<Draft>) {
    && |lines| == |drafts|
    && forall i :: 0 <= i < |lines| ==>
         lines[i].topic == drafts[i].topic && lines[i].job == drafts[i].job && lines[i].data == drafts[i].data
  }

  lemma SeenAppend(events: seq<Event>, line: Event, topic: Topic, job: string)
    requires Chronological(events + [line])
    ensures Seen(events + [line], topic, job) == if line.topic == topic && line.job == job then Some(line) else Seen(events, topic, job)
  {
    LatestIsNewest(events, {topic}, job);
    LatestIsNewest(events + [line], {topic}, job);
    NewestAppend(events, line, Asking({topic}, job));
  }

  lemma OfLast(drafts: seq<Draft>, topics: set<Topic>, job: string)
    requires drafts != []
    ensures var last := drafts[|drafts| - 1];
            Of(drafts, topics, job)
            == Of(drafts[..|drafts| - 1], topics, job) + if last.topic in topics && last.job == job then [last] else []
  {
    var n := |drafts| - 1;
    assert drafts == drafts[..n] + [drafts[n]];
    OfAppend(drafts[..n], [drafts[n]], topics, job);
  }

  lemma ChronologicalPrefix(events: seq<Event>, lines: seq<Event>)
    requires lines != [] && Chronological(events + lines)
    ensures Chronological(events + lines[..|lines| - 1])
    ensures events + lines == events + lines[..|lines| - 1] + [lines[|lines| - 1]]
  {
    var all, fewer := events + lines, events + lines[..|lines| - 1];
    assert forall i :: 0 <= i < |fewer| ==> fewer[i] == all[i];
  }

  /** After a pass, what was last seen of a job is what the pass published last of it, else what was seen before. */
  lemma {:induction false} SeenAfter(events: seq<Event>, lines: seq<Event>, drafts: seq<Draft>, topic: Topic, job: string)
    requires Publishes(lines, drafts) && Chronological(events + lines)
    ensures var mine, seen := Of(drafts, {topic}, job), Seen(events + lines, topic, job);
            if mine == [] then seen == Seen(events, topic, job)
            else seen.Some? && seen.value.data == mine[|mine| - 1].data
    decreases |lines|
  {
    if lines == [] {
      assert events + lines == events;
    } else {
      var n := |lines| - 1;
      ChronologicalPrefix(events, lines);
      OfLast(drafts, {topic}, job);
      SeenAfter(events, lines[..n], drafts[..n], topic, job);
      SeenAppend(events + lines[..n], lines[n], topic, job);
    }
  }

  /** A pass publishes no answer, so the offers stand. */
  lemma {:induction false} OffersStand(events: seq<Event>, lines: seq<Event>)
    requires forall i :: 0 <= i < |lines| ==> lines[i].topic in OWN
    ensures Latest(events + lines, OFFERED) == Latest(events, OFFERED)
    decreases |lines|
  {
    if lines == [] {
      assert events + lines == events;
    } else {
      var n := |lines| - 1;
      assert (events + lines)[..|events| + n] == events + lines[..n];
      OffersStand(events, lines[..n]);
    }
  }

  /** A row recorded by a pass has nothing left to say in the next one. */
  lemma RowIsQuiet(row: Row, again: Row, events: seq<Event>, lines: seq<Event>, drafts: seq<Draft>, figures: Row -> Data)
    requires Publishes(lines, drafts) && Chronological(events + lines)
    requires again.job == row.job && again.handle == row.handle && again.verdict == row.verdict
    requires forall topics :: Closed !in topics ==>
               Of(drafts, topics, row.job) == Of(Recorded(row, events, figures), topics, row.job)
    ensures !Moved(again, events + lines) && !Settles(again, events + lines)
  {
    hide Of, Recorded, Chronological, Latest, Publishes;
    OfRecorded(row, events, figures, {State}, row.job);
    OfRecorded(row, events, figures, {Settled}, row.job);
    SeenAfter(events, lines, drafts, State, row.job);
    SeenAfter(events, lines, drafts, Settled, row.job);
  }

  lemma {:induction false} AllQuiet(rows: seq<Row>, events: seq<Event>, figures: Row -> Data)
    requires forall i :: 0 <= i < |rows| ==> !Moved(rows[i], events) && !Settles(rows[i], events)
    ensures AllRecorded(rows, events, figures) == []
  {
    if rows != [] {
      AllQuiet(rows[1..], events, figures);
    }
  }

  lemma OwnLines(events: seq<Event>, sweep: Sweep, figures: Row -> Data, lines: seq<Event>)
    requires Publishes(lines, Pass(events, sweep, figures))
    ensures forall i :: 0 <= i < |lines| ==> lines[i].topic in OWN
  {
    RecordedIsOwn(Rows(events, Jobs(events, OFFERED), sweep), events, figures);
  }

  /** A job's row in the pass after a completed one has nothing left to say. */
  lemma JobIsQuiet(events: seq<Event>, sweep: Sweep, again: Sweep, figures: Row -> Data, lines: seq<Event>, job: string)
    requires Publishes(lines, Pass(events, sweep, figures)) && Chronological(events + lines)
    requires again.registry == sweep.registry
    requires job in Latest(events, OFFERED)
    ensures var row := Answered(job, Latest(events, OFFERED)[job], again);
            !Moved(row, events + lines) && !Settles(row, events + lines)
  {
    hide Pass, Of, Recorded, Moved, Settles, Latest, Chronological;
    var drafts, answer := Pass(events, sweep, figures), Latest(events, OFFERED)[job];
    var row := Answered(job, answer, sweep);
    forall topics | Closed !in topics
      ensures Of(drafts, topics, job) == Of(Recorded(row, events, figures), topics, job)
    {
      OfPass(events, sweep, figures, topics, job);
    }
    RowIsQuiet(row, Answered(job, answer, again), events, lines, drafts, figures);
  }

  /** A pass over the same registry and the same offers, after a completed pass, publishes nothing, no closing line either. */
  lemma QuietAfterAPass(events: seq<Event>, sweep: Sweep, again: Sweep, figures: Row -> Data, others: Row -> Data, lines: seq<Event>)
    requires Publishes(lines, Pass(events, sweep, figures)) && Chronological(events + lines)
    requires again.registry == sweep.registry
    ensures Pass(events + lines, again, others) == []
  {
    var after := events + lines;
    OwnLines(events, sweep, figures, lines);
    OffersStand(events, lines);
    var rows := Rows(after, Jobs(after, OFFERED), again);
    forall i | 0 <= i < |rows| ensures !Moved(rows[i], after) && !Settles(rows[i], after) {
      JobIsQuiet(events, sweep, again, figures, lines, Jobs(after, OFFERED)[i]);
    }
    AllQuiet(rows, after, others);
  }
}
