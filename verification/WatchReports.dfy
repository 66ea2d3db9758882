/**
 What a pass of the watch says, read off the journal and the run registry alone: the newest answer of
 each job, the registry's word on its run, and the lines that were last published about it.
 */
module WatchReports {
  import opened Text
  import opened Receipts
  import opened BatchWatch

  // ---- The words ----

  /** The moves a verdict may make, word by word. */
  const MOVES: map<string, set<string>> := map[
    "prepared" := {"submitting", "failed", "cancelled"},
    "submitting" := {"prepared", "queued", "running"},
    "held" := {"queued", "running", "failed", "vanished", "cancelled"},
    "queued" := {"running", "ok", "failed", "timeout", "vanished", "unknown", "cancelled"},
    "running" := {"queued", "ok", "failed", "vanished", "unknown", "timeout", "cancelled"},
    "ok" := {}, "failed" := {}, "vanished" := {}, "unknown" := {}, "timeout" := {}, "cancelled" := {}, "skipped" := {}]

  /** A word is settled exactly when it moves nowhere. */
  lemma SettledMovesNowhere(word: string)
    ensures word in SETTLED_WORDS <==> word in MOVES && MOVES[word] == {}
  {
    if word in MOVES && word !in SETTLED_WORDS {
      SomeMove(word);
    }
  }

  lemma SomeMove(word: string)
    requires word in {"prepared", "submitting", "held", "queued", "running"}
    ensures word in MOVES && MOVES[word] != {}
  {
    assert "failed" in MOVES["prepared"] && "queued" in MOVES["submitting"] && "queued" in MOVES["held"];
    assert "running" in MOVES["queued"] && "queued" in MOVES["running"];
  }

  // ---- The newest line, position by position ----

  /** Position `i` holds the newest line of `job` under `topics`. */
  ghost predicate NewestOf(events: seq<Event>, topics: set<Topic>, job: string, i: int) {
    && 0 <= i < |events| && events[i].topic in topics && events[i].job == job
    && forall j :: 0 <= j < |events| && events[j].topic in topics && events[j].job == job ==>
         events[j].at <= events[i].at && (i < j ==> events[j].at < events[i].at)
  }

  /** There is one newest line, and it is the one `latest` holds. */
  lemma LatestAt(events: seq<Event>, topics: set<Topic>, job: string, i: int)
    requires NewestOf(events, topics, job, i)
    ensures Lookup(Latest(events, topics), job) == Some(events[i])
  {
    var wanted := Asking(topics, job);
    LatestIsNewest(events, topics, job);
    NewestIsNewest(events, wanted);
    assert wanted(events[i]);
    var k :| NewestAt(events, wanted, k) && Newest(events, wanted) == Some(events[k]);
    assert events[k].at <= events[i].at && events[i].at <= events[k].at;
  }

  lemma LatestHasAPlace(events: seq<Event>, topics: set<Topic>, job: string)
    requires job in Latest(events, topics)
    ensures exists i :: NewestOf(events, topics, job, i) && events[i] == Latest(events, topics)[job]
  {
    var wanted := Asking(topics, job);
    LatestIsNewest(events, topics, job);
    NewestIsNewest(events, wanted);
    var k :| NewestAt(events, wanted, k) && Newest(events, wanted) == Some(events[k]);
    forall j | 0 <= j < |events| && events[j].topic in topics && events[j].job == job
      ensures events[j].at <= events[k].at && (k < j ==> events[j].at < events[k].at)
    {
      assert wanted(events[j]);
    }
    assert NewestOf(events, topics, job, k);
  }

  // ---- What is owed ----

  /** The word the registry has on a run: running where it has none yet, unknown where it has no record. */
  ghost function RegistryWord(registry: map<(string, string), Record>, handle: string, target: string): string {
    if (handle, target) !in registry then "unknown"
    else if registry[(handle, target)].verdict == "" then "running"
    else registry[(handle, target)].verdict
  }

  /** The run `answer` is about, and the word on it: a refused job vanished, a held one is held, a submitted one is as the registry has it. */
  ghost predicate Stands(answer: Event, registry: map<(string, string), Record>, handle: string, word: string) {
    match answer.topic
    case Refused => handle == "" && word == "vanished"
    case Held => handle == "" && word == "held"
    case Submitted =>
      exists target :: Field(answer.data, "handle") == Some(Str(handle)) && Field(answer.data, "target") == Some(Str(target))
                       && word == RegistryWord(registry, handle, target)
    case _ => false
  }

  /** What `topic` last said of `job` names this run, and this word when one is asked for. */
  ghost predicate LastSays(events: seq<Event>, topic: Topic, job: string, handle: string, word: Option<string>) {
    exists i :: NewestOf(events, {topic}, job, i) && Field(events[i].data, "handle") == Some(Str(handle))
                && (word.Some? ==> Field(events[i].data, "verdict") == Some(Str(word.value)))
  }

  lemma SeenSays(events: seq<Event>, topic: Topic, job: string, handle: string, word: Option<string>)
    ensures LastSays(events, topic, job, handle, word) <==>
              && Seen(events, topic, job).Some?
              && Field(Seen(events, topic, job).value.data, "handle") == Some(Str(handle))
              && (word.Some? ==> Field(Seen(events, topic, job).value.data, "verdict") == Some(Str(word.value)))
  {
    if i :| NewestOf(events, {topic}, job, i) {
      LatestAt(events, {topic}, job, i);
    }
    if job in Latest(events, {topic}) {
      LatestHasAPlace(events, {topic}, job);
    }
  }

  ghost predicate IsLine(draft: Draft, topic: Topic, job: string, handle: string, word: string) {
    draft.topic == topic && draft.job == job && Field(draft.data, "handle") == Some(Str(handle)) && Field(draft.data, "verdict") == Some(Str(word))
  }

  /**
   What `drafts` say of one answered job: a state line exactly when its last one says otherwise, and a
   cost and then its settling exactly when the word is settled and the last settling is of another run.
   */
  ghost predicate Reported(events: seq<Event>, drafts: seq<Draft>, job: string, handle: string, word: string) {
    var states, ends := Of(drafts, {State}, job), Of(drafts, {Cost, Settled}, job);
    && (states == [] <==> LastSays(events, State, job, handle, Some(word)))
    && (states != [] ==> |states| == 1 && IsLine(states[0], State, job, handle, word))
    && (ends != [] <==> word in SETTLED_WORDS && !LastSays(events, Settled, job, handle, None))
    && (ends != [] ==> |ends| == 2 && ends[0].topic == Cost && ends[0].run == handle && IsLine(ends[1], Settled, job, handle, word))
  }

  ghost predicate Shown(rows: seq<Row>, job: string, handle: string, word: string) {
    exists i :: 0 <= i < |rows| && rows[i].job == job && rows[i].handle == handle && rows[i].verdict == word
  }

  /** The row of an answered job. */
  lemma RowStands(job: string, answer: Event, sweep: Sweep, handle: string, word: string)
    requires Stands(answer, sweep.registry, handle, word)
    ensures var row := Answered(job, answer, sweep); row.job == job && row.handle == handle && row.verdict == word
  {
  }

  /** The rest of that row, field by field as the answer and the registry have it. */
  lemma RowTells(job: string, answer: Event, sweep: Sweep, target: string, reason: string, handle: string)
    requires Field(answer.data, "target") == Some(Str(target))
    ensures answer.topic == Refused && Field(answer.data, "reason") == Some(Str(reason)) ==>
              Answered(job, answer, sweep) == Row(job, target, "", "", "vanished", reason)
    ensures answer.topic == Held && Field(answer.data, "reason") == Some(Str(reason)) ==>
              Answered(job, answer, sweep) == Row(job, target, "", "held", "held", "waiting on the target's quota: " + reason)
    ensures answer.topic == Submitted && Field(answer.data, "handle") == Some(Str(handle)) ==>
              var row := Answered(job, answer, sweep);
              && row.target == target
              && ((handle, target) !in sweep.registry ==> row.state == "" && row.detail == "the run registry has no record of this handle")
              && ((handle, target) in sweep.registry ==>
                    && row.state == sweep.registry[(handle, target)].state
                    && row.detail == if handle in sweep.said then sweep.said[handle] else "")
  {
  }

  /** The row of a skipped job is that of its newest skip. */
  lemma {:induction false} SkippedTells(events: seq<Event>, jobs: seq<string>, row: Row)
    requires forall job :: job in jobs ==> job in Latest(events, {Skipped})
    requires row in Left(events, jobs)
    ensures row.job in jobs && row.handle == "" && row.state == "" && row.verdict == "skipped"
    ensures var skip := Latest(events, {Skipped})[row.job];
            && (forall target :: Field(skip.data, "target") == Some(Str(target)) ==> row.target == target)
            && (forall reason :: Field(skip.data, "reason") == Some(Str(reason)) ==> row.detail == reason)
  {
    hide Latest;
    if row in Left(events, jobs[1..]) {
      SkippedTells(events, jobs[1..], row);
    }
  }

  /** A state line carries the state beside the word, a settling the detail. */
  lemma LinesTell(row: Row)
    ensures Field(StateDraft(row).data, "state") == Some(Str(row.state)) && IsLine(StateDraft(row), State, row.job, row.handle, row.verdict)
    ensures Field(SettledDraft(row).data, "detail") == Some(Str(row.detail)) && IsLine(SettledDraft(row), Settled, row.job, row.handle, row.verdict)
  {
  }

  lemma RowReported(row: Row, events: seq<Event>, figures: Row -> Data, drafts: seq<Draft>)
    requires Of(drafts, {State}, row.job) == Of(Recorded(row, events, figures), {State}, row.job)
    requires Of(drafts, {Cost, Settled}, row.job) == Of(Recorded(row, events, figures), {Cost, Settled}, row.job)
    ensures Reported(events, drafts, row.job, row.handle, row.verdict)
  {
    hide Of, Recorded, Seen, LastSays;
    OfRecorded(row, events, figures, {State}, row.job);
    OfRecorded(row, events, figures, {Cost, Settled}, row.job);
    SeenSays(events, State, row.job, row.handle, Some(row.verdict));
    SeenSays(events, Settled, row.job, row.handle, None);
  }

  /**
   The pass is complete: for the newest answer of any job, whatever it was, its row and its lines are the
   ones the registry's word on that run calls for.
   */
  lemma PassReports(events: seq<Event>, sweep: Sweep, figures: Row -> Data, job: string, a: int, handle: string, word: string)
    requires NewestOf(events, {Submitted, Refused, Held}, job, a) && Stands(events[a], sweep.registry, handle, word)
    ensures Reported(events, Pass(events, sweep, figures), job, handle, word)
    ensures Shown(Rows(events, Jobs(events, OFFERED), sweep), job, handle, word)
  {
    hide Pass, Recorded, Of, Answered, Reported, Stands, Latest;
    LatestAt(events, {Submitted, Refused, Held}, job, a);
    assert job in Latest(events, OFFERED) && Latest(events, OFFERED)[job] == events[a];
    var row := Answered(job, events[a], sweep);
    RowStands(job, events[a], sweep, handle, word);
    OfPass(events, sweep, figures, {State}, job);
    OfPass(events, sweep, figures, {Cost, Settled}, job);
    RowReported(row, events, figures, Pass(events, sweep, figures));
    var jobs := Jobs(events, OFFERED);
    assert job in jobs;
    var i :| 0 <= i < |jobs| && jobs[i] == job;
    assert Rows(events, jobs, sweep)[i] == row;
  }

  /** And says nothing of a job no target answered about. */
  lemma PassSaysNoMore(events: seq<Event>, sweep: Sweep, figures: Row -> Data, job: string)
    requires forall i :: 0 <= i < |events| && events[i].job == job ==> events[i].topic !in {Submitted, Refused, Held}
    ensures Of(Pass(events, sweep, figures), {State, Cost, Settled}, job) == []
  {
    if job in Latest(events, OFFERED) {
      LatestHasAPlace(events, OFFERED, job);
    }
    OfPass(events, sweep, figures, {State, Cost, Settled}, job);
  }

  // ---- The closing line ----

  /** The positions of the rows whose verdict is one of `verdicts`. */
  ghost function Reading(rows: seq<Row>, verdicts: set<string>): set<int> {
    set i | 0 <= i < |rows| && rows[i].verdict in verdicts
  }

  lemma {:induction false} TallyAppend(rows: seq<Row>, row: Row, verdicts: set<string>)
    ensures Tally(rows + [row], verdicts) == Tally(rows, verdicts) + if row.verdict in verdicts then 1 else 0
  {
    if rows == [] {
      assert rows + [row] == [row] && [row][1..] == [];
    } else {
      assert (rows + [row])[1..] == rows[1..] + [row];
      TallyAppend(rows[1..], row, verdicts);
    }
  }

  /** A tally is the number of rows that read so. */
  lemma {:induction false} TallyCounts(rows: seq<Row>, verdicts: set<string>)
    ensures Tally(rows, verdicts) == |Reading(rows, verdicts)|
  {
    if rows != [] {
      var n := |rows| - 1;
      var before := Reading(rows[..n], verdicts);
      TallyCounts(rows[..n], verdicts);
      TallyAppend(rows[..n], rows[n], verdicts);
      assert rows == rows[..n] + [rows[n]];
      assert Reading(rows, verdicts) == if rows[n].verdict in verdicts then before + {n} else before;
    }
  }

  lemma {:induction false} RestAreFailures(rows: seq<Row>)
    ensures Failures(rows) == |rows| - Tally(rows, {"ok", "skipped"})
  {
    if rows != [] {
      RestAreFailures(rows[1..]);
    }
  }

  /** The closing line counts the rows, those that read ok, those that read skipped, and all others as failed. */
  lemma CountsAre(rows: seq<Row>)
    ensures Field(Counts(rows), "jobs") == Some(Num(|rows| as real))
    ensures Field(Counts(rows), "ok") == Some(Num(|Reading(rows, {"ok"})| as real))
    ensures Field(Counts(rows), "skipped") == Some(Num(|Reading(rows, {"skipped"})| as real))
    ensures Field(Counts(rows), "failed") == Some(Num((|rows| - |Reading(rows, {"ok", "skipped"})|) as real))
  {
    hide Reading, Tally, Failures;
    TallyCounts(rows, {"ok"});
    TallyCounts(rows, {"skipped"});
    TallyCounts(rows, {"ok", "skipped"});
    RestAreFailures(rows);
  }

  ghost predicate Has(drafts: seq<Draft>, topic: Topic) {
    exists i :: 0 <= i < |drafts| && drafts[i].topic == topic
  }

  lemma HasEither(one: seq<Draft>, two: seq<Draft>, topic: Topic)
    ensures Has(one + two, topic) <==> Has(one, topic) || Has(two, topic)
  {
    var all := one + two;
    if i :| 0 <= i < |one| && one[i].topic == topic {
      assert all[i] == one[i];
    }
    if i :| 0 <= i < |two| && two[i].topic == topic {
      assert all[|one| + i] == two[i];
    }
  }

  lemma RowSettling(row: Row, events: seq<Event>, figures: Row -> Data)
    ensures Has(Recorded(row, events, figures), Settled) <==> Settles(row, events)
    ensures !Has(Recorded(row, events, figures), Closed)
  {
    var drafts := Recorded(row, events, figures);
    if Settles(row, events) {
      assert drafts[|drafts| - 1].topic == Settled;
    }
  }

  lemma LandsSplit(rows: seq<Row>, events: seq<Event>)
    requires rows != []
    ensures Lands(rows, events) <==> Settles(rows[0], events) || Lands(rows[1..], events)
  {
    hide Settles;
    if i :| 0 <= i < |rows[1..]| && Settles(rows[1..][i], events) {
      assert rows[i + 1] == rows[1..][i];
    }
    if i :| 0 < i < |rows| && Settles(rows[i], events) {
      assert rows[1..][i - 1] == rows[i];
    }
  }

  lemma {:induction false} SomeSettling(rows: seq<Row>, events: seq<Event>, figures: Row -> Data)
    ensures Has(AllRecorded(rows, events, figures), Settled) <==> Lands(rows, events)
    ensures !Has(AllRecorded(rows, events, figures), Closed)
  {
    if rows != [] {
      var head, rest := Recorded(rows[0], events, figures), AllRecorded(rows[1..], events, figures);
      SomeSettling(rows[1..], events, figures);
      RowSettling(rows[0], events, figures);
      HasEither(head, rest, Settled);
      HasEither(head, rest, Closed);
      LandsSplit(rows, events);
    }
  }

  ghost predicate AllOver(rows: seq<Row>) {
    forall i :: 0 <= i < |rows| ==> rows[i].verdict in SETTLED_WORDS
  }

  lemma PassEnds(events: seq<Event>, sweep: Sweep, figures: Row -> Data, rows: seq<Row>)
    requires rows == Rows(events, Jobs(events, OFFERED), sweep)
    ensures Pass(events, sweep, figures)
            == AllRecorded(rows, events, figures)
               + if Lands(rows, events) && AllOver(rows) then [Draft(Closed, "", Counts(rows + Unselected(events)), "")] else []
  {
    hide AllRecorded, Lands, Counts, Unselected, Rows, Jobs, SETTLED_WORDS;
  }

  /** A pass ends with a closing line exactly when it settles something and every row is over; it counts all the rows, skipped ones too. */
  lemma PassCloses(events: seq<Event>, sweep: Sweep, figures: Row -> Data, rows: seq<Row>)
    requires rows == Rows(events, Jobs(events, OFFERED), sweep)
    ensures var pass := Pass(events, sweep, figures);
            && (Has(pass, Closed) <==> Has(pass, Settled) && AllOver(rows))
            && (Has(pass, Closed) ==> pass[|pass| - 1] == Draft(Closed, "", Counts(rows + Unselected(events)), ""))
  {
    hide AllRecorded, Lands, Counts, Unselected, Rows, Jobs, Has, AllOver, Pass;
    SomeSettling(rows, events, figures);
    PassEnds(events, sweep, figures, rows);
    ClosesOrNot(AllRecorded(rows, events, figures), Draft(Closed, "", Counts(rows + Unselected(events)), ""),
                Lands(rows, events), AllOver(rows), Pass(events, sweep, figures));
  }

  lemma ClosesOrNot(recorded: seq<Draft>, closing: Draft, landed: bool, over: bool, pass: seq<Draft>)
    requires closing.topic == Closed && !Has(recorded, Closed) && (Has(recorded, Settled) <==> landed)
    requires pass == recorded + if landed && over then [closing] else []
    ensures Has(pass, Closed) <==> Has(pass, Settled) && over
    ensures Has(pass, Closed) ==> pass[|pass| - 1] == closing
  {
    hide Has;
    OnlyOne(closing);
    HasEither(recorded, [closing], Closed);
    HasEither(recorded, [closing], Settled);
    assert recorded + [] == recorded;
  }

  lemma OnlyOne(draft: Draft)
    ensures forall topic :: Has([draft], topic) <==> topic == draft.topic
  {
    assert [draft][0] == draft;
  }
}
