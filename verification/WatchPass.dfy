/** One pass of a batch's watch, publishing into the journal, and the bill of a run that settled. */
module WatchPass {
  import opened Text
  import opened Receipts
  import opened BatchWatch
  import opened WatchReports

  /** `drafts` as published from position `from` of the journal on, each at the clock's reading there. */
  function Stamp(drafts: seq<Draft>, from: nat, now: nat -> int, batch: string): (lines: seq<Event>)
    ensures Publishes(lines, drafts)
    ensures forall i :: 0 <= i < |lines| ==> lines[i].at == now(from + i) && lines[i].batch == batch
  {
    seq(|drafts|, i requires 0 <= i < |drafts| => Event(now(from + i), batch, drafts[i].topic, drafts[i].job, drafts[i].data))
  }

  /** The journal after `drafts` were published onto `log`. */
  function Posted(log: seq<Event>, drafts: seq<Draft>, now: nat -> int, batch: string): seq<Event> {
    log + Stamp(drafts, |log|, now, batch)
  }

  lemma PostedTwice(log: seq<Event>, one: seq<Draft>, two: seq<Draft>, now: nat -> int, batch: string)
    ensures Posted(Posted(log, one, now, batch), two, now, batch) == Posted(log, one + two, now, batch)
  {
  }

  lemma NothingPosted(log: seq<Event>, events: seq<Event>, figures: Row -> Data, now: nat -> int, batch: string)
    ensures Posted(log, AllRecorded([], events, figures), now, batch) == log
  {
  }

  /** What a pass answers: its rows and the number in flight. */
  datatype Status = Status(rows: seq<Row>, running: nat)

  function InFlight(rows: seq<Row>): nat {
    if rows == [] then 0 else (if rows[0].verdict !in SETTLED_WORDS then 1 else 0) + InFlight(rows[1..])
  }

  /** The number in flight is that of the rows whose verdict is not settled. */
  lemma {:induction false} InFlightCounts(rows: seq<Row>)
    ensures InFlight(rows) == |rows| - |Reading(rows, SETTLED_WORDS)|
  {
    TallyCounts(rows, SETTLED_WORDS);
    RestAreInFlight(rows);
  }

  lemma {:induction false} RestAreInFlight(rows: seq<Row>)
    ensures InFlight(rows) == |rows| - Tally(rows, SETTLED_WORDS)
  {
    if rows != [] {
      RestAreInFlight(rows[1..]);
    }
  }

  lemma {:induction false} NoneInFlight(rows: seq<Row>)
    ensures InFlight(rows) == 0 <==> forall i :: 0 <= i < |rows| ==> rows[i].verdict in SETTLED_WORDS
  {
    if rows != [] {
      NoneInFlight(rows[1..]);
      assert forall i :: 0 <= i < |rows[1..]| ==> rows[1..][i] == rows[i + 1];
    }
  }

  lemma {:induction false} AllRecordedAppend(rows: seq<Row>, row: Row, events: seq<Event>, figures: Row -> Data)
    ensures AllRecorded(rows + [row], events, figures) == AllRecorded(rows, events, figures) + Recorded(row, events, figures)
  {
    hide Recorded;
    if rows == [] {
      assert rows + [row] == [row];
    } else {
      assert (rows + [row])[1..] == rows[1..] + [row] && (rows + [row])[0] == rows[0];
      AllRecordedAppend(rows[1..], row, events, figures);
    }
  }

  lemma RecordedNext(rows: seq<Row>, i: nat, events: seq<Event>, figures: Row -> Data)
    requires i < |rows|
    ensures AllRecorded(rows[..i + 1], events, figures) == AllRecorded(rows[..i], events, figures) + Recorded(rows[i], events, figures)
  {
    assert rows[..i + 1] == rows[..i] + [rows[i]];
    AllRecordedAppend(rows[..i], rows[i], events, figures);
  }

  /** What a pass publishes last: the closing line, when something settled in it and nothing is in flight. */
  function ClosingDrafts(rows: seq<Row>, events: seq<Event>, landed: bool): seq<Draft> {
    if landed && InFlight(rows) == 0 then [Draft(Closed, "", Counts(rows + Unselected(events)), "")] else []
  }

  lemma PassParts(events: seq<Event>, sweep: Sweep, figures: Row -> Data, landed: bool)
    requires var rows := Rows(events, Jobs(events, OFFERED), sweep);
             landed == Lands(rows, events)
    ensures var rows := Rows(events, Jobs(events, OFFERED), sweep);
            Pass(events, sweep, figures) == AllRecorded(rows, events, figures) + ClosingDrafts(rows, events, landed)
  {
    NoneInFlight(Rows(events, Jobs(events, OFFERED), sweep));
  }

  /** What was published and shown of every job some target answered about is what its newest answer and the registry call for. */
  ghost predicate Accounts(events: seq<Event>, registry: map<(string, string), Record>, rows: seq<Row>, drafts: seq<Draft>) {
    forall job, a, handle, word ::
      NewestOf(events, {Submitted, Refused, Held}, job, a) && Stands(events[a], registry, handle, word) ==>
        Reported(events, drafts, job, handle, word) && Shown(rows, job, handle, word)
  }

  lemma PassIsComplete(events: seq<Event>, sweep: Sweep, figures: Row -> Data, rows: seq<Row>)
    requires rows == Rows(events, Jobs(events, OFFERED), sweep) + Unselected(events)
    ensures Accounts(events, sweep.registry, rows, Pass(events, sweep, figures))
  {
    hide Pass, Reported, Stands, Unselected, Jobs, Rows, Latest, Shown;
    var answered := Rows(events, Jobs(events, OFFERED), sweep);
    forall job, a, handle, word | NewestOf(events, {Submitted, Refused, Held}, job, a) && Stands(events[a], sweep.registry, handle, word)
      ensures Reported(events, Pass(events, sweep, figures), job, handle, word) && Shown(rows, job, handle, word)
    {
      PassReports(events, sweep, figures, job, a, handle, word);
      ShownAmong(answered, Unselected(events), job, handle, word);
    }
  }

  lemma ShownAmong(rows: seq<Row>, others: seq<Row>, job: string, handle: string, word: string)
    requires Shown(rows, job, handle, word)
    ensures Shown(rows + others, job, handle, word)
  {
    var i :| 0 <= i < |rows| && rows[i].job == job && rows[i].handle == handle && rows[i].verdict == word;
    assert (rows + others)[i] == rows[i];
  }

  class Watch {
    const bus: Journal
    const now: nat -> int

    constructor (bus: Journal, now: nat -> int)
      ensures this.bus == bus && this.now == now
    {
      this.bus, this.now := bus, now;
    }

    method Publish(topic: Topic, job: string, data: Data, ghost run: string)
      modifies bus
      ensures bus.log == Posted(old(bus.log), [Draft(topic, job, data, run)], now, bus.batch)
    {
      bus.Publish(Event(now(|bus.log|), bus.batch, topic, job, data));
    }

    /** Publishes whatever changed about `row`, and says whether it settled here. */
    method Record(row: Row, events: seq<Event>, figures: Row -> Data) returns (settled: bool)
      modifies bus
      ensures bus.log == Posted(old(bus.log), Recorded(row, events, figures), now, bus.batch)
      ensures settled == Settles(row, events)
    {
      ghost var log := bus.log;
      ghost var state := if Moved(row, events) then [StateDraft(row)] else [];
      ghost var cost := Draft(Cost, row.job, figures(row), row.handle);
      if Moved(row, events) {
        Publish(State, row.job, StateDraft(row).data, row.handle);
      }
      settled := Settles(row, events);
      if settled {
        Publish(Cost, row.job, figures(row), row.handle);
        PostedTwice(log, state, [cost], now, bus.batch);
        Publish(Settled, row.job, SettledDraft(row).data, row.handle);
        PostedTwice(log, state + [cost], [SettledDraft(row)], now, bus.batch);
        assert state + [cost] + [SettledDraft(row)] == Recorded(row, events, figures);
      } else {
        assert state == Recorded(row, events, figures);
      }
    }

    /** Records every row in turn, and says whether any settled here. */
    method RecordAll(rows: seq<Row>, events: seq<Event>, figures: Row -> Data) returns (landed: bool)
      modifies bus
      ensures bus.log == Posted(old(bus.log), AllRecorded(rows, events, figures), now, bus.batch)
      ensures landed == Lands(rows, events)
    {
      hide Settles, Recorded, AllRecorded, Posted;
      landed := false;
      NothingPosted(bus.log, events, figures, now, bus.batch);
      for i := 0 to |rows|
        invariant bus.log == Posted(old(bus.log), AllRecorded(rows[..i], events, figures), now, bus.batch)
        invariant landed == exists k :: 0 <= k < i && Settles(rows[k], events)
      {
        var settled := Record(rows[i], events, figures);
        RecordedNext(rows, i, events, figures);
        PostedTwice(old(bus.log), AllRecorded(rows[..i], events, figures), Recorded(rows[i], events, figures), now, bus.batch);
        landed := landed || settled;
      }
      assert rows[..|rows|] == rows;
    }

    /** Publishes the closing line when something settled in the pass and nothing is in flight. */
    method Close(status: Status, settled: bool)
      modifies bus
      ensures bus.log == Posted(old(bus.log), if settled && status.running == 0 then [Draft(Closed, "", Counts(status.rows), "")] else [], now, bus.batch)
    {
      if status.running == 0 && settled {
        Publish(Closed, "", Counts(status.rows), "");
      }
    }

    /** A whole pass over the journal as it finds it: the rows, what they owe, the closing line, the status. */
    method Once(sweep: Sweep, figures: Row -> Data) returns (status: Status)
      modifies bus
      ensures bus.log == Posted(old(bus.log), Pass(old(bus.Events()), sweep, figures), now, bus.batch)
      ensures status.rows == Rows(old(bus.Events()), Jobs(old(bus.Events()), OFFERED), sweep) + Unselected(old(bus.Events()))
      ensures status.running == InFlight(Rows(old(bus.Events()), Jobs(old(bus.Events()), OFFERED), sweep))
      ensures exists drafts ::
                && bus.log == Posted(old(bus.log), drafts, now, bus.batch)
                && Accounts(old(bus.Events()), sweep.registry, status.rows, drafts)
    {
      hide Accounts, Moved, Settles, Lands, AllRecorded, Recorded, Counts, Stamp, Latest, Jobs, Unselected, InFlight, Pass;
      var events := bus.Events();
      var rows := Rows(events, Jobs(events, OFFERED), sweep);
      var landed := RecordAll(rows, events, figures);
      status := Status(rows + Unselected(events), InFlight(rows));
      Close(status, landed);
      PassParts(events, sweep, figures, landed);
      PostedTwice(old(bus.log), AllRecorded(rows, events, figures), ClosingDrafts(rows, events, landed), now, bus.batch);
      PassIsComplete(events, sweep, figures, status.rows);
    }
  }

  // ---- What a run spent ----

  /** What a settled run came to. Times are epoch seconds, money in dollars. */
  datatype Bill = Bill(observed: bool, setup: int, run: int, expected: real, actual: real)

  predicate IsRunningState(event: Event, row: Row) {
    && event.topic == State && event.job == row.job
    && Field(event.data, "handle") == Some(Str(row.handle)) && Field(event.data, "verdict") == Some(Str(RUNNING))
  }

  predicate IsSubmission(event: Event, row: Row) {
    event.topic == Submitted && event.job == row.job && Field(event.data, "handle") == Some(Str(row.handle))
  }

  /** A dollar figure off a quote, zero when it is absent or no number. */
  function Money(quote: Option<Event>, key: string): real {
    if quote.None? then 0.0
    else match Field(quote.value.data, key) case Some(Num(amount)) => amount case _ => 0.0
  }

  /** When the run was submitted, the moment it settled when no line says. */
  function BegunAt(row: Row, events: seq<Event>, ended: int): int {
    var submitted := First(events, (event: Event) => IsSubmission(event, row));
    if submitted.None? then ended else submitted.value.at
  }

  /** `observe`: the timeline of `row` in this batch's lines, priced by its quote. */
  function BillOf(row: Row, events: seq<Event>, ended: int): Bill {
    var started := First(events, (event: Event) => IsRunningState(event, row));
    var begun := BegunAt(row, events, ended);
    var quote := Seen(events, Estimated, row.job);
    Bill(started.Some?,
         if started.Some? then started.value.at - begun else 0,
         if started.Some? then ended - started.value.at else 0,
         Money(quote, "expected_usd"),
         Money(quote, "rate_usd_hr") * (ended - begun) as real / 3600.0)
  }

  /** A `topic` line of the run `row` is of, saying `word` when one is asked for. */
  ghost predicate Speaks(event: Event, topic: Topic, row: Row, word: Option<string>) {
    && event.topic == topic && event.job == row.job && Field(event.data, "handle") == Some(Str(row.handle))
    && (word.Some? ==> Field(event.data, "verdict") == Some(Str(word.value)))
  }

  /** Position `i` is the first such line. */
  ghost predicate SpeaksFirst(events: seq<Event>, topic: Topic, row: Row, word: Option<string>, i: int) {
    0 <= i < |events| && Speaks(events[i], topic, row, word) && forall j :: 0 <= j < i ==> !Speaks(events[j], topic, row, word)
  }

  lemma BegunAtItsSubmission(row: Row, events: seq<Event>, ended: int, b: int)
    requires SpeaksFirst(events, Submitted, row, None, b)
    ensures BegunAt(row, events, ended) == events[b].at
  {
    hide First;
    var sent := (event: Event) => IsSubmission(event, row);
    assert sent(events[b]);
    var i :| 0 <= i < |events| && First(events, sent) == Some(events[i]) && sent(events[i]) && forall j :: 0 <= j < i ==> !sent(events[j]);
    assert Speaks(events[i], Submitted, row, None);
  }

  /** A run quoted last at line `q` is billed the quoted rate over the hours since its submission, beside what was expected. */
  lemma BillIsPriced(row: Row, events: seq<Event>, ended: int, b: int, q: int, rate: real, expected: real)
    requires SpeaksFirst(events, Submitted, row, None, b) && NewestOf(events, {Estimated}, row.job, q)
    requires Field(events[q].data, "rate_usd_hr") == Some(Num(rate)) && Field(events[q].data, "expected_usd") == Some(Num(expected))
    ensures BillOf(row, events, ended).actual == rate * (ended - events[b].at) as real / 3600.0
    ensures BillOf(row, events, ended).expected == expected
  {
    hide First, BegunAt;
    BegunAtItsSubmission(row, events, ended, b);
    LatestAt(events, {Estimated}, row.job, q);
  }

  /** Its setup ends and its run begins at the first line that says it is running. */
  lemma BillIsSplit(row: Row, events: seq<Event>, ended: int, b: int, r: int)
    requires SpeaksFirst(events, Submitted, row, None, b) && SpeaksFirst(events, State, row, Some("running"), r)
    ensures var bill := BillOf(row, events, ended);
            bill.observed && bill.setup == events[r].at - events[b].at && bill.run == ended - events[r].at
  {
    hide First, BegunAt, Money, Seen;
    BegunAtItsSubmission(row, events, ended, b);
    var running := (event: Event) => IsRunningState(event, row);
    assert running(events[r]);
    var k :| 0 <= k < |events| && First(events, running) == Some(events[k]) && running(events[k]) && forall j :: 0 <= j < k ==> !running(events[j]);
    assert Speaks(events[k], State, row, Some("running"));
  }

  /** Without such a line nothing was observed. */
  lemma BillUnobserved(row: Row, events: seq<Event>, ended: int)
    requires forall r :: 0 <= r < |events| ==> !Speaks(events[r], State, row, Some("running"))
    ensures var bill := BillOf(row, events, ended); !bill.observed && bill.setup == 0 && bill.run == 0
  {
    hide First, BegunAt, Money, Seen;
    var running := (event: Event) => IsRunningState(event, row);
    assert forall r :: 0 <= r < |events| && running(events[r]) ==> Speaks(events[r], State, row, Some("running"));
  }

  /** A line saying what state the run of `job` with `handle` is in. */
  predicate IsState(topic: Topic, about: string, data: Data, job: string, handle: string) {
    topic == State && about == job && Field(data, "handle") == Some(Str(handle))
  }

  ghost predicate Sent(log: seq<Line>, job: string, handle: string, before: nat) {
    exists k :: 0 <= k < before && k < |log| && IsSubmitted(log[k], job, handle)
  }

  /** Every state line of a run, published or owed, comes after the line that submitted the run. */
  ghost predicate Followed(w: Watching, job: string, handle: string) {
    && Chronological(Events(w.log))
    && (forall i :: 0 <= i < |w.log| && IsState(w.log[i].event.topic, w.log[i].event.job, w.log[i].event.data, job, handle)
          ==> Sent(w.log, job, handle, i))
    && (forall i :: 0 <= i < |w.pending| && IsState(w.pending[i].topic, w.pending[i].job, w.pending[i].data, job, handle)
          ==> Sent(w.log, job, handle, |w.log|))
  }

  lemma {:induction false} OfHolds(drafts: seq<Draft>, topics: set<Topic>, job: string, i: nat)
    requires i < |drafts| && drafts[i].topic in topics && drafts[i].job == job
    ensures drafts[i] in Of(drafts, topics, job)
  {
    if i > 0 {
      OfHolds(drafts[1..], topics, job, i - 1);
    }
  }

  /** What `latest` holds is a line of the log. */
  lemma LatestIsALine(events: seq<Event>, topics: set<Topic>, job: string)
    requires job in Latest(events, topics)
    ensures exists i :: 0 <= i < |events| && events[i] == Latest(events, topics)[job]
  {
    LatestIsNewest(events, topics, job);
    NewestIsNewest(events, Asking(topics, job));
  }

  /** A state line a pass owes names the handle of its job's newest answer. */
  lemma OwedStateNamesTheOffer(events: seq<Event>, sweep: Sweep, figures: Row -> Data, job: string, i: nat)
    requires i < |Pass(events, sweep, figures)|
    requires Pass(events, sweep, figures)[i].topic == State && Pass(events, sweep, figures)[i].job == job
    ensures job in Latest(events, OFFERED)
    ensures Field(Pass(events, sweep, figures)[i].data, "handle") == Some(Str(HandleOf(Latest(events, OFFERED)[job])))
  {
    hide Pass, AllRecorded, Latest, Recorded, Moved, Settles;
    OfHolds(Pass(events, sweep, figures), {State}, job, i);
    OfPass(events, sweep, figures, {State}, job);
    if job in Latest(events, OFFERED) {
      LatestTopics(events, OFFERED);
      OfRecorded(Answered(job, Latest(events, OFFERED)[job], sweep), events, figures, {State}, job);
    }
  }

  lemma OfferWasSent(log: seq<Line>, job: string, handle: string)
    requires job in Latest(Events(log), OFFERED) && HandleOf(Latest(Events(log), OFFERED)[job]) == handle && handle != ""
    ensures Sent(log, job, handle, |log|)
  {
    LatestTopics(Events(log), OFFERED);
    LatestIsALine(Events(log), OFFERED, job);
    var k :| 0 <= k < |log| && Events(log)[k] == Latest(Events(log), OFFERED)[job];
    assert IsSubmitted(log[k], job, handle);
  }

  lemma BeginFollowed(w: Watching, sweep: Sweep, figures: Row -> Data, job: string, handle: string)
    requires Followed(w, job, handle) && handle != ""
    ensures Followed(w.(pending := Pass(Events(w.log), sweep, figures)), job, handle)
  {
    var drafts := Pass(Events(w.log), sweep, figures);
    forall i | 0 <= i < |drafts| && IsState(drafts[i].topic, drafts[i].job, drafts[i].data, job, handle)
      ensures Sent(w.log, job, handle, |w.log|)
    {
      OwedStateNamesTheOffer(Events(w.log), sweep, figures, job, i);
      OfferWasSent(w.log, job, handle);
    }
  }

  lemma AppendFollowed(w: Watching, line: Line, pending: seq<Draft>, job: string, handle: string)
    requires Followed(w, job, handle) && line.event.at >= Now(w.log)
    requires forall i :: 0 <= i < |pending| ==> pending[i] in w.pending
    requires IsState(line.event.topic, line.event.job, line.event.data, job, handle) ==> Sent(w.log, job, handle, |w.log|)
    ensures Followed(Watching(w.log + [line], pending), job, handle)
  {
    ChronologicalAppend(w.log, line);
    var log := w.log + [line];
    forall before: nat | before <= |w.log| && Sent(w.log, job, handle, before)
      ensures Sent(log, job, handle, before) && Sent(log, job, handle, |log|)
    {
      var k :| 0 <= k < before && k < |w.log| && IsSubmitted(w.log[k], job, handle);
      assert IsSubmitted(log[k], job, handle);
    }
  }

  lemma {:induction false} RunFollowed(w: Watching, actions: seq<Action>, batch: string, job: string, handle: string)
    requires Followed(w, job, handle) && handle != ""
    ensures Followed(Run(w, actions, batch), job, handle)
    decreases |actions|
  {
    if actions != [] {
      match actions[0] {
        case Begin(sweep, figures) => BeginFollowed(w, sweep, figures, job, handle);
        case Publish(at) =>
          if w.pending != [] && at >= Now(w.log) {
            AppendFollowed(w, Stamped(w.pending[0], at, batch), w.pending[1..], job, handle);
          }
        case Other(at, topic, about, data) =>
          if at >= Now(w.log) && Arrives(w.log, topic, about, data) {
            AppendFollowed(w, Line(Event(at, batch, topic, about, data), ""), w.pending, job, handle);
          }
      }
      RunFollowed(Step(w, actions[0], batch), actions[1..], batch, job, handle);
    }
  }

  /** In a chronological log whose running line follows a submission, the three instants are in order. */
  lemma InstantsInOrder(events: seq<Event>, row: Row, ended: int)
    requires Chronological(events) && (events != [] ==> events[|events| - 1].at <= ended)
    requires forall i :: 0 <= i < |events| && IsRunningState(events[i], row) ==> exists k :: 0 <= k < i && IsSubmission(events[k], row)
    ensures var bill := BillOf(row, events, ended);
            bill.observed ==> bill.setup >= 0 && bill.run >= 0 && bill.setup + bill.run == ended - BegunAt(row, events, ended)
  {
    hide IsRunningState, IsSubmission, Seen, Money, First;
    var wanted := (event: Event) => IsRunningState(event, row);
    var sent := (event: Event) => IsSubmission(event, row);
    if First(events, wanted).Some? {
      var i :| 0 <= i < |events| && First(events, wanted) == Some(events[i]) && wanted(events[i]);
      var k :| 0 <= k < i && IsSubmission(events[k], row);
      assert sent(events[k]);
      var j :| 0 <= j < |events| && First(events, sent) == Some(events[j]) && forall l :: 0 <= l < j ==> !sent(events[l]);
      assert j <= k && events[j].at <= events[i].at;
    }
  }

  /** In a followed log, a line that says the run is running comes after one that submitted it. */
  lemma RunningWasSent(w: Watching, row: Row, i: nat)
    requires Followed(w, row.job, row.handle) && i < |w.log| && IsRunningState(Events(w.log)[i], row) && row.handle != ""
    ensures exists k :: 0 <= k < i && IsSubmission(Events(w.log)[k], row)
  {
    var line := w.log[i].event;
    assert IsState(line.topic, line.job, line.data, row.job, row.handle);
    var k :| 0 <= k < i && IsSubmitted(w.log[k], row.job, row.handle);
    assert IsSubmission(Events(w.log)[k], row);
  }

  lemma FollowedBill(w: Watching, row: Row, ended: int)
    requires Followed(w, row.job, row.handle) && row.handle != "" && ended >= Now(w.log)
    ensures var bill := BillOf(row, Events(w.log), ended);
            bill.observed ==> bill.setup >= 0 && bill.run >= 0 && bill.setup + bill.run == ended - BegunAt(row, Events(w.log), ended)
  {
    hide BillOf, IsRunningState, IsSubmission, IsState, IsSubmitted, BegunAt;
    var events := Events(w.log);
    forall i | 0 <= i < |events| && IsRunningState(events[i], row)
      ensures exists k :: 0 <= k < i && IsSubmission(events[k], row)
    {
      RunningWasSent(w, row, i);
    }
    InstantsInOrder(events, row, ended);
  }

  /** A run caught in flight splits its wall time into a setup and a run, neither of them negative, whatever the passes before. */
  lemma {:induction false} BillSplitsTheWall(actions: seq<Action>, batch: string, row: Row, ended: int)
    requires row.handle != ""
    requires ended >= Now(Run(UNWATCHED, actions, batch).log)
    ensures var events := Events(Run(UNWATCHED, actions, batch).log);
            var bill := BillOf(row, events, ended);
            bill.observed ==> bill.setup >= 0 && bill.run >= 0 && bill.setup + bill.run == ended - BegunAt(row, events, ended)
  {
    hide Run, BillOf, BegunAt, Now, Events;
    RunFollowed(UNWATCHED, actions, batch, row.job, row.handle) by { NothingFollows(row.job, row.handle); }
    FollowedBill(Run(UNWATCHED, actions, batch), row, ended);
  }

  lemma NothingFollows(job: string, handle: string)
    ensures Followed(UNWATCHED, job, handle)
  {
  }
}
