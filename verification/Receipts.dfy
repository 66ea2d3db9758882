/** A batch's receipts: an append-only journal of events, and the two ways of reading its newest lines. */
module Receipts {
  import opened Text

  datatype Topic =
    | Opened | Prepared | Estimated | Submitted | Refused | Held | Skipped
    | State | Attested | Sample | Cost | Settled | Evidence | Closed

  /** The values an event's payload carries. */
  datatype Json = Str(text: string) | Num(number: real) | Flag(on: bool) | Names(names: seq<string>)

  type Data = map<string, Json>

  /** A line of the journal. `at` orders lines; `job` is empty when a line is about no one job. */
  datatype Event = Event(at: int, batch: string, topic: Topic, job: string, data: Data)

  /** The topics that answer an offer. */
  const OFFERED: set<Topic> := {Submitted, Refused, Held}

  function Field(data: Data, key: string): Option<Json> {
    if key in data then Some(data[key]) else None
  }

  function Lookup<K, V>(m: map<K, V>, key: K): Option<V> {
    if key in m then Some(m[key]) else None
  }

  predicate Chronological(events: seq<Event>) {
    forall i, j :: 0 <= i < j < |events| ==> events[i].at <= events[j].at
  }

  /** The lines of one batch, in commit order. */
  function Replay(log: seq<Event>, batch: string): seq<Event> {
    if log == [] then []
    else
      var last := log[|log| - 1];
      Replay(log[..|log| - 1], batch) + if last.batch == batch then [last] else []
  }

  lemma ReplayAppend(log: seq<Event>, event: Event, batch: string)
    ensures Replay(log + [event], batch) == Replay(log, batch) + if event.batch == batch then [event] else []
  {
    assert (log + [event])[..|log|] == log;
  }

  // ---- What newest means ----

  /** Position `i` holds the newest event `wanted`: the latest time, and of equal times the later arrival. */
  ghost predicate NewestAt(events: seq<Event>, wanted: Event -> bool, i: int) {
    && 0 <= i < |events|
    && wanted(events[i])
    && forall j :: 0 <= j < |events| && wanted(events[j]) ==>
         events[j].at <= events[i].at && (i < j ==> events[j].at < events[i].at)
  }

  /** The newest event `wanted`, None when there is none. */
  function Newest(events: seq<Event>, wanted: Event -> bool): Option<Event> {
    if events == [] then None
    else
      var last := events[|events| - 1];
      var held := Newest(events[..|events| - 1], wanted);
      if wanted(last) && (held.None? || last.at >= held.value.at) then Some(last) else held
  }

  /** `Newest` answers None exactly when nothing is wanted, and otherwise the one newest event. */
  lemma {:induction false} NewestIsNewest(events: seq<Event>, wanted: Event -> bool)
    ensures Newest(events, wanted).None? <==> forall i :: 0 <= i < |events| ==> !wanted(events[i])
    ensures Newest(events, wanted).Some? ==>
              exists i :: NewestAt(events, wanted, i) && Newest(events, wanted) == Some(events[i])
  {
    if events != [] {
      var n := |events| - 1;
      var prior := events[..n];
      NewestIsNewest(prior, wanted);
      var held := Newest(prior, wanted);
      if wanted(events[n]) && (held.None? || events[n].at >= held.value.at) {
        if held.Some? {
          var i :| NewestAt(prior, wanted, i) && held == Some(prior[i]);
        }
        assert forall j :: 0 <= j < n ==> events[j] == prior[j];
        assert NewestAt(events, wanted, n);
      } else if held.Some? {
        var i :| NewestAt(prior, wanted, i) && held == Some(prior[i]);
        assert forall j :: 0 <= j < n ==> events[j] == prior[j];
        assert NewestAt(events, wanted, i);
      } else {
        assert forall j :: 0 <= j < n ==> events[j] == prior[j];
      }
    }
  }

  /** In a chronological log the newest is simply the last. */
  lemma NewestAppend(events: seq<Event>, event: Event, wanted: Event -> bool)
    requires Chronological(events + [event])
    ensures Newest(events + [event], wanted) == if wanted(event) then Some(event) else Newest(events, wanted)
  {
    var all := events + [event];
    assert all[..|events|] == events;
    NewestIsNewest(events, wanted);
    if Newest(events, wanted).Some? {
      var i :| NewestAt(events, wanted, i) && Newest(events, wanted) == Some(events[i]);
      assert all[i] == events[i] && all[|events|] == event;
    }
  }

  // ---- latest ----

  predicate Answers(event: Event, topics: set<Topic>, job: string) {
    event.topic in topics && event.job == job
  }

  function Asking(topics: set<Topic>, job: string): Event -> bool {
    (event: Event) => Answers(event, topics, job)
  }

  /** What one more event makes of the newest per job. */
  function Kept(newest: map<string, Event>, event: Event, topics: set<Topic>): map<string, Event> {
    if event.topic in topics && (event.job !in newest || event.at >= newest[event.job].at)
    then newest[event.job := event] else newest
  }

  /** `latest` as a fold: each line in turn takes its job's place unless an earlier one is newer. */
  function Latest(events: seq<Event>, topics: set<Topic>): map<string, Event> {
    if events == [] then map[]
    else Kept(Latest(events[..|events| - 1], topics), events[|events| - 1], topics)
  }

  /** `latest`: a loop updating a dictionary. */
  method LatestLoop(events: seq<Event>, topics: set<Topic>) returns (newest: map<string, Event>)
    ensures newest == Latest(events, topics)
  {
    newest := map[];
    for i := 0 to |events|
      invariant newest == Latest(events[..i], topics)
    {
      assert events[..i + 1][..i] == events[..i];
      var event := events[i];
      if event.topic in topics && (event.job !in newest || event.at >= newest[event.job].at) {
        newest := newest[event.job := event];
      }
    }
    assert events[..|events|] == events;
  }

  /** Job by job, `latest` is the newest event asked for. */
  lemma {:induction false} LatestIsNewest(events: seq<Event>, topics: set<Topic>, job: string)
    ensures Lookup(Latest(events, topics), job) == Newest(events, Asking(topics, job))
  {
    if events != [] {
      LatestIsNewest(events[..|events| - 1], topics, job);
    }
  }

  /** Every time is told apart, among the events of one job and these topics. */
  ghost predicate DistinctTimes(events: seq<Event>, topics: set<Topic>) {
    forall i, j | 0 <= i < |events| && 0 <= j < |events| ::
      (events[i].topic in topics && events[j].topic in topics
       && events[i].job == events[j].job && events[i].at == events[j].at) ==> events[i] == events[j]
  }

  lemma LatestUnmovedForJob(first: seq<Event>, second: seq<Event>, topics: set<Topic>, job: string)
    requires DistinctTimes(first, topics)
    requires forall event :: event in first <==> event in second
    ensures Lookup(Latest(first, topics), job) == Lookup(Latest(second, topics), job)
  {
    var wanted := Asking(topics, job);
    LatestIsNewest(first, topics, job);
    LatestIsNewest(second, topics, job);
    NewestIsNewest(first, wanted);
    NewestIsNewest(second, wanted);
    if i :| NewestAt(first, wanted, i) && Newest(first, wanted) == Some(first[i]) {
      assert first[i] in second;
      var k :| 0 <= k < |second| && second[k] == first[i];
      var j :| NewestAt(second, wanted, j) && Newest(second, wanted) == Some(second[j]);
      assert second[j] in first;
      var l :| 0 <= l < |first| && first[l] == second[j];
      assert first[l].at <= first[i].at && second[k].at <= second[j].at;
    } else {
      forall j | 0 <= j < |second| ensures !wanted(second[j]) {
        assert second[j] in first;
      }
    }
  }

  /** No reordering and no redelivery moves `latest`, while times are distinct per job. */
  lemma LatestIgnoresDelivery(first: seq<Event>, second: seq<Event>, topics: set<Topic>)
    requires DistinctTimes(first, topics)
    requires forall event :: event in first <==> event in second
    ensures Latest(first, topics) == Latest(second, topics)
  {
    var one, two := Latest(first, topics), Latest(second, topics);
    forall job ensures Lookup(one, job) == Lookup(two, job) {
      LatestUnmovedForJob(first, second, topics, job);
    }
    assert forall job :: job in one ==> Lookup(one, job) == Lookup(two, job);
    assert forall job :: job in two ==> Lookup(one, job) == Lookup(two, job);
  }

  // ---- The settlement index ----

  /** One submission as a line names it, or any of them. */
  datatype Submission = Any | One(handle: Option<Json>, target: Option<Json>, submittedAt: Option<Json>)

  datatype Key = Key(topic: Topic, job: string, submission: Submission)

  const TRACKED: set<Topic> := {State, Evidence}

  function SubmissionOf(data: Data): Submission {
    One(Field(data, "handle"), Field(data, "target"), Field(data, "submitted_at"))
  }

  /** The line at `key` alone: kept when it is no older than what the key holds. */
  function KeptAt(newest: map<Key, Event>, key: Key, event: Event): map<Key, Event> {
    if key !in newest || event.at >= newest[key].at then newest[key := event] else newest
  }

  /** What one more event makes of the index: its job's newest, and its submission's. */
  function Indexed(newest: map<Key, Event>, event: Event): map<Key, Event> {
    if event.topic !in TRACKED then newest
    else
      KeptAt(KeptAt(newest, Key(event.topic, event.job, Any), event),
             Key(event.topic, event.job, SubmissionOf(event.data)), event)
  }

  /** The index a replay of `events` builds. */
  function Index(events: seq<Event>): map<Key, Event> {
    if events == [] then map[]
    else Indexed(Index(events[..|events| - 1]), events[|events| - 1])
  }

  predicate Falls(event: Event, key: Key) {
    && event.topic in TRACKED && event.topic == key.topic && event.job == key.job
    && (key.submission.Any? || key.submission == SubmissionOf(event.data))
  }

  function FallingUnder(key: Key): Event -> bool {
    (event: Event) => Falls(event, key)
  }

  /** Two lines are of one submission exactly when they name the same handle, target and submission time. */
  lemma SameSubmission(one: Data, two: Data)
    ensures SubmissionOf(one) == SubmissionOf(two) <==>
              Field(one, "handle") == Field(two, "handle") && Field(one, "target") == Field(two, "target") && Field(one, "submitted_at") == Field(two, "submitted_at")
  {
  }

  /** Only state and evidence lines are kept, each for its job and for its submission. */
  lemma FallsExactly(event: Event, topic: Topic, job: string, like: Data)
    ensures Falls(event, Key(topic, job, Any)) <==> (topic == State || topic == Evidence) && event.topic == topic && event.job == job
    ensures Falls(event, Key(topic, job, SubmissionOf(like))) <==>
              && (topic == State || topic == Evidence) && event.topic == topic && event.job == job
              && Field(event.data, "handle") == Field(like, "handle") && Field(event.data, "target") == Field(like, "target")
              && Field(event.data, "submitted_at") == Field(like, "submitted_at")
  {
    SameSubmission(event.data, like);
  }

  /** Key by key, the index holds the newest line of the job or of the one submission, no other run's. */
  lemma {:induction false} IndexIsNewest(events: seq<Event>, key: Key)
    ensures Lookup(Index(events), key) == Newest(events, FallingUnder(key))
  {
    if events != [] {
      IndexIsNewest(events[..|events| - 1], key);
    }
  }

  /** Per job the index agrees with `latest`, its simple form. */
  lemma IndexAgreesWithLatest(events: seq<Event>, topic: Topic, job: string)
    requires topic in TRACKED
    ensures Lookup(Index(events), Key(topic, job, Any)) == Lookup(Latest(events, {topic}), job)
  {
    var key := Key(topic, job, Any);
    IndexIsNewest(events, key);
    LatestIsNewest(events, {topic}, job);
    NewestSame(events, FallingUnder(key), Asking({topic}, job));
  }

  lemma {:induction false} NewestSame(events: seq<Event>, one: Event -> bool, two: Event -> bool)
    requires forall i :: 0 <= i < |events| ==> one(events[i]) == two(events[i])
    ensures Newest(events, one) == Newest(events, two)
  {
    if events != [] {
      NewestSame(events[..|events| - 1], one, two);
    }
  }

  /** An index kept current by its writer's own lines is the replayed one exactly when the line joined the replayed stream. */
  lemma KeptCurrentOnItsOwnStream(log: seq<Event>, event: Event, batch: string)
    requires forall i :: 0 <= i < |log| ==> log[i].at <= event.at
    ensures Indexed(Index(Replay(log, batch)), event) == Index(Replay(log + [event], batch))
       <==> event.batch == batch || event.topic !in TRACKED
  {
    var prior := Replay(log, batch);
    ReplayAppend(log, event, batch);
    assert prior + [] == prior;
    if event.batch == batch {
      assert (prior + [event])[..|prior|] == prior;
    } else if event.topic in TRACKED {
      var key := Key(event.topic, event.job, Any);
      IndexIsNewest(prior, key);
      NewestIsNewest(prior, FallingUnder(key));
      ReplayHoldsItsBatch(log, batch);
      if i :| NewestAt(prior, FallingUnder(key), i) && Newest(prior, FallingUnder(key)) == Some(prior[i]) {
        assert prior[i].batch == batch && prior[i].at <= event.at;
      }
      assert Indexed(Index(prior), event)[key] == event;
      assert Lookup(Index(prior), key) != Some(event);
    }
  }

  /** A replay has exactly the lines of its batch. */
  lemma {:induction false} ReplayExactly(log: seq<Event>, batch: string, event: Event)
    ensures event in Replay(log, batch) <==> event in log && event.batch == batch
  {
    if log != [] {
      ReplayExactly(log[..|log| - 1], batch, event);
      assert log == log[..|log| - 1] + [log[|log| - 1]];
    }
  }

  lemma IndexTakes(log: seq<Event>, event: Event)
    ensures Index(Replay(log + [event], event.batch)) == Indexed(Index(Replay(log, event.batch)), event)
  {
    var prior := Replay(log, event.batch);
    ReplayAppend(log, event, event.batch);
    assert (prior + [event])[..|prior|] == prior;
  }

  lemma {:induction false} ReplayHoldsItsBatch(log: seq<Event>, batch: string)
    ensures forall i :: 0 <= i < |Replay(log, batch)| ==> Replay(log, batch)[i].batch == batch && Replay(log, batch)[i] in log
  {
    if log != [] {
      ReplayHoldsItsBatch(log[..|log| - 1], batch);
    }
  }

  // ---- The two objects ----

  /** Where one batch's receipts go: the workspace's events, of which it replays its own. */
  class Journal {
    const batch: string
    var log: seq<Event>

    constructor (batch: string, log: seq<Event>)
      ensures this.batch == batch && this.log == log
    {
      this.batch, this.log := batch, log;
    }

    method Publish(event: Event)
      modifies this
      ensures log == old(log) + [event]
    {
      log := log + [event];
    }

    method PublishAll(events: seq<Event>)
      modifies this
      ensures log == old(log) + events
    {
      for i := 0 to |events|
        invariant log == old(log) + events[..i]
      {
        Publish(events[i]);
      }
    }

    function Events(): seq<Event>
      reads this
    {
      Replay(log, batch)
    }
  }

  /** The index as an object: built by a replay, then folded forward line by line. */
  class SettlementReceipts {
    const bus: Journal
    const stream: string
    var newest: map<Key, Event>

    /** The index is the one a replay of the journal would build now. */
    ghost predicate Valid()
      reads this, bus
    {
      newest == Index(bus.Events())
    }

    constructor (bus: Journal, stream: string)
      ensures this.bus == bus && this.stream == stream && Valid()
    {
      this.bus, this.stream := bus, stream;
      newest := map[];
      new;
      var events := bus.Events();
      for i := 0 to |events|
        invariant newest == Index(events[..i]) && bus.Events() == events
      {
        assert events[..i + 1][..i] == events[..i];
        newest := Indexed(newest, events[i]);
      }
      assert events[..|events|] == events;
    }

    /** Reads the index under one key. */
    method Get(topic: Topic, job: string, submission: Submission) returns (line: Option<Event>)
      requires Valid()
      ensures line == Newest(bus.Events(), FallingUnder(Key(topic, job, submission)))
    {
      line := Lookup(newest, Key(topic, job, submission));
      IndexIsNewest(bus.Events(), Key(topic, job, submission));
    }

    /**
     Publishes a line of this stream, which joins the index once the journal took it. The index stays
     the replayed one when the stream is the journal's own, or the line is one it does not track; with
     a clock that does not go back, only then.
     */
    method Publish(now: int, topic: Topic, job: string, data: Data)
      requires Valid()
      modifies this, bus
      ensures bus.log == old(bus.log) + [Event(now, stream, topic, job, data)]
      ensures newest == Indexed(old(newest), Event(now, stream, topic, job, data))
      ensures stream == bus.batch ==> Valid()
      ensures (forall i :: 0 <= i < |old(bus.log)| ==> old(bus.log)[i].at <= now) ==>
                (Valid() <==> stream == bus.batch || topic !in TRACKED)
    {
      var event := Event(now, stream, topic, job, data);
      IndexTakes(bus.log, event);
      if forall i :: 0 <= i < |bus.log| ==> bus.log[i].at <= now {
        KeptCurrentOnItsOwnStream(bus.log, event, bus.batch);
      }
      bus.Publish(event);
      newest := Indexed(newest, event);
    }
  }
}
