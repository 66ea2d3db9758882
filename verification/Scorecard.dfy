/** Billing, the counts of a provider's landings, and the price of a useful hour computed from both. Money and time are reals. */
module Scorecard {
  import opened Text

  const SECONDS_PER_HOUR := 3600.0
  const RELEASE_SECONDS := 120.0
  const DEFAULT_SETUP := 300.0

  // ---- Billing ----

  datatype Billing = Billing(rate: real, granularity: int, minimum: int, fees: real)

  function Ceiling(x: real): (n: int)
    ensures n as real - 1.0 < x <= n as real
  {
    if x.Floor as real == x then x.Floor else x.Floor + 1
  }

  /** The wall rounded up to whole units, at least the minimum. */
  function BilledSeconds(b: Billing, setup: real, run: real, drain: real): (seconds: int)
    requires b.granularity > 0
  {
    var wall := setup + run + drain;
    var rounded := Ceiling(wall / b.granularity as real) * b.granularity;
    if rounded < b.minimum then b.minimum else rounded
  }

  function CostUsd(b: Billing, setup: real, run: real, drain: real): real
    requires b.granularity > 0
  {
    b.fees + b.rate * BilledSeconds(b, setup, run, drain) as real / SECONDS_PER_HOUR
  }

  lemma RoundsUp(wall: real, granularity: int)
    requires granularity > 0
    ensures wall <= (Ceiling(wall / granularity as real) * granularity) as real
    ensures forall multiple: int :: wall <= (multiple * granularity) as real ==>
              Ceiling(wall / granularity as real) <= multiple
  {
    var g, units := granularity as real, wall / granularity as real;
    assert units * g == wall;
    var n := Ceiling(units);
    assert wall <= n as real * g by {
      assert (n as real - units) * g >= 0.0;
    }
    forall multiple: int | wall <= (multiple * granularity) as real ensures n <= multiple {
      assert wall <= multiple as real * g;
      if units > multiple as real {
        assert (units - multiple as real) * g > 0.0;
      }
    }
  }

  /** The charge covers the wall and the minimum, in whole units of the granularity or at the minimum, and no fewer units would. */
  lemma BilledSecondsAreTheLeast(b: Billing, setup: real, run: real, drain: real)
    requires b.granularity > 0
    ensures var seconds, wall := BilledSeconds(b, setup, run, drain), setup + run + drain;
            && wall <= seconds as real && b.minimum <= seconds
            && (seconds == b.minimum || exists units :: seconds == units * b.granularity)
            && (forall units: int :: wall <= (units * b.granularity) as real ==> seconds <= b.minimum || seconds <= units * b.granularity)
  {
    hide Ceiling;
    var wall := setup + run + drain;
    var n := Ceiling(wall / b.granularity as real);
    RoundsUp(wall, b.granularity);
    forall units: int | wall <= (units * b.granularity) as real
      ensures BilledSeconds(b, setup, run, drain) <= b.minimum || BilledSeconds(b, setup, run, drain) <= units * b.granularity
    {
      assert n <= units;
      MoreUnits(n, units, b.granularity);
    }
    assert BilledSeconds(b, setup, run, drain) == b.minimum || BilledSeconds(b, setup, run, drain) == n * b.granularity;
  }

  lemma CostIsNotNegative(b: Billing, setup: real, run: real, drain: real)
    requires b.granularity > 0 && b.rate >= 0.0 && b.fees >= 0.0
    requires setup + run + drain >= 0.0
    ensures CostUsd(b, setup, run, drain) >= 0.0
  {
    BilledSecondsAreTheLeast(b, setup, run, drain);
    var seconds := BilledSeconds(b, setup, run, drain) as real;
    assert b.rate * seconds >= 0.0;
  }

  // ---- Landings ----

  /** A row of the ledger, by the fields the scorecard reads. */
  datatype Observation = Observation(provider: string, gpu: string, submitted: real, running: real, verdict: string, ready: real)

  /** How a landing ended: it delivered, the provider declined it and billed nothing, or it failed and billed. */
  datatype Landing = Landed | Refused | Failed

  /** `Verdict.of`: a row without a verdict landed when it ran and says nothing when it did not; a verdict nobody knows failed. */
  function LandingOf(row: Observation): Option<Landing> {
    if row.verdict == "" then (if row.running == 0.0 then None else Some(Landed))
    else if row.verdict == "landed" then Some(Landed)
    else if row.verdict == "refused" then Some(Refused)
    else Some(Failed)
  }

  /** The seconds a row waited for its machine, zero when it never measured one. */
  function WaitOf(row: Observation): real {
    if row.ready != 0.0 then row.ready
    else if row.running == 0.0 || row.running < row.submitted then 0.0 else row.running - row.submitted
  }

  /** A verdict names how a landing ended; without one a row that ran landed, and a row that did not says nothing. */
  lemma LandingExactly(row: Observation)
    ensures LandingOf(row).None? <==> row.verdict == "" && row.running == 0.0
    ensures LandingOf(row) == Some(Landed) <==> row.verdict == "landed" || (row.verdict == "" && row.running != 0.0)
    ensures LandingOf(row) == Some(Refused) <==> row.verdict == "refused"
  {
  }

  /** A wait is the one measured, else the time from submission to running, never negative. */
  lemma WaitExactly(row: Observation)
    ensures row.ready != 0.0 ==> WaitOf(row) == row.ready
    ensures row.ready == 0.0 && row.running != 0.0 && row.submitted <= row.running ==> row.submitted + WaitOf(row) == row.running
    ensures row.ready == 0.0 && (row.running == 0.0 || row.running < row.submitted) ==> WaitOf(row) == 0.0
  {
  }

  function Count(rows: seq<Observation>, landing: Landing): nat {
    if rows == [] then 0 else (if LandingOf(rows[0]) == Some(landing) then 1 else 0) + Count(rows[1..], landing)
  }

  function Judged(rows: seq<Observation>): nat {
    if rows == [] then 0 else (if LandingOf(rows[0]).Some? then 1 else 0) + Judged(rows[1..])
  }

  /** The positive waits of the rows that say anything. */
  function Waits(rows: seq<Observation>): seq<real> {
    if rows == [] then []
    else (if LandingOf(rows[0]).Some? && WaitOf(rows[0]) > 0.0 then [WaitOf(rows[0])] else []) + Waits(rows[1..])
  }

  /** One provider's measured landings. `ready` is the median wait, None when never measured. */
  datatype Track = Track(landings: nat, landed: nat, refused: nat, ready: Option<real>) {
    /** The failed landings. */
    function Failures(): int {
      landings - landed
    }

    /** Of the failures, the part the provider did not refuse; with no failure, all. */
    function BilledShare(): real {
      if Failures() == 0 then 1.0 else (Failures() - refused) as real / Failures() as real
    }

    /** Landed plus one over landings plus two. */
    function Delivered(): real {
      (landed + 1) as real / (landings + 2) as real
    }
  }

  function TrackOf(rows: seq<Observation>, median: seq<real> -> real): Track {
    Track(Judged(rows), Count(rows, Landed), Count(rows, Refused), if Waits(rows) == [] then None else Some(median(Waits(rows))))
  }

  lemma {:induction false} CountAppend(one: seq<Observation>, two: seq<Observation>, landing: Landing)
    ensures Count(one + two, landing) == Count(one, landing) + Count(two, landing)
  {
    if one == [] {
      assert one + two == two;
    } else {
      assert (one + two)[1..] == one[1..] + two;
      CountAppend(one[1..], two, landing);
    }
  }

  lemma {:induction false} JudgedAppend(one: seq<Observation>, two: seq<Observation>)
    ensures Judged(one + two) == Judged(one) + Judged(two)
  {
    if one == [] {
      assert one + two == two;
    } else {
      assert (one + two)[1..] == one[1..] + two;
      JudgedAppend(one[1..], two);
    }
  }

  lemma {:induction false} WaitsAppend(one: seq<Observation>, two: seq<Observation>)
    ensures Waits(one + two) == Waits(one) + Waits(two)
  {
    if one == [] {
      assert one + two == two;
    } else {
      assert (one + two)[1..] == one[1..] + two;
      WaitsAppend(one[1..], two);
    }
  }

  lemma {:induction false} CountsAddUp(rows: seq<Observation>)
    ensures Judged(rows) == Count(rows, Landed) + Count(rows, Refused) + Count(rows, Failed)
  {
    if rows != [] {
      CountsAddUp(rows[1..]);
    }
  }

  /** The positions of the rows that ended so, or with no ending given of all that say anything. */
  ghost function Ended(rows: seq<Observation>, landing: Option<Landing>): set<int> {
    set i | 0 <= i < |rows| && LandingOf(rows[i]).Some? && (landing.Some? ==> LandingOf(rows[i]) == landing)
  }

  lemma EndedNext(rows: seq<Observation>, landing: Option<Landing>)
    requires rows != []
    ensures var n, last := |rows| - 1, LandingOf(rows[|rows| - 1]);
            |Ended(rows, landing)| == |Ended(rows[..n], landing)| + if last.Some? && (landing.Some? ==> last == landing) then 1 else 0
  {
    hide LandingOf;
    var n, last := |rows| - 1, LandingOf(rows[|rows| - 1]);
    var before := Ended(rows[..n], landing);
    assert Ended(rows, landing) == if last.Some? && (landing.Some? ==> last == landing) then before + {n} else before;
  }

  /** The counts of a track are the numbers of rows that ended so. */
  lemma {:induction false} CountIs(rows: seq<Observation>, landing: Landing)
    ensures Count(rows, landing) == |Ended(rows, Some(landing))|
  {
    hide LandingOf, Ended;
    if rows == [] {
      assert |Ended(rows, Some(landing))| == 0 by { NoneEnded(Some(landing)); }
    } else {
      var n := |rows| - 1;
      CountIs(rows[..n], landing);
      EndedNext(rows, Some(landing));
      assert rows == rows[..n] + [rows[n]] && [rows[n]][1..] == [];
      CountAppend(rows[..n], [rows[n]], landing);
    }
  }

  lemma {:induction false} JudgedIs(rows: seq<Observation>)
    ensures Judged(rows) == |Ended(rows, None)|
  {
    hide LandingOf, Ended;
    if rows == [] {
      assert |Ended(rows, None)| == 0 by { NoneEnded(None); }
    } else {
      var n := |rows| - 1;
      JudgedIs(rows[..n]);
      EndedNext(rows, None);
      assert rows == rows[..n] + [rows[n]] && [rows[n]][1..] == [];
      JudgedAppend(rows[..n], [rows[n]]);
    }
  }

  lemma NoneEnded(landing: Option<Landing>)
    ensures Ended([], landing) == {}
  {
  }

  /** The whole track: how many said anything, how many landed, how many were refused, and the median of the waits there are. */
  lemma TrackIs(rows: seq<Observation>, median: seq<real> -> real)
    ensures var track := TrackOf(rows, median);
            && track.landings == |Ended(rows, None)| && track.landed == |Ended(rows, Some(Landed))| && track.refused == |Ended(rows, Some(Refused))|
            && track.ready == if Waits(rows) == [] then None else Some(median(Waits(rows)))
  {
    CountIs(rows, Landed);
    CountIs(rows, Refused);
    JudgedIs(rows);
  }

  lemma {:induction false} WaitsExactly(rows: seq<Observation>, wait: real)
    ensures wait in Waits(rows) <==> wait > 0.0 && exists i :: 0 <= i < |rows| && LandingOf(rows[i]).Some? && WaitOf(rows[i]) == wait
  {
    if rows != [] {
      WaitsExactly(rows[1..], wait);
      if i :| 0 <= i < |rows[1..]| && LandingOf(rows[1..][i]).Some? && WaitOf(rows[1..][i]) == wait {
        assert rows[i + 1] == rows[1..][i];
      }
      if i :| 0 < i < |rows| && LandingOf(rows[i]).Some? && WaitOf(rows[i]) == wait {
        assert rows[1..][i - 1] == rows[i];
      }
    }
  }

  /** What one more row that carries no time makes of a track, wherever among the rows it falls. */
  lemma OneMoreRow(before: seq<Observation>, row: Observation, after: seq<Observation>, median: seq<real> -> real)
    requires LandingOf(row).Some? && WaitOf(row) <= 0.0
    ensures var past, next := TrackOf(before + after, median), TrackOf(before + [row] + after, median);
            && next.ready == past.ready && next.landings == past.landings + 1
            && next.landed == past.landed + (if LandingOf(row) == Some(Landed) then 1 else 0)
            && next.refused == past.refused + (if LandingOf(row) == Some(Refused) then 1 else 0)
  {
    assert [row][1..] == [];
    JudgedAppend(before, after);
    JudgedAppend(before + [row], after);
    JudgedAppend(before, [row]);
    WaitsAppend(before, after);
    WaitsAppend(before + [row], after);
    WaitsAppend(before, [row]);
    assert Waits([row]) == [] && Waits(before) + [] == Waits(before);
    OneMoreCount(before, row, after, Landed);
    OneMoreCount(before, row, after, Refused);
  }

  lemma OneMoreCount(before: seq<Observation>, row: Observation, after: seq<Observation>, landing: Landing)
    ensures Count(before + [row] + after, landing) == Count(before + after, landing) + if LandingOf(row) == Some(landing) then 1 else 0
  {
    assert [row][1..] == [];
    CountAppend(before, after, landing);
    CountAppend(before + [row], after, landing);
    CountAppend(before, [row], landing);
  }

  // ---- The scorecard ----

  /** Every observation by provider, in the order recorded. */
  function Grouped(observations: seq<Observation>, kind: string): seq<Observation> {
    if observations == [] then []
    else Grouped(observations[..|observations| - 1], kind)
         + if observations[|observations| - 1].provider == kind then [observations[|observations| - 1]] else []
  }

  lemma NothingGrouped(kind: string)
    ensures Grouped([], kind) == []
  {
  }

  lemma GroupedNext(observations: seq<Observation>, i: nat, kind: string)
    requires i < |observations|
    ensures Grouped(observations[..i + 1], kind)
         == if observations[i].provider == kind then Grouped(observations[..i], kind) + [observations[i]] else Grouped(observations[..i], kind)
  {
    assert observations[..i + 1][..i] == observations[..i];
  }

  /** `Scorecard.__init__`: the rows by provider, filled in a loop. */
  method Group(observations: seq<Observation>) returns (rows: map<string, seq<Observation>>)
    ensures forall kind :: (if kind in rows then rows[kind] else []) == Grouped(observations, kind)
  {
    hide Grouped;
    rows := map[];
    assert forall kind :: Grouped(observations[..0], kind) == [] by {
      forall kind {
        NothingGrouped(kind);
      }
    }
    for i := 0 to |observations|
      invariant forall kind :: (if kind in rows then rows[kind] else []) == Grouped(observations[..i], kind)
    {
      var row := observations[i];
      forall kind {
        GroupedNext(observations, i, kind);
      }
      rows := rows[row.provider := (if row.provider in rows then rows[row.provider] else []) + [row]];
    }
    assert observations[..|observations|] == observations;
  }

  /** The rows on one card. Two names are of one card when `card` maps them alike. */
  function OnCard(rows: seq<Observation>, gpu: string, card: string -> string): seq<Observation> {
    if rows == [] || gpu == "" then []
    else (if card(rows[0].gpu) == card(gpu) then [rows[0]] else []) + OnCard(rows[1..], gpu, card)
  }

  /** A provider's rows are exactly those it is named in, and a card's those of the same card; an unnamed card has none. */
  lemma {:induction false} GroupedExactly(observations: seq<Observation>, kind: string, row: Observation)
    ensures row in Grouped(observations, kind) <==> row in observations && row.provider == kind
  {
    if observations != [] {
      GroupedExactly(observations[..|observations| - 1], kind, row);
      assert observations == observations[..|observations| - 1] + [observations[|observations| - 1]];
    }
  }

  lemma {:induction false} OnCardExactly(rows: seq<Observation>, gpu: string, card: string -> string, row: Observation)
    ensures row in OnCard(rows, gpu, card) <==> gpu != "" && row in rows && card(row.gpu) == card(gpu)
  {
    if rows != [] && gpu != "" {
      OnCardExactly(rows[1..], gpu, card, row);
      assert rows == [rows[0]] + rows[1..];
    }
  }

  /** `Scorecard.track`: the track of a card's rows, or of all the rows when the card has none. */
  function TrackFor(rows: seq<Observation>, gpu: string, card: string -> string, median: seq<real> -> real): Track {
    TrackOf(if OnCard(rows, gpu, card) == [] then rows else OnCard(rows, gpu, card), median)
  }

  /** An offer: how it bills, and the GPUs it holds. */
  datatype Offer = Offer(billing: Billing, gpus: int) {
    predicate Sound() {
      billing.granularity > 0 && billing.rate >= 0.0 && billing.fees >= 0.0
    }
  }

  function SetupOf(track: Track): real {
    if track.ready.Some? && track.ready.value != 0.0 then track.ready.value else DEFAULT_SETUP
  }

  function GpuHours(offer: Offer, run: real): real {
    run / SECONDS_PER_HOUR * (if offer.gpus < 1 then 1 else offer.gpus) as real
  }

  function JobUsd(offer: Offer, setup: real, run: real): real
    requires offer.Sound()
  {
    CostUsd(offer.billing, setup, run, RELEASE_SECONDS)
  }

  /** The failed attempts one delivery costs, those that bill. */
  function BilledFailures(track: Track): real {
    (1.0 - track.Delivered()) / track.Delivered() * track.BilledShare()
  }

  /** `Scorecard.score`: dollars per useful GPU hour, failed landings included. */
  function UsefulUsdPerHour(track: Track, offer: Offer, run: real): real
    requires offer.Sound() && run > 0.0
  {
    var setup := SetupOf(track);
    (JobUsd(offer, setup, run) + BilledFailures(track) * JobUsd(offer, setup, 0.0)) / GpuHours(offer, run)
  }

  /**
   What the price comes to: over the GPU hours of the run, one landed attempt and the failed ones a
   delivery pays for. Each bills its setup, measured or 300 seconds, and 120 seconds of release.
   */
  lemma PriceIs(track: Track, offer: Offer, run: real)
    requires offer.Sound() && run > 0.0 && track.landed + track.refused <= track.landings
    ensures var setup := if track.ready.None? || track.ready.value == 0.0 then 300.0 else track.ready.value;
            var b, gpus, failed := offer.billing, if offer.gpus >= 1 then offer.gpus else 1, track.landings - track.landed;
            var share := if failed == 0 then 1.0 else (failed - track.refused) as real / failed as real;
            UsefulUsdPerHour(track, offer, run) * (run / 3600.0 * gpus as real)
            == (b.fees + b.rate * BilledSeconds(b, setup, run, 120.0) as real / 3600.0)
               + (failed + 1) as real / (track.landed + 1) as real * share * (b.fees + b.rate * BilledSeconds(b, setup, 0.0, 120.0) as real / 3600.0)
  {
    hide BilledFailures, BilledSeconds;
    BilledFailuresAre(track);
    HoursArePositive(offer, run);
    QuotientTimes(JobUsd(offer, SetupOf(track), run) + BilledFailures(track) * JobUsd(offer, SetupOf(track), 0.0), GpuHours(offer, run));
  }

  lemma QuotientTimes(a: real, b: real)
    requires b > 0.0
    ensures a / b * b == a
  {
  }

  // ---- How a landing moves the price ----

  /** The same in whole numbers: failures plus one over landed plus one, times the share that billed. */
  lemma BilledFailuresAre(track: Track)
    requires track.landed + track.refused <= track.landings
    ensures BilledFailures(track) == (track.Failures() + 1) as real / (track.landed + 1) as real * track.BilledShare()
    ensures 0.0 <= track.BilledShare() <= 1.0 && BilledFailures(track) >= 0.0
  {
    var l, n, f := (track.landed + 1) as real, (track.landings + 2) as real, (track.Failures() + 1) as real;
    FailuresPerDelivery(l, n);
    assert n - l == f;
    ShareIsAShare(track);
    QuotientNotNegative(f, l);
    ProductNotNegative(f / l, track.BilledShare());
  }

  lemma FailuresPerDelivery(l: real, n: real)
    requires 0.0 < l <= n
    ensures (1.0 - l / n) / (l / n) == (n - l) / l
  {
    var d := l / n;
    assert d * n == l;
    assert d > 0.0;
    assert (n - l) * d == d * n - l * d;
    CrossDivide(1.0 - d, d, n - l, l);
  }

  lemma ShareIsAShare(track: Track)
    requires track.landed + track.refused <= track.landings
    ensures 0.0 <= track.BilledShare() <= 1.0
  {
    if track.Failures() != 0 {
      QuotientBounds((track.Failures() - track.refused) as real, track.Failures() as real);
    }
  }

  lemma QuotientNotNegative(a: real, b: real)
    requires a >= 0.0 && b > 0.0
    ensures a / b >= 0.0
  {
  }

  lemma CrossDivide(a: real, b: real, c: real, d: real)
    requires b > 0.0 && d > 0.0 && a * d == c * b
    ensures a / b == c / d
  {
    assert a / b * b == a && c / d * d == c;
    assert (a / b - c / d) * (b * d) == a * d - c * b;
  }

  lemma QuotientBounds(a: real, b: real)
    requires b > 0.0 && 0.0 <= a <= b
    ensures 0.0 <= a / b <= 1.0
  {
  }

  lemma ProductNotNegative(a: real, b: real)
    requires a >= 0.0 && b >= 0.0
    ensures a * b >= 0.0
  {
  }

  /** How the failures a delivery pays for move: fewer with a landed row, no fewer with a billed failure, no more with a refused create. */
  lemma LandedLightens(past: Track, next: Track)
    requires past.landed + past.refused <= past.landings
    requires next == past.(landings := past.landings + 1, landed := past.landed + 1)
    ensures BilledFailures(next) <= BilledFailures(past)
  {
    hide BilledFailures;
    BilledFailuresAre(past);
    BilledFailuresAre(next);
    var f, l := (past.Failures() + 1) as real, (past.landed + 1) as real;
    DivisorGrows(f, l);
    MonotoneProduct(f / (l + 1.0), f / l, past.BilledShare(), past.BilledShare());
  }

  lemma DivisorGrows(a: real, b: real)
    requires a >= 0.0 && b > 0.0
    ensures 0.0 <= a / (b + 1.0) <= a / b
  {
    var x, y := a / (b + 1.0), a / b;
    assert x * (b + 1.0) == a && y * b == a;
    assert (y - x) * b == x;
    FactorOut(x, b + 1.0);
    FactorOut(y - x, b);
  }

  lemma MonotoneProduct(a: real, b: real, c: real, d: real)
    requires 0.0 <= a <= b && 0.0 <= c <= d
    ensures a * c <= b * d
  {
    assert a * c <= b * c <= b * d;
  }

  lemma BilledFailureWeighs(past: Track, next: Track)
    requires past.landed + past.refused <= past.landings
    requires next == past.(landings := past.landings + 1)
    ensures BilledFailures(past) <= BilledFailures(next)
  {
    hide BilledFailures;
    BilledFailuresAre(past);
    BilledFailuresAre(next);
    var f, l, r := past.Failures() as real, (past.landed + 1) as real, past.refused as real;
    QuotientNotNegative(f + 1.0, l);
    QuotientMonotone(f + 1.0, f + 2.0, l);
    if past.Failures() != 0 {
      assert (f - r) / f <= (f + 1.0 - r) / (f + 1.0) by { QuotientGrows(f - r, f); }
    }
    MonotoneProduct((f + 1.0) / l, (f + 2.0) / l, past.BilledShare(), next.BilledShare());
  }

  lemma FactorOut(a: real, factor: real)
    requires factor > 0.0 && a * factor >= 0.0
    ensures a >= 0.0
  {
  }

  lemma QuotientGrows(a: real, b: real)
    requires 0.0 <= a <= b && b > 0.0
    ensures a / b <= (a + 1.0) / (b + 1.0)
  {
    var x, y := a / b, (a + 1.0) / (b + 1.0);
    assert x * b == a && y * (b + 1.0) == a + 1.0;
    assert (y - x) * (b * (b + 1.0)) == (a + 1.0) * b - a * (b + 1.0) == b - a;
    FactorOut(y - x, b * (b + 1.0));
  }

  lemma RefusedLightens(past: Track, next: Track)
    requires past.landed + past.refused <= past.landings
    requires next == past.(landings := past.landings + 1, refused := past.refused + 1)
    ensures BilledFailures(next) <= BilledFailures(past)
  {
    hide BilledFailures;
    BilledFailuresAre(past);
    BilledFailuresAre(next);
    var f, l, r := past.Failures() as real, (past.landed + 1) as real, past.refused as real;
    if past.Failures() == 0 {
      assert next.BilledShare() == 0.0;
    } else {
      SpreadThinner(f, l, f - r);
    }
  }

  /** The same billed failures spread over one failure more. */
  lemma SpreadThinner(f: real, l: real, billed: real)
    requires f > 0.0 && l > 0.0 && billed >= 0.0
    ensures (f + 2.0) / l * (billed / (f + 1.0)) <= (f + 1.0) / l * (billed / f)
  {
    Regroup(f + 2.0, l, billed, f + 1.0);
    Regroup(f + 1.0, l, billed, f);
    RatioShrinks(f);
    QuotientNotNegative(f + 2.0, f + 1.0);
    QuotientNotNegative(billed, l);
    MonotoneProduct((f + 2.0) / (f + 1.0), (f + 1.0) / f, billed / l, billed / l);
  }

  lemma RatioShrinks(f: real)
    requires f > 0.0
    ensures (f + 2.0) / (f + 1.0) <= (f + 1.0) / f
  {
    var x, y := (f + 2.0) / (f + 1.0), (f + 1.0) / f;
    assert x * (f + 1.0) == f + 2.0 && y * f == f + 1.0;
    assert (y - x) * (f * (f + 1.0)) == (f + 1.0) * (f + 1.0) - (f + 2.0) * f == 1.0;
    FactorOut(y - x, f * (f + 1.0));
  }

  lemma Regroup(a: real, b: real, c: real, d: real)
    requires b > 0.0 && d > 0.0
    ensures a / b * (c / d) == a / d * (c / b)
  {
    var w, x, y, z := a / b, c / d, a / d, c / b;
    assert w * b == a && x * d == c && y * d == a && z * b == c;
    assert w * x * (b * d) == a * c == y * z * (b * d);
    CancelFactor(w * x, y * z, b * d);
  }

  lemma CancelFactor(a: real, b: real, factor: real)
    requires factor > 0.0 && a * factor == b * factor
    ensures a == b
  {
    assert (a - b) * factor == 0.0;
  }

  /** Of two tracks with one setup time, the one that pays for fewer failures is no dearer. */
  lemma LighterIsNoDearer(light: Track, heavy: Track, offer: Offer, run: real)
    requires offer.Sound() && run > 0.0 && SetupOf(light) == SetupOf(heavy) && SetupOf(light) >= 0.0
    requires 0.0 <= BilledFailures(light) <= BilledFailures(heavy)
    ensures UsefulUsdPerHour(light, offer, run) <= UsefulUsdPerHour(heavy, offer, run)
  {
    hide BilledFailures, SetupOf, GpuHours, CostUsd;
    var setup, hours := SetupOf(light), GpuHours(offer, run);
    CostIsNotNegative(offer.billing, setup, 0.0, RELEASE_SECONDS);
    assert hours > 0.0 by { HoursArePositive(offer, run); }
    var job, failed := JobUsd(offer, setup, run), JobUsd(offer, setup, 0.0);
    MonotoneProduct(BilledFailures(light), BilledFailures(heavy), failed, failed);
    QuotientMonotone(job + BilledFailures(light) * failed, job + BilledFailures(heavy) * failed, hours);
  }

  lemma HoursArePositive(offer: Offer, run: real)
    requires run > 0.0
    ensures GpuHours(offer, run) > 0.0
  {
    var gpus := (if offer.gpus < 1 then 1 else offer.gpus) as real;
    assert run / SECONDS_PER_HOUR > 0.0 && gpus >= 1.0;
    assert run / SECONDS_PER_HOUR * gpus > 0.0;
  }

  lemma QuotientMonotone(a: real, b: real, d: real)
    requires a <= b && d > 0.0
    ensures a / d <= b / d
  {
  }

  // ---- On a card that already has rows ----

  lemma {:induction false} OnCardAppend(one: seq<Observation>, two: seq<Observation>, gpu: string, card: string -> string)
    ensures OnCard(one + two, gpu, card) == OnCard(one, gpu, card) + OnCard(two, gpu, card)
  {
    if one == [] {
      assert one + two == two;
    } else {
      assert (one + two)[1..] == one[1..] + two;
      OnCardAppend(one[1..], two, gpu, card);
    }
  }

  /** A track's counts are those of some rows, so its landed and refused are no more than its landings. */
  lemma TracksAreConsistent(rows: seq<Observation>, gpu: string, card: string -> string, median: seq<real> -> real)
    ensures var track := TrackFor(rows, gpu, card, median); track.landed + track.refused <= track.landings
  {
    CountsAddUp(if OnCard(rows, gpu, card) == [] then rows else OnCard(rows, gpu, card));
  }

  /** One more row of a card that already has rows, carrying no time, moves the card's track by that row alone. */
  lemma CardMovesByItsRow(before: seq<Observation>, row: Observation, after: seq<Observation>, gpu: string, card: string -> string, median: seq<real> -> real)
    requires OnCard(before + after, gpu, card) != [] && card(row.gpu) == card(gpu)
    requires LandingOf(row).Some? && WaitOf(row) <= 0.0
    ensures var past, next := TrackFor(before + after, gpu, card, median), TrackFor(before + [row] + after, gpu, card, median);
            && next.ready == past.ready && next.landings == past.landings + 1
            && next.landed == past.landed + (if LandingOf(row) == Some(Landed) then 1 else 0)
            && next.refused == past.refused + (if LandingOf(row) == Some(Refused) then 1 else 0)
  {
    OnCardAppend(before, after, gpu, card);
    OnCardAppend(before + [row], after, gpu, card);
    OnCardAppend(before, [row], gpu, card);
    assert gpu != "" by { assert OnCard(before + after, "", card) == []; }
    assert [row][1..] == [];
    assert OnCard([row], gpu, card) == [row];
    OneMoreRow(OnCard(before, gpu, card), row, OnCard(after, gpu, card), median);
  }

  /** A median of positive waits is positive. */
  ghost predicate Measures(median: seq<real> -> real) {
    forall waits :: waits != [] && (forall i :: 0 <= i < |waits| ==> waits[i] > 0.0) ==> median(waits) > 0.0
  }

  lemma {:induction false} WaitsArePositive(rows: seq<Observation>)
    ensures forall i :: 0 <= i < |Waits(rows)| ==> Waits(rows)[i] > 0.0
  {
    if rows != [] {
      WaitsArePositive(rows[1..]);
    }
  }

  lemma SetupIsPositive(rows: seq<Observation>, gpu: string, card: string -> string, median: seq<real> -> real)
    requires Measures(median)
    ensures SetupOf(TrackFor(rows, gpu, card, median)) > 0.0
  {
    WaitsArePositive(if OnCard(rows, gpu, card) == [] then rows else OnCard(rows, gpu, card));
  }

  /**
   On a card that already has rows, one more row that carries no time: a landed one never raises the
   price of a useful hour, a billed failure never lowers it, and a refused create never raises it.
   */
  lemma OneMoreLandingMovesThePrice(before: seq<Observation>, row: Observation, after: seq<Observation>, gpu: string,
                                    card: string -> string, median: seq<real> -> real, offer: Offer, run: real)
    requires offer.Sound() && run > 0.0 && Measures(median)
    requires OnCard(before + after, gpu, card) != [] && card(row.gpu) == card(gpu)
    requires LandingOf(row).Some? && WaitOf(row) <= 0.0
    ensures var was, becomes := UsefulUsdPerHour(TrackFor(before + after, gpu, card, median), offer, run),
                            UsefulUsdPerHour(TrackFor(before + [row] + after, gpu, card, median), offer, run);
            match LandingOf(row).value
            case Landed => becomes <= was
            case Failed => was <= becomes
            case Refused => becomes <= was
  {
    hide TrackFor, OnCard, UsefulUsdPerHour, BilledFailures, Measures;
    var past, next := TrackFor(before + after, gpu, card, median), TrackFor(before + [row] + after, gpu, card, median);
    CardMovesByItsRow(before, row, after, gpu, card, median);
    TracksAreConsistent(before + after, gpu, card, median);
    TracksAreConsistent(before + [row] + after, gpu, card, median);
    SetupIsPositive(before + after, gpu, card, median);
    BilledFailuresAre(past);
    BilledFailuresAre(next);
    match LandingOf(row).value
    case Landed =>
      LandedLightens(past, next);
      LighterIsNoDearer(next, past, offer, run);
    case Failed =>
      BilledFailureWeighs(past, next);
      LighterIsNoDearer(past, next, offer, run);
    case Refused =>
      RefusedLightens(past, next);
      LighterIsNoDearer(next, past, offer, run);
  }

  /** A useful hour is never cheaper than the landed job's own cost per GPU hour. */
  lemma NeverBelowTheJob(rows: seq<Observation>, gpu: string, card: string -> string, median: seq<real> -> real, offer: Offer, run: real)
    requires offer.Sound() && run > 0.0 && Measures(median)
    ensures var track := TrackFor(rows, gpu, card, median);
            JobUsd(offer, SetupOf(track), run) / GpuHours(offer, run) <= UsefulUsdPerHour(track, offer, run)
  {
    hide BilledFailures, SetupOf, GpuHours, CostUsd, TrackFor, Measures;
    var track := TrackFor(rows, gpu, card, median);
    TracksAreConsistent(rows, gpu, card, median);
    SetupIsPositive(rows, gpu, card, median);
    BilledFailuresAre(track);
    HoursArePositive(offer, run);
    CostIsNotNegative(offer.billing, SetupOf(track), 0.0, RELEASE_SECONDS);
    ProductNotNegative(BilledFailures(track), JobUsd(offer, SetupOf(track), 0.0));
    QuotientMonotone(JobUsd(offer, SetupOf(track), run),
                     JobUsd(offer, SetupOf(track), run) + BilledFailures(track) * JobUsd(offer, SetupOf(track), 0.0), GpuHours(offer, run));
  }

  // ---- The unmeasured offer ----

  const UNMEASURED := Track(0, 0, 0, None)

  /** What one delivery costs, failed attempts included. */
  function DeliveryUsd(track: Track, offer: Offer, run: real): real
    requires offer.Sound()
  {
    JobUsd(offer, SetupOf(track), run) + BilledFailures(track) * JobUsd(offer, SetupOf(track), 0.0)
  }

  /** A longer setup never bills less. */
  lemma BilledGrows(b: Billing, less: real, more: real, run: real, drain: real)
    requires b.granularity > 0 && less <= more
    ensures BilledSeconds(b, less, run, drain) <= BilledSeconds(b, more, run, drain)
  {
    RoundsUp(more + run + drain, b.granularity);
    BilledSecondsAreTheLeast(b, less, run, drain);
    var units := Ceiling((more + run + drain) / b.granularity as real);
    assert less + run + drain <= (units * b.granularity) as real;
  }

  lemma CostFollowsSeconds(b: Billing, less: int, more: int)
    requires b.rate >= 0.0 && less <= more
    ensures b.fees + b.rate * less as real / SECONDS_PER_HOUR <= b.fees + b.rate * more as real / SECONDS_PER_HOUR
  {
    ProductNotNegative(b.rate, (more - less) as real);
    assert b.rate * more as real - b.rate * less as real == b.rate * (more - less) as real;
  }

  lemma JobGrows(offer: Offer, less: real, more: real, run: real)
    requires offer.Sound() && less <= more
    ensures JobUsd(offer, less, run) <= JobUsd(offer, more, run)
  {
    hide BilledSeconds;
    BilledGrows(offer.billing, less, more, run, RELEASE_SECONDS);
    CostFollowsSeconds(offer.billing, BilledSeconds(offer.billing, less, run, RELEASE_SECONDS), BilledSeconds(offer.billing, more, run, RELEASE_SECONDS));
  }

  /** Two walls billed apart bill no less than one no longer than both. */
  lemma BilledTogether(b: Billing, setup: real, run: real)
    requires b.granularity > 0 && setup <= DEFAULT_SETUP + DEFAULT_SETUP + RELEASE_SECONDS
    requires run >= 0.0
    ensures BilledSeconds(b, setup, run, RELEASE_SECONDS)
         <= BilledSeconds(b, DEFAULT_SETUP, run, RELEASE_SECONDS) + BilledSeconds(b, DEFAULT_SETUP, 0.0, RELEASE_SECONDS)
  {
    hide Ceiling;
    var long, short := DEFAULT_SETUP + run + RELEASE_SECONDS, DEFAULT_SETUP + 0.0 + RELEASE_SECONDS;
    var g := b.granularity;
    var one, two := Ceiling(long / g as real), Ceiling(short / g as real);
    RoundsUp(long, g);
    RoundsUp(short, g);
    BilledSecondsAreTheLeast(b, setup, run, RELEASE_SECONDS);
    BilledSecondsAreTheLeast(b, DEFAULT_SETUP, 0.0, RELEASE_SECONDS);
    UnitsTogether(one, two, g, long, short);
    assert setup + run + RELEASE_SECONDS <= ((one + two) * g) as real;
  }

  lemma UnitsTogether(one: int, two: int, g: int, long: real, short: real)
    requires long <= (one * g) as real && short <= (two * g) as real
    ensures (one + two) * g == one * g + two * g && long + short <= ((one + two) * g) as real
  {
  }

  lemma CostTogether(b: Billing, whole: int, one: int, two: int)
    requires b.rate >= 0.0 && b.fees >= 0.0 && whole <= one + two
    ensures b.fees + b.rate * whole as real / SECONDS_PER_HOUR
         <= b.fees + b.rate * one as real / SECONDS_PER_HOUR + (b.fees + b.rate * two as real / SECONDS_PER_HOUR)
  {
    CostFollowsSeconds(b, whole, one + two);
    assert b.rate * (one + two) as real == b.rate * one as real + b.rate * two as real;
  }

  lemma JobTogether(offer: Offer, setup: real, run: real)
    requires offer.Sound() && setup <= DEFAULT_SETUP + DEFAULT_SETUP + RELEASE_SECONDS && run >= 0.0
    ensures JobUsd(offer, setup, run) <= JobUsd(offer, DEFAULT_SETUP, run) + JobUsd(offer, DEFAULT_SETUP, 0.0)
  {
    hide BilledSeconds;
    BilledTogether(offer.billing, setup, run);
    CostTogether(offer.billing, BilledSeconds(offer.billing, setup, run, RELEASE_SECONDS),
                 BilledSeconds(offer.billing, DEFAULT_SETUP, run, RELEASE_SECONDS), BilledSeconds(offer.billing, DEFAULT_SETUP, 0.0, RELEASE_SECONDS));
  }

  /** The setups a mostly delivered offer may take: the default one, or another 420 seconds when its failures bill nothing. */
  predicate SoonEnough(track: Track) {
    SetupOf(track) <= DEFAULT_SETUP
    || (track.BilledShare() == 0.0 && SetupOf(track) <= DEFAULT_SETUP + DEFAULT_SETUP + RELEASE_SECONDS)
  }

  lemma SoonEnoughIsNoDearer(track: Track, offer: Offer, run: real)
    requires offer.Sound() && run > 0.0 && SetupOf(track) >= 0.0
    requires track.landed + track.refused <= track.landings && track.Failures() <= track.landed
    requires SoonEnough(track)
    ensures DeliveryUsd(track, offer, run) <= DeliveryUsd(UNMEASURED, offer, run)
  {
    hide JobUsd, BilledFailures;
    UnmeasuredPaysForOne();
    MostlyDeliveredPaysForLess(track);
    var setup, share := SetupOf(track), BilledFailures(track);
    if setup <= DEFAULT_SETUP {
      JobGrows(offer, setup, DEFAULT_SETUP, run);
      JobGrows(offer, setup, DEFAULT_SETUP, 0.0);
      FailedNotNegative(offer, setup);
      MonotoneProduct(share, 1.0, JobUsd(offer, setup, 0.0), JobUsd(offer, DEFAULT_SETUP, 0.0));
    } else {
      BilledFailuresAre(track);
      JobTogether(offer, setup, run);
    }
  }

  lemma FailedNotNegative(offer: Offer, setup: real)
    requires offer.Sound() && setup >= 0.0
    ensures JobUsd(offer, setup, 0.0) >= 0.0
  {
    CostIsNotNegative(offer.billing, setup, 0.0, RELEASE_SECONDS);
  }

  /** More units are no shorter. */
  lemma {:induction false} MoreUnits(n: int, more: int, g: int)
    requires g > 0 && n <= more
    ensures n * g <= more * g
    decreases more - n
  {
    if n < more {
      MoreUnits(n, more - 1, g);
      assert more * g == (more - 1) * g + g;
    }
  }

  lemma UnitsOf(wall: real, g: int, units: int)
    requires g > 0 && ((units - 1) * g) as real < wall <= (units * g) as real
    ensures Ceiling(wall / g as real) == units
  {
    hide Ceiling;
    var n := Ceiling(wall / g as real);
    RoundsUp(wall, g);
    if n < units {
      MoreUnits(n, units - 1, g);
    }
  }

  lemma BilledIs(b: Billing, setup: real, run: real, units: int)
    requires b.granularity > 0 && b.minimum <= units * b.granularity
    requires ((units - 1) * b.granularity) as real < setup + run + RELEASE_SECONDS <= (units * b.granularity) as real
    ensures BilledSeconds(b, setup, run, RELEASE_SECONDS) == units * b.granularity
  {
    hide Ceiling;
    UnitsOf(setup + run + RELEASE_SECONDS, b.granularity, units);
  }

  /** An offer that bills one second at a time, or by the unit. */
  function PlainOffer(granularity: int): Offer {
    Offer(Billing(1.0, granularity, 0, 0.0), 1)
  }

  lemma PlainJob(granularity: int, setup: real, run: real, units: int)
    requires granularity > 0 && units >= 0
    requires ((units - 1) * granularity) as real < setup + run + RELEASE_SECONDS <= (units * granularity) as real
    ensures JobUsd(PlainOffer(granularity), setup, run) == (units * granularity) as real / SECONDS_PER_HOUR
  {
    ProductNotNegative(units as real, granularity as real);
    assert 0 <= units * granularity;
    BilledIs(PlainOffer(granularity).billing, setup, run, units);
  }

  /** A unit so long that the slow setup alone spills into another one. */
  lemma SpillsIntoAnother(track: Track, granularity: int)
    requires SetupOf(track) > DEFAULT_SETUP && BilledFailures(track) > 0.0
    requires granularity as real >= SetupOf(track) + RELEASE_SECONDS
    ensures var offer, run := PlainOffer(granularity), granularity as real - DEFAULT_SETUP - RELEASE_SECONDS;
            run > 0.0 && offer.Sound() && DeliveryUsd(track, offer, run) > DeliveryUsd(UNMEASURED, offer, run)
  {
    hide BilledFailures, JobUsd;
    var offer, run, unit := PlainOffer(granularity), granularity as real - DEFAULT_SETUP - RELEASE_SECONDS, granularity as real / SECONDS_PER_HOUR;
    UnmeasuredPaysForOne();
    assert 1 * granularity == granularity && 2 * granularity == granularity + granularity;
    PlainJob(granularity, SetupOf(track), run, 2);
    PlainJob(granularity, SetupOf(track), 0.0, 1);
    PlainJob(granularity, DEFAULT_SETUP, run, 1);
    PlainJob(granularity, DEFAULT_SETUP, 0.0, 1);
    assert unit > 0.0;
    assert BilledFailures(track) * unit > 0.0;
  }

  /** By the second, a setup longer than two default attempts costs more than both of them. */
  lemma OutlastsTwoAttempts(track: Track)
    requires SetupOf(track) > DEFAULT_SETUP + DEFAULT_SETUP + RELEASE_SECONDS && BilledFailures(track) == 0.0
    ensures DeliveryUsd(track, PlainOffer(1), 1.0) > DeliveryUsd(UNMEASURED, PlainOffer(1), 1.0)
  {
    hide BilledFailures;
    UnmeasuredPaysForOne();
    BilledSecondsAreTheLeast(PlainOffer(1).billing, SetupOf(track), 1.0, RELEASE_SECONDS);
    PlainJob(1, DEFAULT_SETUP, 1.0, 421);
    PlainJob(1, DEFAULT_SETUP, 0.0, 420);
  }

  lemma PricesCompareByDelivery(one: Track, two: Track, offer: Offer, run: real)
    requires offer.Sound() && run > 0.0
    ensures UsefulUsdPerHour(one, offer, run) <= UsefulUsdPerHour(two, offer, run)
       <==> DeliveryUsd(one, offer, run) <= DeliveryUsd(two, offer, run)
  {
    hide JobUsd, BilledFailures, SetupOf, GpuHours;
    HoursArePositive(offer, run);
    var a, b, hours := DeliveryUsd(one, offer, run), DeliveryUsd(two, offer, run), GpuHours(offer, run);
    assert UsefulUsdPerHour(one, offer, run) == a / hours && UsefulUsdPerHour(two, offer, run) == b / hours;
    QuotientsCompare(a, b, hours);
  }

  lemma QuotientsCompare(a: real, b: real, d: real)
    requires d > 0.0
    ensures a / d <= b / d <==> a <= b
  {
    if a <= b {
      QuotientMonotone(a, b, d);
    } else {
      assert a / d * d == a && b / d * d == b;
      assert (a / d - b / d) * d > 0.0;
    }
  }

  /** Whatever is offered and for however long a run, `track` is no dearer than an offer never measured. */
  ghost predicate NeverDearer(track: Track) {
    forall offer: Offer, run: real :: offer.Sound() && run > 0.0 ==>
      UsefulUsdPerHour(track, offer, run) <= UsefulUsdPerHour(UNMEASURED, offer, run)
  }

  lemma DearerSomewhere(track: Track, offer: Offer, run: real)
    requires offer.Sound() && run > 0.0
    requires DeliveryUsd(track, offer, run) > DeliveryUsd(UNMEASURED, offer, run)
    ensures !NeverDearer(track)
  {
    hide UsefulUsdPerHour, DeliveryUsd;
    PricesCompareByDelivery(track, UNMEASURED, offer, run);
    assert !(UsefulUsdPerHour(track, offer, run) <= UsefulUsdPerHour(UNMEASURED, offer, run));
  }

  /**
   Without a landing the share is one half. Against that, an offer at least half of whose landings delivered
   is no dearer at any rate and for any run, exactly when it is ready soon enough.
   */
  lemma UnmeasuredRanksBehind(track: Track)
    requires track.landed + track.refused <= track.landings && track.Failures() <= track.landed && SetupOf(track) >= 0.0
    ensures UNMEASURED.Delivered() == 0.5
    ensures NeverDearer(track) <==> SoonEnough(track)
  {
    hide BilledFailures, DeliveryUsd, UsefulUsdPerHour;
    UnmeasuredPaysForOne();
    BilledFailuresAre(track);
    if SoonEnough(track) {
      forall offer: Offer, run: real | offer.Sound() && run > 0.0
        ensures UsefulUsdPerHour(track, offer, run) <= UsefulUsdPerHour(UNMEASURED, offer, run)
      {
        SoonEnoughIsNoDearer(track, offer, run);
        PricesCompareByDelivery(track, UNMEASURED, offer, run);
      }
    } else if track.BilledShare() == 0.0 {
      OutlastsTwoAttempts(track);
      DearerSomewhere(track, PlainOffer(1), 1.0);
    } else {
      PaysForSome(track);
      var granularity := Ceiling(SetupOf(track) + RELEASE_SECONDS);
      SpillsIntoAnother(track, granularity);
      DearerSomewhere(track, PlainOffer(granularity), granularity as real - DEFAULT_SETUP - RELEASE_SECONDS);
    }
  }

  lemma PaysForSome(track: Track)
    requires track.landed + track.refused <= track.landings && track.BilledShare() != 0.0
    ensures BilledFailures(track) > 0.0
  {
    hide BilledFailures;
    BilledFailuresAre(track);
    var f, l := (track.Failures() + 1) as real, (track.landed + 1) as real;
    assert f / l > 0.0;
  }

  /** One landing out of one, ready after a day and more: dearer than an offer nobody ever measured. */
  lemma SlowSetupIsDearer()
    ensures var slow := Track(1, 1, 0, Some(100000.0)); slow.Delivered() > 0.5 && !NeverDearer(slow)
  {
    var slow := Track(1, 1, 0, Some(100000.0));
    assert slow.Delivered() == 2.0 / 3.0;
    UnmeasuredRanksBehind(slow);
  }

  lemma UnmeasuredPaysForOne()
    ensures UNMEASURED.Delivered() == 0.5 && BilledFailures(UNMEASURED) == 1.0
  {
    hide BilledFailures;
    UnmeasuredDeliversHalf();
    FailuresAtHalf(UNMEASURED);
  }

  lemma UnmeasuredDeliversHalf()
    ensures UNMEASURED.Delivered() == 0.5 && UNMEASURED.BilledShare() == 1.0
  {
  }

  lemma FailuresAtHalf(track: Track)
    requires track.Delivered() == 0.5 && track.BilledShare() == 1.0
    ensures BilledFailures(track) == 1.0
  {
    var delivered := track.Delivered();
    assert 1.0 - delivered == delivered;
    OneOfItself(delivered);
  }

  lemma OneOfItself(a: real)
    requires a > 0.0
    ensures a / a == 1.0
  {
  }

  lemma MostlyDeliveredPaysForLess(track: Track)
    requires track.landed + track.refused <= track.landings && track.Failures() <= track.landed
    ensures 0.0 <= BilledFailures(track) <= 1.0
  {
    BilledFailuresAre(track);
    var f, l := (track.Failures() + 1) as real, (track.landed + 1) as real;
    QuotientBounds(f, l);
    MonotoneProduct(f / l, 1.0, track.BilledShare(), 1.0);
  }
}
