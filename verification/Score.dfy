/**
 The head-to-head score: each repository's weighted share of the pair, in whole percent.
 Floating point is taken as real arithmetic; its rounding errors are not part of this model.
 */
module Score {
  import opened Wrappers
  import opened DayRows
  import opened Momentum
  import opened H2HChart

  /** `math.Round`: the nearest integer, halves away from zero. */
  function Round(x: real): int {
    if x >= 0.0 then (x + 0.5).Floor else -(0.5 - x).Floor
  }

  /** The nearest integer, and the same on both sides of zero. */
  lemma RoundIsNearest(x: real)
    ensures -0.5 <= Round(x) as real - x <= 0.5
    ensures Round(-x) == -Round(x)
  {
  }

  predicate IsHalf(x: real) {
    x - x.Floor as real == 0.5
  }

  datatype Pair = Pair(a: real, b: real)

  function NonNegative(x: real): real {
    if x < 0.0 then 0.0 else x
  }

  function SharePair(a: real, b: real): Pair {
    var x, y := NonNegative(a), NonNegative(b);
    if x + y <= 0.0 then Pair(0.5, 0.5) else Pair(x / (x + y), y / (x + y))
  }

  datatype Scores = Scores(a: int, b: int)

  datatype Three = Three(clones: int, views: int, momentum: real)

  /** The weighted shares of both repositories, in percent before rounding. */
  function RawThree(x: Three, y: Three, wC: real, wV: real, wM: real): Pair {
    var c := SharePair(x.clones as real, y.clones as real);
    var v := SharePair(x.views as real, y.views as real);
    var m := SharePair(x.momentum, y.momentum);
    Pair((wC * c.a + wV * v.a + wM * m.a) * 100.0, (wC * c.b + wV * v.b + wM * m.b) * 100.0)
  }

  function RawTwo(x: Three, y: Three, wC: real, wV: real): Pair {
    var c := SharePair(x.clones as real, y.clones as real);
    var v := SharePair(x.views as real, y.views as real);
    Pair((wC * c.a + wV * v.a) * 100.0, (wC * c.b + wV * v.b) * 100.0)
  }

  // ---------- One share ----------

  lemma SharesOfOne(a: real, b: real)
    ensures var s := SharePair(a, b); 0.0 <= s.a <= 1.0 && 0.0 <= s.b <= 1.0 && s.a + s.b == 1.0
  {
    var x, y := NonNegative(a), NonNegative(b);
    if x + y > 0.0 {
      Quotient(x, x + y);
      Quotient(y, x + y);
      assert x / (x + y) + y / (x + y) == (x + y) / (x + y);
    }
  }

  lemma Quotient(x: real, t: real)
    requires 0.0 <= x <= t && t > 0.0
    ensures 0.0 <= x / t <= 1.0
  {
    assert x / t * t == x;
  }

  lemma ShareGrows(a: real, a': real, b: real)
    requires a <= a'
    ensures SharePair(a, b).a <= SharePair(a', b).a
    ensures SharePair(a, b).b >= SharePair(a', b).b
  {
    var x, x', y := NonNegative(a), NonNegative(a'), NonNegative(b);
    SharesOfOne(a, b);
    SharesOfOne(a', b);
    if x + y > 0.0 {
      CrossMultiply(x, x', y);
    } else if x' > 0.0 {
      assert x' / (x' + y) == 1.0;
    }
  }

  lemma CrossMultiply(x: real, x': real, y: real)
    requires 0.0 <= x <= x' && y >= 0.0 && x + y > 0.0
    ensures x / (x + y) <= x' / (x' + y)
  {
    var t, t' := x + y, x' + y;
    assert x * t' <= x' * t by {
      assert x * y <= x' * y;
    }
    var p, q := x / t, x' / t';
    assert p * t == x && q * t' == x';
    if p > q {
      assert p * (t * t') > q * (t * t');
      assert p * (t * t') == x * t' && q * (t * t') == x' * t;
    }
  }

  // ---------- Rounding a pair that makes a hundred ----------

  lemma RoundedPair(a: real, b: real)
    requires 0.0 <= a <= 100.0 && a + b == 100.0
    ensures 0 <= Round(a) <= 100 && 0 <= Round(b) <= 100
    ensures Round(a) + Round(b) == if IsHalf(a) then 101 else 100
    ensures IsHalf(a) <==> IsHalf(b)
  {
    var n := a.Floor;
    var f := a - n as real;
    if f == 0.0 {
      assert b.Floor == 100 - n;
    } else {
      assert b.Floor == 99 - n;
    }
    assert Round(a) == if f < 0.5 then n else n + 1;
    assert Round(b) == if f == 0.0 || f > 0.5 then (if f == 0.0 then 100 - n else 99 - n) else 100 - n;
  }

  lemma RoundGrows(x: real, y: real)
    requires 0.0 <= x <= y
    ensures Round(x) <= Round(y)
  {
  }

  // ---------- Comparing two repositories ----------

  datatype RepoMetrics = RepoMetrics(
    name: string,
    clones7d: int, clones30d: int, totalClones: int,
    views7d: int, views30d: int, totalViews: int,
    momentum7d: real, momentum30d: real)
  {
    /** The metrics an interval compares; over all time there is no momentum. */
    function On(interval: Interval): Three {
      match interval
      case SevenDays => Three(clones7d, views7d, momentum7d)
      case ThirtyDays => Three(clones30d, views30d, momentum30d)
      case AllTime => Three(totalClones, totalViews, 0.0)
    }
  }

  datatype MetricRow = MetricRow(weightPct: int, valueA: int, valueB: int, leadsA: bool)

  datatype Result = Result(
    interval: Interval, repoA: string, repoB: string,
    scoreA: int, scoreB: int, deltaPct: real, leadsA: bool, rows: seq<MetricRow>)

  function BuildRow(weightPct: int, a: int, b: int): MetricRow {
    MetricRow(weightPct, a, b, a >= b)
  }

  function BuildMomentumRow(weightPct: int, a: real, b: real): MetricRow {
    MetricRow(weightPct, Round(a * 100.0), Round(b * 100.0), a >= b)
  }

  function WeightedThreePair(x: Three, y: Three, wC: real, wV: real, wM: real): Scores {
    var raw := RawThree(x, y, wC, wV, wM);
    Scores(Round(raw.a), Round(raw.b))
  }

  function WeightedTwoPair(x: Three, y: Three, wC: real, wV: real): Scores {
    var raw := RawTwo(x, y, wC, wV);
    Scores(Round(raw.a), Round(raw.b))
  }

  function DeltaPct(scoreA: int, scoreB: int): real {
    var diff := if scoreA >= scoreB then scoreA - scoreB else scoreB - scoreA;
    var leader := if scoreA >= scoreB then scoreA else scoreB;
    if leader < 1 then 0.0 else diff as real / leader as real * 100.0
  }

  function Rows(x: Three, y: Three, interval: Interval): seq<MetricRow> {
    if interval.AllTime? then [BuildRow(50, x.clones, y.clones), BuildRow(50, x.views, y.views)]
    else [BuildRow(50, x.clones, y.clones), BuildRow(30, x.views, y.views), BuildMomentumRow(20, x.momentum, y.momentum)]
  }

  function ScoresOf(x: Three, y: Three, interval: Interval): Scores {
    if interval.AllTime? then WeightedTwoPair(x, y, 0.5, 0.5) else WeightedThreePair(x, y, 0.5, 0.3, 0.2)
  }

  function Compare(a: Option<RepoMetrics>, b: Option<RepoMetrics>, interval: Interval): Option<Result> {
    if a.None? || b.None? then None
    else
      var x, y := a.value.On(interval), b.value.On(interval);
      var s := ScoresOf(x, y, interval);
      Some(Result(interval, a.value.name, b.value.name, s.a, s.b, DeltaPct(s.a, s.b), s.a >= s.b, Rows(x, y, interval)))
  }

  // ---------- What the scores promise ----------

  /** The shares behind the scores. */
  function Raw(x: Three, y: Three, interval: Interval): Pair {
    if interval.AllTime? then RawTwo(x, y, 0.5, 0.5) else RawThree(x, y, 0.5, 0.3, 0.2)
  }

  lemma RawMakesAHundred(x: Three, y: Three, interval: Interval)
    ensures var raw := Raw(x, y, interval);
            0.0 <= raw.a <= 100.0 && 0.0 <= raw.b <= 100.0 && raw.a + raw.b == 100.0
  {
    SharesOfOne(x.clones as real, y.clones as real);
    SharesOfOne(x.views as real, y.views as real);
    SharesOfOne(x.momentum, y.momentum);
  }

  /** Scores lie in 0..100 and add to 100, or to 101 exactly when both shares fall on a half point. */
  lemma ScoresMakeAHundred(a: RepoMetrics, b: RepoMetrics, interval: Interval)
    ensures var r := Compare(Some(a), Some(b), interval).value;
            var raw := Raw(a.On(interval), b.On(interval), interval);
            && 0 <= r.scoreA <= 100 && 0 <= r.scoreB <= 100
            && r.scoreA + r.scoreB == (if IsHalf(raw.a) && IsHalf(raw.b) then 101 else 100)
  {
    var raw := Raw(a.On(interval), b.On(interval), interval);
    RawMakesAHundred(a.On(interval), b.On(interval), interval);
    RoundedPair(raw.a, raw.b);
  }

  /** Swapping the repositories swaps the scores and keeps the gap; only a tie keeps the leader. */
  lemma SwapSwapsScores(a: RepoMetrics, b: RepoMetrics, interval: Interval)
    ensures var r, s := Compare(Some(a), Some(b), interval).value, Compare(Some(b), Some(a), interval).value;
            && s.scoreA == r.scoreB && s.scoreB == r.scoreA && s.deltaPct == r.deltaPct
            && (s.leadsA <==> !r.leadsA || r.scoreA == r.scoreB)
  {
    SwapSwapsRaw(a.On(interval), b.On(interval), interval);
  }

  lemma SwapSwapsRaw(x: Three, y: Three, interval: Interval)
    ensures Raw(y, x, interval) == Pair(Raw(x, y, interval).b, Raw(x, y, interval).a)
  {
    SwapSwapsShare(x.clones as real, y.clones as real);
    SwapSwapsShare(x.views as real, y.views as real);
    SwapSwapsShare(x.momentum, y.momentum);
  }

  lemma SwapSwapsShare(a: real, b: real)
    ensures SharePair(b, a) == Pair(SharePair(a, b).b, SharePair(a, b).a)
  {
    assert NonNegative(a) + NonNegative(b) == NonNegative(b) + NonNegative(a);
  }

  /** More clones, views or momentum never lower a repository's score nor raise the other's. */
  lemma MoreNeverHurts(a: RepoMetrics, a': RepoMetrics, b: RepoMetrics, interval: Interval)
    requires var x, x' := a.On(interval), a'.On(interval);
             x.clones <= x'.clones && x.views <= x'.views && x.momentum <= x'.momentum
    ensures var r, r' := Compare(Some(a), Some(b), interval).value, Compare(Some(a'), Some(b), interval).value;
            r'.scoreA >= r.scoreA && r'.scoreB <= r.scoreB
  {
    var x, x', y := a.On(interval), a'.On(interval), b.On(interval);
    RawGrows(x, x', y, interval);
    RawMakesAHundred(x, y, interval);
    RawMakesAHundred(x', y, interval);
    RoundGrows(Raw(x, y, interval).a, Raw(x', y, interval).a);
    RoundGrows(Raw(x', y, interval).b, Raw(x, y, interval).b);
  }

  lemma RawGrows(x: Three, x': Three, y: Three, interval: Interval)
    requires x.clones <= x'.clones && x.views <= x'.views && x.momentum <= x'.momentum
    ensures Raw(x, y, interval).a <= Raw(x', y, interval).a
    ensures Raw(x, y, interval).b >= Raw(x', y, interval).b
  {
    ShareGrows(x.clones as real, x'.clones as real, y.clones as real);
    ShareGrows(x.views as real, x'.views as real, y.views as real);
    ShareGrows(x.momentum, x'.momentum, y.momentum);
  }

  /** The gap lies in 0..100, is zero only for a tie, and the leader's zero never divides. */
  lemma GapIsAPercentage(a: RepoMetrics, b: RepoMetrics, interval: Interval)
    ensures var r := Compare(Some(a), Some(b), interval).value;
            && 0.0 <= r.deltaPct <= 100.0
            && (r.deltaPct == 0.0 <==> r.scoreA == r.scoreB)
            && (r.deltaPct == 100.0 <==> r.scoreA == 0 || r.scoreB == 0)
  {
    var r := Compare(Some(a), Some(b), interval).value;
    ScoresMakeAHundred(a, b, interval);
    var diff := if r.scoreA >= r.scoreB then r.scoreA - r.scoreB else r.scoreB - r.scoreA;
    var leader := if r.scoreA >= r.scoreB then r.scoreA else r.scoreB;
    Quotient(diff as real, leader as real);
    assert diff as real / leader as real * leader as real == diff as real;
  }

  /** The share of a metric at most one of the two has: all of it, none, or half of nothing. */
  function Part(a: real, b: real): real {
    if a > 0.0 then 1.0 else if b > 0.0 then 0.0 else 0.5
  }

  predicate Uncontested(a: real, b: real) {
    a <= 0.0 || b <= 0.0
  }

  lemma UncontestedShare(a: real, b: real)
    requires Uncontested(a, b)
    ensures SharePair(a, b).a == Part(a, b)
  {
    var x, y := NonNegative(a), NonNegative(b);
    if x > 0.0 {
      assert x / (x + y) == 1.0;
    } else if y > 0.0 {
      assert x / (x + y) == 0.0;
    }
  }

  lemma Percent(c: real, v: real, m: real)
    ensures (0.5 * c + 0.3 * v + 0.2 * m) * 100.0 == 50.0 * c + 30.0 * v + 20.0 * m
    ensures (0.5 * c + 0.5 * v) * 100.0 == 50.0 * c + 50.0 * v
  {
  }

  /** With nothing contested, clones decide 50 points, views 30 and momentum 20; over all time 50 and 50. */
  lemma UncontestedScore(a: RepoMetrics, b: RepoMetrics, interval: Interval)
    requires var x, y := a.On(interval), b.On(interval);
             && Uncontested(x.clones as real, y.clones as real)
             && Uncontested(x.views as real, y.views as real)
             && Uncontested(x.momentum, y.momentum)
    ensures var x, y := a.On(interval), b.On(interval);
            var c, v, m := Part(x.clones as real, y.clones as real), Part(x.views as real, y.views as real), Part(x.momentum, y.momentum);
            Compare(Some(a), Some(b), interval).value.scoreA
            == Round(if interval.AllTime? then 50.0 * c + 50.0 * v else 50.0 * c + 30.0 * v + 20.0 * m)
  {
    var x, y := a.On(interval), b.On(interval);
    UncontestedShare(x.clones as real, y.clones as real);
    UncontestedShare(x.views as real, y.views as real);
    UncontestedShare(x.momentum, y.momentum);
    var c := SharePair(x.clones as real, y.clones as real).a;
    var v := SharePair(x.views as real, y.views as real).a;
    var m := SharePair(x.momentum, y.momentum).a;
    Percent(c, v, m);
    assert Raw(x, y, interval).a == if interval.AllTime? then (0.5 * c + 0.5 * v) * 100.0 else (0.5 * c + 0.3 * v + 0.2 * m) * 100.0;
  }

  // ---------- Where the metrics come from ----------

  /** The repository's summary row; its clone windows are SQL's own. */
  datatype Totals = Totals(clones7d: int, clones30d: int, totalClones: int, totalViews: int)

  ghost predicate Measures(m: RepoMetrics, clones: Table, views: Table, now: int) {
    && m.momentum7d == Ratio(clones, now, 7) && m.momentum30d == Ratio(clones, now, 30)
    && m.views7d == SumDays(views, now - 6, now) && m.views30d == SumDays(views, now - 29, now)
  }

  method LoadRepoMetrics(name: string, summary: Option<Totals>, clones: Table, views: Table, now: int)
    returns (m: Option<RepoMetrics>)
    ensures m.Some? <==> summary.Some?
    ensures m.Some? ==>
              && m.value.name == name && Measures(m.value, clones, views, now)
              && Totals(m.value.clones7d, m.value.clones30d, m.value.totalClones, m.value.totalViews) == summary.value
  {
    if summary.None? {
      return None;
    }
    var views7d := SumClonesOrViews(views, now, 0, 7);
    var views30d := SumClonesOrViews(views, now, 0, 30);
    var mom7 := CloneMomentumRatio(clones, now, 7);
    var mom30 := CloneMomentumRatio(clones, now, 30);
    var t := summary.value;
    m := Some(RepoMetrics(name, t.clones7d, t.clones30d, t.totalClones, views7d, views30d, t.totalViews, mom7, mom30));
  }

  method SumClonesOrViews(t: Table, now: int, daysBackEnd: int, spanDays: int) returns (sum: int)
    ensures sum == SumDays(t, now - daysBackEnd - spanDays + 1, now - daysBackEnd)
  {
    var w := UtcWindow(now, daysBackEnd, spanDays);
    SumOfRange(t, w.from, w.to);
    sum := SumDayCountRows(RowsInRange(t, w.from, w.to));
  }

  /** With a clone row today, the momentum that is scored is the chart's last point. */
  lemma ScoredMomentumEndsTheChart(m: RepoMetrics, clones: Table, views: Table, now: int, interval: Interval)
    requires Measures(m, clones, views, now) && interval.HasMomentum() && now in clones
    ensures MomentumOn(clones, now, interval, now) == Some(m.On(interval).momentum)
    ensures forall d :: d > now ==> MomentumOn(clones, now, interval, d) == None
  {
    var from := H2HChartFromDates(now, interval).fetchFrom;
    var rows := RowsInRange(clones, from, now);
    RangeQueryRows(clones, from, now);
    assert DayRow(now, clones[now]) in rows;
    RowsLieBetween(rows);
  }

  // ---------- Shares and leaders ----------

  /** Shares are in the proportion of the values. */
  lemma SharesAreProportional(a: real, b: real)
    requires a > 0.0 && b > 0.0
    ensures SharePair(a, b).a * b == SharePair(a, b).b * a
  {
    var t := a + b;
    assert a / t * b == a * b / t;
    assert b / t * a == a * b / t;
  }

  /** The leader's score is never the smaller one, and a repository that does not lead has less. */
  lemma LeaderScoresNoLess(a: RepoMetrics, b: RepoMetrics, interval: Interval)
    ensures var r := Compare(Some(a), Some(b), interval).value;
            && (r.leadsA ==> r.scoreB <= r.scoreA)
            && (!r.leadsA ==> r.scoreA < r.scoreB)
  {
  }

  lemma RoundKeepsOrder(x: real, y: real)
    requires x <= y
    ensures Round(x) <= Round(y)
  {
  }

  /** Each row shows its metric's values, its weight in the score, and who leads on it. */
  lemma RowsShowTheirLeader(a: RepoMetrics, b: RepoMetrics, interval: Interval)
    ensures var rows, x, y := Compare(Some(a), Some(b), interval).value.rows, a.On(interval), b.On(interval);
            && (forall i :: 0 <= i < |rows| ==> if rows[i].leadsA then rows[i].valueB <= rows[i].valueA else rows[i].valueA <= rows[i].valueB)
            && |rows| == (if interval.AllTime? then 2 else 3)
            && rows[0].valueA == x.clones && rows[0].valueB == y.clones
            && rows[1].valueA == x.views && rows[1].valueB == y.views
            && rows[0].weightPct == 50 && rows[1].weightPct == (if interval.AllTime? then 50 else 30)
            && (!interval.AllTime? ==> rows[2].weightPct == 20)
            && (!interval.AllTime? ==> rows[2].valueA == Round(100.0 * x.momentum) && rows[2].valueB == Round(100.0 * y.momentum))
  {
    var x, y := a.On(interval), b.On(interval);
    if x.momentum <= y.momentum {
      RoundKeepsOrder(x.momentum * 100.0, y.momentum * 100.0);
    } else {
      RoundKeepsOrder(y.momentum * 100.0, x.momentum * 100.0);
    }
  }

  /** Taking the gap off the leader's score gives the other's; the leader of a comparison has at least one point. */
  lemma GapIsRelativeToTheLeader(a: int, b: int)
    requires a >= 1 || b >= 1
    ensures var leader, other := if a >= b then a else b, if a >= b then b else a;
            leader as real * (100.0 - DeltaPct(a, b)) == 100.0 * other as real
  {
    var leader, other := if a >= b then a else b, if a >= b then b else a;
    GapOf(leader as real, other as real);
  }

  lemma ComparedGap(a: RepoMetrics, b: RepoMetrics, interval: Interval)
    ensures var r := Compare(Some(a), Some(b), interval).value;
            r.deltaPct == DeltaPct(r.scoreA, r.scoreB) && (r.scoreA >= 1 || r.scoreB >= 1)
  {
    ScoresMakeAHundred(a, b, interval);
  }

  lemma GapOf(leader: real, other: real)
    requires leader > 0.0
    ensures leader * (100.0 - (leader - other) / leader * 100.0) == 100.0 * other
  {
    assert (leader - other) / leader * leader == leader - other;
  }
}
