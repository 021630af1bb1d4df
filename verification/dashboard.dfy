/**
 * The derived state of the reader dashboard (src/app/dashboard/page.tsx): the yearly
 * reading-goal bar, its "goal achieved" banner, and the data handed to the genre
 * doughnut and the monthly line chart. The statistics themselves come from the server.
 */
module Dashboard {
  import opened Types
  import Utils

  /**
   * The part of `ReadingStats` the dashboard derives from. `genreBreakdown` is the
   * record as an ordered list of (genre, count) entries, in `Object.keys` order.
   */
  datatype ReadingStats = ReadingStats(
    booksReadThisYear: int,
    genreBreakdown: seq<(string, int)>,
    monthlyReading: seq<int>)

  const DefaultGoalTarget: int := 12

  /** `user?.readingGoal?.targetBooks`: undefined when there is no user or no goal. */
  function TargetBooks(user: Option<User>): Option<int>
  {
    if user.Some? && user.value.readingGoal.Some? then Some(user.value.readingGoal.value.targetBooks)
    else None
  }

  /**
   * `user?.readingGoal?.targetBooks || 12`: the goal's target, falling back to 12 when it
   * is missing or 0 (the only falsy number here). The divisor of the goal bar is never 0.
   */
  function GoalTarget(user: Option<User>): (t: int)
    ensures t != 0
    ensures TargetBooks(user).Some? && TargetBooks(user).value != 0 ==> t == TargetBooks(user).value
    ensures TargetBooks(user).None? || TargetBooks(user).value == 0 ==> t == DefaultGoalTarget
  {
    match TargetBooks(user)
    case Some(target) => if target != 0 then target else DefaultGoalTarget
    case None => DefaultGoalTarget
  }

  /**
   * The value of the goal form: 12 until the data is fetched, then the target of the
   * user that `fetchData` saw, with the same fallback as the goal bar. `fetchData` is the
   * closure of the render that started it, so `userAtFetch` is the user of that render,
   * which need not be the user the goal bar reads later.
   */
  function GoalFormTarget(fetched: bool, userAtFetch: Option<User>): (t: int)
    ensures t != 0
    ensures t == DefaultGoalTarget || TargetBooks(userAtFetch) == Some(t)
    ensures !fetched || TargetBooks(userAtFetch).None? ==> t == DefaultGoalTarget
  {
    if fetched then GoalTarget(userAtFetch) else DefaultGoalTarget
  }

  /** When the fetch saw the current user, the form holds the target the goal bar divides by. */
  lemma GoalFormMatchesBar(user: Option<User>)
    ensures GoalFormTarget(true, user) == GoalTarget(user)
  {
  }

  /**
   * When the fetch ran before the session was restored (no user yet), the form holds 12
   * while the bar divides by the user's own goal.
   */
  lemma GoalFormStaleBeforeSession(user: User)
    requires user.readingGoal.Some? && user.readingGoal.value.targetBooks !in {0, DefaultGoalTarget}
    ensures GoalFormTarget(true, None) == DefaultGoalTarget
    ensures GoalTarget(Some(user)) == user.readingGoal.value.targetBooks != GoalFormTarget(true, None)
  {
  }

  function RealMin(a: real, b: real): real
  {
    if a <= b then a else b
  }

  /**
   * `goalProgress`: 0 before the statistics are loaded, otherwise the books read this
   * year as a percentage of the target, capped at 100. Exact rationals stand for doubles.
   */
  function GoalProgress(stats: Option<ReadingStats>, user: Option<User>): (p: real)
    ensures p <= 100.0
    ensures stats.None? ==> p == 0.0
    ensures stats.Some? && GoalTarget(user) > 0 && stats.value.booksReadThisYear >= 0 ==> p >= 0.0
    ensures stats.Some? && p < 100.0 ==>
      p * (GoalTarget(user) as real) == 100.0 * (stats.value.booksReadThisYear as real)
  {
    if stats.None? then 0.0
    else
      var t := GoalTarget(user);
      var b := stats.value.booksReadThisYear;
      if t > 0 && b >= 0 then
        assert (b as real) / (t as real) >= 0.0;
        RealMin((b as real) / (t as real) * 100.0, 100.0)
      else RealMin((b as real) / (t as real) * 100.0, 100.0)
  }

  /** The "Goal achieved" banner is shown when the bar is full. */
  predicate GoalAchieved(stats: Option<ReadingStats>, user: Option<User>)
  {
    GoalProgress(stats, user) >= 100.0
  }

  /** With a positive target the banner shows exactly when the books read reach the target. */
  lemma GoalAchievedIff(stats: Option<ReadingStats>, user: Option<User>)
    ensures stats.None? ==> !GoalAchieved(stats, user)
    ensures stats.Some? && GoalTarget(user) > 0 ==>
      (GoalAchieved(stats, user) <==> stats.value.booksReadThisYear >= GoalTarget(user))
  {
    if stats.Some? && GoalTarget(user) > 0 {
      var t := GoalTarget(user) as real;
      var b := stats.value.booksReadThisYear as real;
      assert GoalProgress(stats, user) == RealMin(b / t * 100.0, 100.0);
      PercentReachesHundred(b, t);
    }
  }

  /** A percentage of a positive whole reaches 100 exactly when the part reaches the whole. */
  lemma PercentReachesHundred(b: real, t: real)
    requires t > 0.0
    ensures b / t * 100.0 >= 100.0 <==> b >= t
  {
    var q := b / t;
    assert q * t == b && 1.0 * t == t;
    if b >= t {
      RealCancel(1.0, q, t);
    } else {
      RealCancelStrict(q, 1.0, t);
    }
  }

  /** The two cases the goal bar is known for: 6 of 12 is half, 15 of 12 is capped at 100. */
  lemma GoalProgressExamples(goal: ReadingGoal)
    requires goal.targetBooks == 12
    ensures var user := Some(User("reader", UserRole, Some(goal)));
      GoalProgress(Some(ReadingStats(6, [], [])), user) == 50.0 &&
      GoalProgress(Some(ReadingStats(15, [], [])), user) == 100.0
  {
  }

  /** The percentage printed next to the bar: `Math.round(goalProgress)`. */
  function DisplayedPercent(stats: Option<ReadingStats>, user: Option<User>): (r: int)
    ensures r <= 100
    ensures stats.None? ==> r == 0
  {
    (GoalProgress(stats, user) + 0.5).Floor
  }

  /**
   * For a positive target the printed percentage is the helper library's reading-progress
   * percentage of books read over target: rounding after capping equals capping after rounding.
   */
  lemma DisplayedPercentIsReadingProgress(stats: Option<ReadingStats>, user: Option<User>)
    requires stats.Some? && GoalTarget(user) > 0
    ensures DisplayedPercent(stats, user) ==
      Utils.CalculateReadingProgress(stats.value.booksReadThisYear, GoalTarget(user))
  {
    var t := GoalTarget(user);
    var b := stats.value.booksReadThisYear;
    var k := Utils.RoundDiv(100 * b, t);
    var x := (b as real) / (t as real) * 100.0;
    PercentWithinHalf(k, b, t);
    if x >= 100.0 {
      Utils.RoundHalfUpAtLeast(k, 100 * b, t, 100);
      assert GoalProgress(stats, user) == 100.0;
    } else {
      assert GoalProgress(stats, user) == x;
      FloorOfHalfUp(k, x);
    }
  }

  /** Rounding half up on reals: a value within half of `k` is rounded to `k`. */
  lemma FloorOfHalfUp(k: int, x: real)
    requires (k as real) - 0.5 <= x < (k as real) + 0.5
    ensures (x + 0.5).Floor == k
  {
  }

  /** The integer rounding bounds on 100b/t carried over to the exact percentage. */
  lemma PercentWithinHalf(k: int, b: int, t: int)
    requires t > 0 && Utils.IsRoundHalfUp(k, 100 * b, t)
    ensures var x := (b as real) / (t as real) * 100.0;
      (k as real) - 0.5 <= x < (k as real) + 0.5
  {
    var tr := t as real;
    var x := (b as real) / tr * 100.0;
    assert x * tr == (100 * b) as real;
    var lo := (k as real) - 0.5;
    var hi := (k as real) + 0.5;
    assert ((2 * k - 1) * t) as real <= (200 * b) as real;
    assert (200 * b) as real < ((2 * k + 1) * t) as real;
    assert lo * tr <= x * tr;
    assert x * tr < hi * tr;
    RealCancel(lo, x, tr);
    RealCancelStrict(x, hi, tr);
  }

  lemma RealCancel(a: real, c: real, t: real)
    requires t > 0.0 && a * t <= c * t
    ensures a <= c
  {
  }

  lemma RealCancelStrict(a: real, c: real, t: real)
    requires t > 0.0 && a * t < c * t
    ensures a < c
  {
  }

  /** The doughnut chart's input: one label and one value per genre. */
  datatype DoughnutData = DoughnutData(labels: seq<string>, data: seq<int>)

  /** Pairs labels with values, as the chart draws them. */
  function Zip(labels: seq<string>, data: seq<int>): seq<(string, int)>
    requires |labels| == |data|
  {
    seq(|labels|, i requires 0 <= i < |labels| => (labels[i], data[i]))
  }

  /**
   * `genreData`: nothing to draw before the statistics load or when no genre was read;
   * otherwise the breakdown's keys as labels and its values as data, in the same order.
   */
  function GenreData(stats: Option<ReadingStats>): (r: Option<DoughnutData>)
    ensures r.None? <==> stats.None? || stats.value.genreBreakdown == []
    ensures r.Some? ==>
      |r.value.labels| == |r.value.data| && Zip(r.value.labels, r.value.data) == stats.value.genreBreakdown
  {
    if stats.None? || |stats.value.genreBreakdown| == 0 then None
    else
      var breakdown := stats.value.genreBreakdown;
      var labels := seq(|breakdown|, i requires 0 <= i < |breakdown| => breakdown[i].0);
      var data := seq(|breakdown|, i requires 0 <= i < |breakdown| => breakdown[i].1);
      assert Zip(labels, data) == breakdown;
      Some(DoughnutData(labels, data))
  }

  const MonthLabels: seq<string> :=
    ["Jan", "Feb", "Mar", "Apr", "May", "Jun", "Jul", "Aug", "Sep", "Oct", "Nov", "Dec"]

  /** The line chart's input: the month labels and the books finished per month. */
  datatype LineData = LineData(labels: seq<string>, series: seq<int>)

  /**
   * `monthlyData`: present exactly when the statistics are loaded; twelve distinct month
   * labels from January to December, paired with the server's monthly counts.
   */
  function MonthlyData(stats: Option<ReadingStats>): (r: Option<LineData>)
    ensures r.None? <==> stats.None?
    ensures r.Some? ==> r.value.series == stats.value.monthlyReading
    ensures r.Some? ==> r.value.labels == MonthLabels
    ensures r.Some? ==> |r.value.labels| == 12 && r.value.labels[0] == "Jan" && r.value.labels[11] == "Dec"
    ensures r.Some? ==> forall i, j :: 0 <= i < j < |r.value.labels| ==> r.value.labels[i] != r.value.labels[j]
  {
    if stats.None? then None else Some(LineData(MonthLabels, stats.value.monthlyReading))
  }
}
