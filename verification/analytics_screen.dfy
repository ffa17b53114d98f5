/** The premium analytics screen: total completions, average completion rate,
    best streak across habits and the completion histogram of the last 7 days. */
module Analytics {
  import opened Types
  import opened HabitService
  import opened Home

  /** `habits.reduce((acc, h) => acc + h.completedDates.length, 0)`. */
  function TotalCompletions(habits: seq<Habit>): (n: nat)
    ensures n == 0 <==> forall h :: h in habits ==> h.completedDates == []
  {
    if habits == [] then 0
    else
      assert habits == [habits[0]] + habits[1..];
      |habits[0].completedDates| + TotalCompletions(habits[1..])
  }

  /** The total is additive over a split of the collection. */
  lemma {:induction false} TotalCompletionsAppend(a: seq<Habit>, b: seq<Habit>)
    ensures TotalCompletions(a + b) == TotalCompletions(a) + TotalCompletions(b)
  {
    if a != [] {
      assert (a + b)[1..] == a[1..] + b;
      TotalCompletionsAppend(a[1..], b);
    } else {
      assert a + b == b;
    }
  }

  /** No single day can show more completions than the total. */
  lemma {:induction false} CompletedOnAtMostTotal(habits: seq<Habit>, day: Day)
    ensures CompletedOn(habits, day) <= TotalCompletions(habits)
  {
    if habits != [] {
      CompletedOnAtMostTotal(habits[1..], day);
    }
  }

  /** The sum of the per-habit completion rates: 0 without habits, and at
      least the rate of any single habit. */
  function SumRates(habits: seq<Habit>, nowMs: int): (s: nat)
    ensures habits == [] ==> s == 0
    ensures forall h :: h in habits ==> CompletionRate(h, nowMs) <= s
  {
    if habits == [] then 0
    else
      assert habits == [habits[0]] + habits[1..];
      CompletionRate(habits[0], nowMs) + SumRates(habits[1..], nowMs)
  }

  /** The sum of the rates adds up over a split of the habits. */
  lemma {:induction false} SumRatesAppend(a: seq<Habit>, b: seq<Habit>, nowMs: int)
    ensures SumRates(a + b, nowMs) == SumRates(a, nowMs) + SumRates(b, nowMs)
  {
    if a != [] {
      assert (a + b)[1..] == a[1..] + b;
      SumRatesAppend(a[1..], b, nowMs);
    } else {
      assert a + b == b;
    }
  }

  /** `avgCompletionRate`: 0 without habits, otherwise `Math.round` of the mean rate. */
  function AverageCompletionRate(habits: seq<Habit>, nowMs: int): (r: nat)
    ensures habits == [] ==> r == 0
  {
    if |habits| > 0 then RoundDiv(SumRates(habits, nowMs), |habits|) else 0
  }

  /** For a non-empty collection the average is the rounded mean of the rates. */
  lemma AverageIsRoundedMean(habits: seq<Habit>, nowMs: int)
    requires habits != []
    ensures var n, r := |habits|, AverageCompletionRate(habits, nowMs);
      n * (2 * r - 1) <= 2 * SumRates(habits, nowMs) < n * (2 * r + 1)
  {
    RoundDivIsNearest(SumRates(habits, nowMs), |habits|);
  }

  /** Peeling one summand off a product. */
  lemma MulPred(n: int, x: int)
    ensures n * x == (n - 1) * x + x
  {
  }

  /** A positive factor can be cancelled from a strict inequality. */
  lemma CancelFactor(n: int, a: int, b: int)
    requires n > 0 && n * a < n * b
    ensures a < b
  {
  }

  /** A sum between n*lo and n*hi has its rounded mean between lo and hi. */
  lemma RoundedMeanWithin(n: int, s: int, r: int, lo: int, hi: int)
    requires n > 0 && n * lo <= s <= n * hi
    requires n * (2 * r - 1) <= 2 * s < n * (2 * r + 1)
    ensures lo <= r <= hi
  {
    // n*(2r - 1) <= 2s <= 2n*hi < n*(2hi + 1), and n*(2lo - 1) < 2n*lo <= 2s < n*(2r + 1)
    assert n * (2 * hi + 1) == 2 * (n * hi) + n;
    assert n * (2 * lo - 1) == 2 * (n * lo) - n;
    CancelFactor(n, 2 * r - 1, 2 * hi + 1);
    CancelFactor(n, 2 * lo - 1, 2 * r + 1);
  }

  lemma {:induction false} SumRatesBounds(habits: seq<Habit>, nowMs: int, lo: int, hi: int)
    requires forall h :: h in habits ==> lo <= CompletionRate(h, nowMs) <= hi
    ensures |habits| * lo <= SumRates(habits, nowMs) <= |habits| * hi
  {
    if habits != [] {
      var n := |habits|;
      assert habits[0] in habits;
      assert forall h :: h in habits[1..] ==> h in habits;
      SumRatesBounds(habits[1..], nowMs, lo, hi);
      MulPred(n, lo);
      MulPred(n, hi);
    }
  }

  /** The average lies between the lowest and the highest rate; in particular
      it exceeds 100 only if some habit's rate does. */
  lemma AverageWithinBounds(habits: seq<Habit>, nowMs: int, lo: int, hi: int)
    requires habits != []
    requires forall h :: h in habits ==> lo <= CompletionRate(h, nowMs) <= hi
    ensures lo <= AverageCompletionRate(habits, nowMs) <= hi
  {
    SumRatesBounds(habits, nowMs, lo, hi);
    AverageIsRoundedMean(habits, nowMs);
    RoundedMeanWithin(|habits|, SumRates(habits, nowMs), AverageCompletionRate(habits, nowMs), lo, hi);
  }

  /** The longest streak of a non-empty collection. */
  function MaxLongestStreak(habits: seq<Habit>): (m: nat)
    requires habits != []
    ensures forall h :: h in habits ==> LongestStreak(h.completedDates) <= m
    ensures exists h :: h in habits && m == LongestStreak(h.completedDates)
  {
    if |habits| == 1 then LongestStreak(habits[0].completedDates)
    else
      assert habits == [habits[0]] + habits[1..];
      Max(LongestStreak(habits[0].completedDates), MaxLongestStreak(habits[1..]))
  }

  /** `bestStreak`: 0 without habits, otherwise the greatest longest streak. */
  function BestStreak(habits: seq<Habit>): (m: nat)
    ensures habits == [] ==> m == 0
    ensures forall h :: h in habits ==> LongestStreak(h.completedDates) <= m
    ensures habits != [] ==> exists h :: h in habits && m == LongestStreak(h.completedDates)
  {
    if |habits| > 0 then MaxLongestStreak(habits) else 0
  }

  /** The best streak is at least every habit's current streak when the
      dates are duplicate-free. */
  lemma BestStreakBoundsCurrent(habits: seq<Habit>, today: Day)
    requires AllWellFormed(habits)
    ensures forall h :: h in habits ==> CurrentStreak(h.completedDates, today) <= BestStreak(habits)
  {
    forall h | h in habits ensures CurrentStreak(h.completedDates, today) <= BestStreak(habits) {
      LongestAtLeastCurrent(h.completedDates, today);
    }
  }

  /** The completion histogram of the seven days ending on `today`: entry k
      counts the habits completed on the day `6 - k` days before today, so the
      last entry is today. */
  function WeekCounts(habits: seq<Habit>, today: Day): (week: seq<nat>)
    ensures |week| == 7
    ensures forall k :: 0 <= k < 7 ==> week[k] == CompletedOn(habits, today - (6 - k))
    ensures forall k :: 0 <= k < 7 ==> week[k] <= |habits|
  {
    [ CompletedOn(habits, today - 6), CompletedOn(habits, today - 5), CompletedOn(habits, today - 4),
      CompletedOn(habits, today - 3), CompletedOn(habits, today - 2), CompletedOn(habits, today - 1),
      CompletedOn(habits, today) ]
  }

  /** `weekProgress`: the loop from six days ago up to today. */
  method WeekProgress(habits: seq<Habit>, today: Day) returns (week: seq<nat>)
    ensures week == WeekCounts(habits, today)
  {
    week := [];
    var i := 6;
    while i >= 0
      invariant -1 <= i <= 6
      invariant |week| == 6 - i
      invariant forall k :: 0 <= k < |week| ==> week[k] == CompletedOn(habits, today - (6 - k))
    {
      var date := today - i;
      var dayCompletions := CompletedOn(habits, date);
      week := week + [dayCompletions];
      i := i - 1;
    }
  }

  /** `Math.max(...weekProgress, 1)`. */
  function MaxWeekProgress(week: seq<nat>): (m: nat)
    ensures m >= 1
    ensures forall k :: 0 <= k < |week| ==> week[k] <= m
    ensures m == 1 || m in week
  {
    if week == [] then 1
    else
      var rest := MaxWeekProgress(week[1..]);
      assert forall k :: 1 <= k < |week| ==> week[k] == week[1..][k - 1];
      if week[0] < rest then rest else week[0]
  }

  datatype AnalyticsView =
    | Locked
    | Insights(
        totalCompletions: nat,
        avgCompletionRate: nat,
        bestStreak: nat,
        weekProgress: seq<nat>,
        maxWeekProgress: nat)

  /** The analytics screen at the instant `nowMs`: locked without premium, and
      otherwise the statistics of `habits`. */
  method AnalyticsScreen(habits: seq<Habit>, isPremium: bool, nowMs: int) returns (view: AnalyticsView)
    ensures view.Locked? <==> !isPremium
    ensures isPremium ==>
      && view.totalCompletions == TotalCompletions(habits)
      && view.avgCompletionRate == AverageCompletionRate(habits, nowMs)
      && view.bestStreak == BestStreak(habits)
      && view.weekProgress == WeekCounts(habits, DayOf(nowMs))
      && view.maxWeekProgress == MaxWeekProgress(view.weekProgress)
  {
    if !isPremium {
      return Locked;
    }
    var totalCompletions := TotalCompletions(habits);
    var avgCompletionRate := AverageCompletionRate(habits, nowMs);
    var bestStreak := BestStreak(habits);
    var today := DayOf(nowMs);
    var weekProgress := WeekProgress(habits, today);
    var maxWeekProgress := MaxWeekProgress(weekProgress);
    view := Insights(totalCompletions, avgCompletionRate, bestStreak, weekProgress, maxWeekProgress);
  }
}
