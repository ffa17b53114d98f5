/** The streak and completion engine of `HabitService`: creating a habit,
    toggling today's completion, the streak summary and the completion rate. */
module HabitService {
  import opened Types
  import opened Text

  /** Milliseconds in a day, the divisor of every date difference in the source. */
  const MsPerDay: int := 86400000

  function Max(a: int, b: int): int { if a < b then b else a }

  /** Every date occurs at most once: the invariant `completedDates` is meant to keep. */
  predicate NoDuplicates(s: seq<Day>) {
    forall d | d in multiset(s) :: multiset(s)[d] == 1
  }

  // ---------------------------------------------------------------------------
  // createHabit and toggleHabit

  /** `createHabit(name, color, userId)`: `id` stands for `habit_${Date.now()}`
      and `today` for the current UTC day. */
  function CreateHabit(name: string, color: string, userId: string, id: string, today: Day): (h: Habit)
    ensures h.id == id && h.color == color && h.userId == userId && h.createdAt == today
    ensures h.name == Trim(name)
    ensures h.completedDates == [] && NoDuplicates(h.completedDates)
  {
    Habit(id, Trim(name), color, [], today, userId)
  }

  /** `completedDates.filter(d => d !== day)`. */
  function RemoveDay(s: seq<Day>, day: Day): (r: seq<Day>)
    ensures |r| <= |s|
    ensures day !in s ==> r == s
  {
    if s == [] then []
    else if s[0] == day then RemoveDay(s[1..], day)
    else
      assert s == [s[0]] + s[1..];
      [s[0]] + RemoveDay(s[1..], day)
  }

  /** The filter drops every occurrence of `day` and keeps every other date
      as often as it occurs. */
  lemma {:induction false} RemoveDayRemovesExactly(s: seq<Day>, day: Day)
    ensures multiset(RemoveDay(s, day)) == multiset(s)[day := 0]
    ensures forall d :: d in RemoveDay(s, day) <==> d in s && d != day
  {
    if s != [] {
      assert s == [s[0]] + s[1..];
      RemoveDayRemovesExactly(s[1..], day);
    }
  }

  /** The filter keeps the order of what it keeps. */
  lemma {:induction false} RemoveDayAppend(a: seq<Day>, b: seq<Day>, day: Day)
    ensures RemoveDay(a + b, day) == RemoveDay(a, day) + RemoveDay(b, day)
  {
    if a != [] {
      assert (a + b)[1..] == a[1..] + b;
      RemoveDayAppend(a[1..], b, day);
    } else {
      assert a + b == b;
    }
  }

  /** The completed dates after a toggle: today is removed if present,
      appended otherwise. */
  function ToggleDates(s: seq<Day>, today: Day): (r: seq<Day>)
    ensures today in r <==> today !in s
    ensures forall d :: d != today ==> multiset(r)[d] == multiset(s)[d]
    ensures NoDuplicates(s) ==> NoDuplicates(r)
  {
    var isCompleted := today in s;
    RemoveDayRemovesExactly(s, today);
    if isCompleted then RemoveDay(s, today) else s + [today]
  }

  /** `toggleHabit(habit)`: only the completed dates change, as `ToggleDates` says. */
  function ToggleHabit(h: Habit, today: Day): (r: Habit)
    ensures r.completedDates == ToggleDates(h.completedDates, today)
    ensures r == h.(completedDates := r.completedDates)
  {
    h.(completedDates := ToggleDates(h.completedDates, today))
  }

  /** Toggling twice on one day restores the dates: the same list when today
      was absent, and otherwise the list without today followed by today. */
  lemma ToggleTwice(h: Habit, today: Day)
    ensures var r := ToggleHabit(ToggleHabit(h, today), today);
      && r.completedDates == (if today in h.completedDates
                              then RemoveDay(h.completedDates, today) + [today]
                              else h.completedDates)
      && (forall d :: d in r.completedDates <==> d in h.completedDates)
  {
    var s := h.completedDates;
    if today !in s {
      RemoveDayAppend(s, [today], today);
      assert RemoveDay([today], today) == [];
    } else {
      RemoveDayRemovesExactly(s, today);
    }
  }

  // ---------------------------------------------------------------------------
  // Current streak

  /** The completed days up to and including `d`; it shrinks as the cursor of
      the `while (true)` loop in getStreak moves back. */
  function DaysUpTo(dates: seq<Day>, d: Day): set<Day> {
    set x | x in dates && x <= d
  }

  /** The number of consecutive completed days ending at `d`. */
  function Run(dates: seq<Day>, d: Day): (n: nat)
    ensures forall x :: d - n < x <= d ==> x in dates
    ensures d - n !in dates
    decreases DaysUpTo(dates, d)
  {
    if d in dates then
      assert d in DaysUpTo(dates, d) - DaysUpTo(dates, d - 1);
      1 + Run(dates, d - 1)
    else 0
  }

  /** The current streak: the run ending today, or ending yesterday when today
      is not (yet) completed. */
  function CurrentStreak(dates: seq<Day>, today: Day): (n: nat)
    ensures n == 0 <==> today !in dates && today - 1 !in dates
    ensures today in dates ==> n == Run(dates, today)
    ensures today !in dates ==> n == Run(dates, today - 1)
  {
    if today in dates then Run(dates, today) else Run(dates, today - 1)
  }

  // ---------------------------------------------------------------------------
  // Sorting (the library `sort`, which orders day keys chronologically)

  /** The elements at positions `i < j` are in ascending order. */
  predicate InOrder(s: seq<Day>, i: int, j: int) {
    0 <= i < j < |s| ==> s[i] <= s[j]
  }

  /** Ascending order, stated pair by pair so that a proof picks the pairs it needs. */
  ghost predicate SortedAsc(s: seq<Day>) {
    forall i, j :: InOrder(s, i, j)
  }

  /** Inserts `x` before the first element not smaller than it. */
  function Insert(x: Day, s: seq<Day>): (r: seq<Day>)
    ensures |r| == |s| + 1
  {
    if s == [] || x <= s[0] then [x] + s else [s[0]] + Insert(x, s[1..])
  }

  /** Inserting adds exactly one occurrence of `x`. */
  lemma {:induction false} InsertAddsOne(x: Day, s: seq<Day>)
    ensures multiset(Insert(x, s)) == multiset(s) + multiset{x}
  {
    if s != [] && x > s[0] {
      assert s == [s[0]] + s[1..];
      InsertAddsOne(x, s[1..]);
    }
  }

  /** Dropping the first element keeps a sequence ascending. */
  lemma SortedTail(s: seq<Day>)
    requires s != [] && SortedAsc(s)
    ensures SortedAsc(s[1..])
  {
    forall i, j ensures InOrder(s[1..], i, j) {
      assert InOrder(s, i + 1, j + 1);
    }
  }

  /** An element no larger than any of an ascending sequence can be put in front of it. */
  lemma SortedCons(y: Day, t: seq<Day>)
    requires SortedAsc(t) && forall k :: 0 <= k < |t| ==> y <= t[k]
    ensures SortedAsc([y] + t)
  {
    var r := [y] + t;
    forall i, j ensures InOrder(r, i, j) {
      if 0 < i < j < |r| {
        assert InOrder(t, i - 1, j - 1);
      }
    }
  }

  /** Inserting into an ascending sequence keeps it ascending. */
  lemma {:induction false} InsertSorted(x: Day, s: seq<Day>)
    requires SortedAsc(s)
    ensures SortedAsc(Insert(x, s))
  {
    if s == [] || x <= s[0] {
      forall k | 0 <= k < |s| ensures x <= s[k] {
        assert InOrder(s, 0, k);
      }
      SortedCons(x, s);
    } else {
      SortedTail(s);
      InsertSorted(x, s[1..]);
      InsertAddsOne(x, s[1..]);
      var t := Insert(x, s[1..]);
      forall k | 0 <= k < |t| ensures s[0] <= t[k] {
        var v := t[k];
        assert v in multiset(t);
        if v != x {
          assert v in multiset(s[1..]);
          var p :| 0 <= p < |s[1..]| && s[1..][p] == v;
          assert InOrder(s, 0, p + 1);
        }
      }
      SortedCons(s[0], t);
    }
  }

  /** `[...completedDates].sort()`: the dates in ascending order. */
  function SortAsc(s: seq<Day>): (r: seq<Day>)
    ensures |r| == |s|
  {
    if s == [] then [] else Insert(s[0], SortAsc(s[1..]))
  }

  /** The sort returns an ascending rearrangement of its input. */
  lemma {:induction false} SortAscIsSortedPermutation(s: seq<Day>)
    ensures SortedAsc(SortAsc(s)) && multiset(SortAsc(s)) == multiset(s)
  {
    if s != [] {
      assert s == [s[0]] + s[1..];
      SortAscIsSortedPermutation(s[1..]);
      InsertSorted(s[0], SortAsc(s[1..]));
      InsertAddsOne(s[0], SortAsc(s[1..]));
    }
  }

  /** `.reverse()`: the same elements back to front. */
  function Reverse(s: seq<Day>): (r: seq<Day>)
    ensures |r| == |s| && forall i :: 0 <= i < |s| ==> r[i] == s[|s| - 1 - i]
  {
    if s == [] then [] else Reverse(s[1..]) + [s[0]]
  }

  /** The latest completed day. */
  function MaxDay(s: seq<Day>): (m: Day)
    requires s != []
    ensures m in s && forall d :: d in s ==> d <= m
  {
    if |s| == 1 then s[0]
    else
      assert s == [s[0]] + s[1..];
      Max(s[0], MaxDay(s[1..]))
  }

  /** The last element of the ascending sort is the latest day. */
  lemma LastOfSortedIsMax(s: seq<Day>)
    requires s != []
    ensures SortAsc(s)[|s| - 1] == MaxDay(s)
  {
    var t, m := SortAsc(s), MaxDay(s);
    SortAscIsSortedPermutation(s);
    LastIsGreatest(t, s, m);
  }

  /** In an ascending arrangement of `s`, the last element is the greatest
      element `m` of `s`. */
  lemma LastIsGreatest(t: seq<Day>, s: seq<Day>, m: Day)
    requires t != [] && SortedAsc(t) && multiset(t) == multiset(s)
    requires m in s && forall d :: d in s ==> d <= m
    ensures t[|t| - 1] == m
  {
    var last := t[|t| - 1];
    assert last in multiset(t);
    assert last in s;
    assert m in multiset(s);
    var k :| 0 <= k < |t| && t[k] == m;
    assert InOrder(t, k, |t| - 1);
  }

  // ---------------------------------------------------------------------------
  // Longest streak

  /** A block `s[i..j]` of sorted days each one day after the previous. */
  predicate ConsecutiveBlock(s: seq<Day>, i: int, j: int) {
    0 <= i < j <= |s| && forall k :: i < k < j ==> s[k] == s[k - 1] + 1
  }

  /** The length of the maximal block of consecutive days that ends at index `i`. */
  function RunEndingAt(s: seq<Day>, i: nat): (n: nat)
    requires i < |s|
    ensures 1 <= n <= i + 1
  {
    if i > 0 && s[i] == s[i - 1] + 1 then RunEndingAt(s, i - 1) + 1 else 1
  }

  /** RunEndingAt measures a block of consecutive days that cannot be extended to the left. */
  lemma {:induction false} RunEndingAtIsMaximalBlock(s: seq<Day>, i: nat)
    requires i < |s|
    ensures var n := RunEndingAt(s, i);
      && ConsecutiveBlock(s, i + 1 - n, i + 1)
      && (i + 1 - n > 0 ==> s[i + 1 - n] != s[i - n] + 1)
  {
    if i > 0 && s[i] == s[i - 1] + 1 {
      RunEndingAtIsMaximalBlock(s, i - 1);
    }
  }

  /** The longest block among those ending before index `m`. */
  function BestRun(s: seq<Day>, m: nat): (b: nat)
    requires 1 <= m <= |s|
    ensures 1 <= b <= m
    ensures forall j :: 0 <= j < m ==> RunEndingAt(s, j) <= b
    ensures exists j :: 0 <= j < m && RunEndingAt(s, j) == b
  {
    if m == 1 then RunEndingAt(s, 0) else Max(BestRun(s, m - 1), RunEndingAt(s, m - 1))
  }

  /** The longest streak: the longest block of consecutive days in the sorted dates. */
  function LongestStreak(dates: seq<Day>): (n: nat)
    ensures dates == [] ==> n == 0
    ensures dates != [] ==> 1 <= n <= |dates|
  {
    if dates == [] then 0 else BestRun(SortAsc(dates), |dates|)
  }

  /** A block ending at `j - 1` is no longer than the block RunEndingAt measures
      there, and its days climb by one per position. */
  lemma {:induction false} BlockWithinRun(s: seq<Day>, i: int, j: int)
    requires ConsecutiveBlock(s, i, j)
    ensures RunEndingAt(s, j - 1) >= j - i
    ensures s[j - 1] - s[i] == j - 1 - i
    decreases j - i
  {
    if j - i > 1 {
      BlockWithinRun(s, i, j - 1);
    }
  }

  /** The longest streak is the length of a longest block of consecutive days
      in the sorted dates: one such block has that length, none is longer. */
  lemma LongestStreakIsLongestBlock(dates: seq<Day>)
    requires dates != []
    ensures forall i, j :: ConsecutiveBlock(SortAsc(dates), i, j) ==> j - i <= LongestStreak(dates)
    ensures exists i, j :: ConsecutiveBlock(SortAsc(dates), i, j) && j - i == LongestStreak(dates)
  {
    var s := SortAsc(dates);
    forall i, j | ConsecutiveBlock(s, i, j) ensures j - i <= LongestStreak(dates) {
      BlockWithinRun(s, i, j);
    }
    var e :| 0 <= e < |s| && RunEndingAt(s, e) == BestRun(s, |s|);
    RunEndingAtIsMaximalBlock(s, e);
    assert ConsecutiveBlock(s, e + 1 - RunEndingAt(s, e), e + 1);
  }

  // ---------------------------------------------------------------------------
  // Longest streak against current streak

  /** Equal entries at two positions make a date occur at least twice. */
  lemma DuplicateCount(s: seq<Day>, i: int, j: int)
    requires 0 <= i < j < |s| && s[i] == s[j]
    ensures multiset(s)[s[i]] >= 2
  {
    assert s == s[..j] + s[j..];
    assert s[..j][i] == s[i];
    assert s[j..][0] == s[j];
  }

  /** Ascending without duplicates is strictly ascending. */
  lemma SortedDistinctIsStrict(s: seq<Day>)
    requires SortedAsc(s) && NoDuplicates(s)
    ensures forall i, j :: 0 <= i < j < |s| ==> s[i] < s[j]
  {
    forall i, j | 0 <= i < j < |s| ensures s[i] < s[j] {
      assert InOrder(s, i, j);
      if s[i] == s[j] {
        DuplicateCount(s, i, j);
        assert false;
      }
    }
  }

  /** In a strictly increasing list holding every day from `s[i]` to `s[j]`,
      the entries from `i` to `j` form a block of consecutive days. */
  lemma FilledBlock(s: seq<Day>, i: int, j: int)
    requires 0 <= i <= j < |s|
    requires forall a, b :: 0 <= a < b < |s| ==> s[a] < s[b]
    requires forall v :: s[i] <= v <= s[j] ==> v in s
    ensures ConsecutiveBlock(s, i, j + 1)
  {
    forall k | i < k <= j ensures s[k] == s[k - 1] + 1 {
      var v := s[k - 1] + 1;
      assert v in s;
      var m :| 0 <= m < |s| && s[m] == v;
      assert m >= k;
    }
  }

  /** With no duplicate dates, the longest streak is at least the current streak. */
  lemma LongestAtLeastCurrent(dates: seq<Day>, today: Day)
    requires NoDuplicates(dates)
    ensures LongestStreak(dates) >= CurrentStreak(dates, today)
  {
    var n := CurrentStreak(dates, today);
    if n > 0 {
      var end := if today in dates then today else today - 1;
      assert Run(dates, end) == n;
      var s := SortAsc(dates);
      SortAscIsSortedPermutation(dates);
      RunWithinSorted(dates, s, end, n);
    }
  }

  /** A run of `n` consecutive completed days ending at `end` is a block of
      the ascending arrangement `s` of the dates. */
  lemma RunWithinSorted(dates: seq<Day>, s: seq<Day>, end: Day, n: nat)
    requires NoDuplicates(dates) && SortedAsc(s) && multiset(s) == multiset(dates)
    requires n > 0 && forall x :: end - n < x <= end ==> x in dates
    ensures s != [] && BestRun(s, |s|) >= n
  {
    assert NoDuplicates(s);
    SortedDistinctIsStrict(s);
    forall x | end - n < x <= end ensures x in s {
      assert x in dates;
      assert x in multiset(dates);
    }
    RunIsBlock(s, end, n);
  }

  /** In a strictly ascending sequence holding every day of `(end - n, end]`,
      those days form a block, so the longest block is at least `n` long. */
  lemma RunIsBlock(s: seq<Day>, end: Day, n: nat)
    requires forall a, b :: 0 <= a < b < |s| ==> s[a] < s[b]
    requires n > 0 && forall x :: end - n < x <= end ==> x in s
    ensures s != [] && BestRun(s, |s|) >= n
  {
    assert end - n + 1 in s && end in s;
    var i :| 0 <= i < |s| && s[i] == end - n + 1;
    var j :| 0 <= j < |s| && s[j] == end;
    assert i <= j;
    FilledBlock(s, i, j);
    BlockWithinRun(s, i, j + 1);
  }

  // ---------------------------------------------------------------------------
  // getStreak

  /** The streak summary getStreak reports for `dates` on day `today`. */
  function StreakOf(dates: seq<Day>, today: Day): (r: StreakInfo)
    ensures dates == [] <==> r.lastCompletedDate == None
    ensures dates == [] ==> r.currentStreak == 0 && r.longestStreak == 0
    ensures r.lastCompletedDate.Some? ==>
      r.lastCompletedDate.value in dates && forall d :: d in dates ==> d <= r.lastCompletedDate.value
    ensures dates != [] ==> 1 <= r.longestStreak <= |dates|
    ensures r.currentStreak == 0 <==> today !in dates && today - 1 !in dates
    ensures NoDuplicates(dates) ==> r.currentStreak <= r.longestStreak
  {
    if dates == [] then StreakInfo(0, 0, None)
    else
      assert NoDuplicates(dates) ==> LongestStreak(dates) >= CurrentStreak(dates, today) by {
        if NoDuplicates(dates) {
          LongestAtLeastCurrent(dates, today);
        }
      }
      StreakInfo(CurrentStreak(dates, today), LongestStreak(dates), Some(MaxDay(dates)))
  }

  /** The first phase of getStreak: the cursor starts at today, or at
      yesterday when only yesterday is completed, and moves back while the day
      under it is completed. */
  method CountCurrentStreak(dates: seq<Day>, today: Day) returns (currentStreak: nat)
    ensures currentStreak == CurrentStreak(dates, today)
  {
    currentStreak := 0;
    var checkDate := today;
    if today !in dates {
      if today - 1 !in dates {
        currentStreak := 0;
      } else {
        checkDate := checkDate - 1;
      }
    }
    while true
      invariant currentStreak + Run(dates, checkDate) == CurrentStreak(dates, today)
      decreases DaysUpTo(dates, checkDate)
    {
      if checkDate in dates {
        assert checkDate in DaysUpTo(dates, checkDate) - DaysUpTo(dates, checkDate - 1);
        currentStreak := currentStreak + 1;
        checkDate := checkDate - 1;
      } else {
        break;
      }
    }
  }

  /** The second phase of getStreak: one pass over the ascending dates that
      extends the running block when a day follows its predecessor and
      otherwise closes it. */
  method CountLongestStreak(sortedAsc: seq<Day>) returns (longestStreak: nat)
    requires sortedAsc != []
    ensures longestStreak == BestRun(sortedAsc, |sortedAsc|)
  {
    longestStreak := 0;
    var tempStreak: nat := 1;
    for i := 1 to |sortedAsc|
      invariant tempStreak == RunEndingAt(sortedAsc, i - 1)
      invariant Max(longestStreak, tempStreak) == BestRun(sortedAsc, i)
    {
      assert BestRun(sortedAsc, i + 1) == Max(BestRun(sortedAsc, i), RunEndingAt(sortedAsc, i));
      var diffDays := sortedAsc[i] - sortedAsc[i - 1];
      if diffDays == 1 {
        tempStreak := tempStreak + 1;
      } else {
        longestStreak := Max(longestStreak, tempStreak);
        tempStreak := 1;
      }
    }
    longestStreak := Max(longestStreak, tempStreak);
  }

  /** `getStreak(habit)` on day `today`. */
  method GetStreak(h: Habit, today: Day) returns (info: StreakInfo)
    ensures info == StreakOf(h.completedDates, today)
  {
    var dates := h.completedDates;
    if |dates| == 0 {
      return StreakInfo(0, 0, None);
    }
    var sortedDates := Reverse(SortAsc(dates));
    var currentStreak := CountCurrentStreak(dates, today);
    var longestStreak := CountLongestStreak(SortAsc(dates));
    LastOfSortedIsMax(dates);
    info := StreakInfo(currentStreak, longestStreak, Some(sortedDates[0]));
  }

  // ---------------------------------------------------------------------------
  // getCompletionRate

  /** `Math.ceil(ms / 86400000)`. */
  function CeilDays(ms: int): (q: int)
    ensures (q - 1) * MsPerDay < ms <= q * MsPerDay
  {
    -((-ms) / MsPerDay)
  }

  /** `Math.round(p / q)` for a positive `q`: `floor(p / q + 1/2)`. */
  function RoundDiv(p: int, q: int): (r: int)
    requires q > 0
    ensures p >= 0 ==> r >= 0
  {
    (2 * p + q) / (2 * q)
  }

  /** RoundDiv is the integer nearest to `p / q`, halves rounded up. */
  lemma RoundDivIsNearest(p: int, q: int)
    requires q > 0
    ensures var r := RoundDiv(p, q); q * (2 * r - 1) <= 2 * p < q * (2 * r + 1)
  {
    var x := 2 * p + q;
    var r := x / (2 * q);
    assert x == 2 * q * r + x % (2 * q);
  }

  /** The UTC day of the instant `nowMs` (milliseconds since the epoch). */
  function DayOf(nowMs: int): (d: Day)
    ensures d * MsPerDay <= nowMs < (d + 1) * MsPerDay
  {
    nowMs / MsPerDay
  }

  /** `totalDays`: whole days (rounded up) from UTC midnight of `createdAt` to
      the instant `nowMs`, plus one, and at least one. */
  function TotalDays(createdAt: Day, nowMs: int): (t: int)
    ensures t >= 1
  {
    Max(1, CeilDays(nowMs - createdAt * MsPerDay) + 1)
  }

  /** Except exactly at midnight, totalDays counts one day more than the days
      from `createdAt` through today inclusive. */
  lemma {:induction false} TotalDaysByDay(createdAt: Day, nowMs: int)
    ensures nowMs % MsPerDay != 0 ==> TotalDays(createdAt, nowMs) == Max(1, DayOf(nowMs) - createdAt + 2)
    ensures nowMs % MsPerDay == 0 ==> TotalDays(createdAt, nowMs) == Max(1, DayOf(nowMs) - createdAt + 1)
  {
    var q := CeilDays(nowMs - createdAt * MsPerDay);
    var today := DayOf(nowMs);
    assert nowMs == today * MsPerDay + nowMs % MsPerDay;
    var e := nowMs - createdAt * MsPerDay;
    assert e == (today - createdAt) * MsPerDay + nowMs % MsPerDay;
    if nowMs % MsPerDay != 0 {
      assert (today - createdAt) * MsPerDay < e <= (today - createdAt + 1) * MsPerDay;
      assert q == today - createdAt + 1;
    } else {
      assert q == today - createdAt;
    }
  }

  /** `getCompletionRate(habit)` at the instant `nowMs`. */
  function CompletionRate(h: Habit, nowMs: int): (r: nat)
    ensures h.completedDates == [] ==> r == 0
  {
    RoundDiv(100 * |h.completedDates|, TotalDays(h.createdAt, nowMs))
  }

  /** The rate is the percentage of completions over totalDays, rounded to
      the nearest integer; it is not capped at 100. */
  lemma CompletionRateIsRoundedPercentage(h: Habit, nowMs: int)
    ensures var t, r := TotalDays(h.createdAt, nowMs), CompletionRate(h, nowMs);
      t * (2 * r - 1) <= 200 * |h.completedDates| < t * (2 * r + 1)
  {
    RoundDivIsNearest(100 * |h.completedDates|, TotalDays(h.createdAt, nowMs));
  }

  /** A habit created today scores 50 per completion at any instant after
      midnight, and 100 per completion exactly at midnight: so a habit created
      and completed today reports 50, and three completions report 150. */
  lemma {:induction false} RateOnCreationDay(h: Habit, nowMs: int)
    requires h.createdAt == DayOf(nowMs)
    ensures nowMs % MsPerDay != 0 ==> CompletionRate(h, nowMs) == 50 * |h.completedDates|
    ensures nowMs % MsPerDay == 0 ==> CompletionRate(h, nowMs) == 100 * |h.completedDates|
  {
    TotalDaysByDay(h.createdAt, nowMs);
    var n := |h.completedDates|;
    if nowMs % MsPerDay != 0 {
      assert TotalDays(h.createdAt, nowMs) == 2;
      assert (200 * n + 2) / 4 == 50 * n;
    } else {
      assert TotalDays(h.createdAt, nowMs) == 1;
      assert (200 * n + 1) / 2 == 100 * n;
    }
  }

  /** A newly created habit has no streak and no last completion, and its
      first toggle on its creation day records exactly that day. */
  lemma CreatedHabitIsFresh(name: string, color: string, userId: string, id: string, today: Day)
    ensures var h := CreateHabit(name, color, userId, id, today);
      && StreakOf(h.completedDates, today) == StreakInfo(0, 0, None)
      && ToggleHabit(h, today).completedDates == [today]
  {
    var h := CreateHabit(name, color, userId, id, today);
    assert h.completedDates + [today] == [today];
  }
}
