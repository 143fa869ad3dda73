/** The second statistics engine (utils/stats_calculator.py). Its counters,
    rate, age, last activity, mood histogram, activity and type counts are
    those of models/stats.py and are the members of `Stats`; what differs is
    the productivity score, which counts only the element types in use, the
    weekly streak and the mood variety. */
module StatsCalculator {
  import opened Collections
  import opened Records
  import opened Sorting
  import opened Stats

  // ---- Productivity score ----

  /** The element types that occur at least once. */
  function KindsUsed(es: seq<EntryRecord>): nat {
    |set n | n in TypeNames && CountOfType(es, n) > 0|
  }

  /** At most the five types are in use, and none without entries. */
  lemma KindsUsedBounds(es: seq<EntryRecord>)
    ensures KindsUsed(es) <= |TypeNames| == 5
    ensures es == [] ==> KindsUsed(es) == 0
  {
    TypeNamesCount();
    SubsetSize((set n | n in TypeNames && CountOfType(es, n) > 0), TypeNames);
    if es == [] {
      assert (set n | n in TypeNames && CountOfType(es, n) > 0) == {};
    }
  }

  /** `get_productivity_score()`: as in `Stats`, except that the
      element-types term counts only the types with a non-zero count. */
  method GetProductivityScore(s: UserSlice, now: Timestamp) returns (score: nat)
    ensures score == Score(CompletedTasks(s.entries), ActiveDays(s.entries, now, 7), |s.files|,
      KindsUsed(s.entries), CountOfType(s.entries, "problem"))
    ensures score <= 100
  {
    score := 0;
    var completed := CountCompletedTasks(s.entries);
    score := score + Min(30, completed * 3);
    var activity := ActivityByDay(s.entries, now, 7);
    var activeDays := |activity|;
    HistogramCounts(RecentDays(s.entries, WindowStart(now, 7)));
    ghost var days := set d | d in RecentDays(s.entries, WindowStart(now, 7));
    assert forall d :: d in activity.Keys <==> d in days;
    assert activity.Keys == days;
    score := score + Min(20, activeDays * 5);
    score := score + Min(20, |s.files| * 7);
    var types := EntriesByType(s.entries);
    var entryTypes := |set n | n in types && types[n] > 0|;
    assert (set n | n in types && types[n] > 0) == set n | n in TypeNames && CountOfType(s.entries, n) > 0;
    score := score + Min(15, entryTypes * 3);
    var problems := types["problem"];
    score := score + Min(15, problems * 3);
    ScoreBounds(completed, activeDays, |s.files|, entryTypes, problems);
    score := Min(100, score);
  }

  /** A user with no entries and no files scores 0. */
  lemma EmptyUserScoresZero(now: Timestamp)
    ensures Score(CompletedTasks([]), ActiveDays([], now, 7), 0, KindsUsed([]), CountOfType([], "problem")) == 0
  {
    KindsUsedBounds([]);
    assert RecentDays([], WindowStart(now, 7)) == [];
    assert (set d | d in RecentDays([], WindowStart(now, 7))) == {};
  }

  /** Counting only the types in use never scores higher than counting all
      five keys, and scores 15 lower when no type is in use. */
  lemma CalculatorScoreAtMostStats(s: UserSlice, now: Timestamp)
    ensures
      var c := CompletedTasks(s.entries);
      var a := ActiveDays(s.entries, now, 7);
      var p := CountOfType(s.entries, "problem");
      && Score(c, a, |s.files|, KindsUsed(s.entries), p) <= Score(c, a, |s.files|, |TypeNames|, p)
      && (KindsUsed(s.entries) == 0 ==> Score(c, a, |s.files|, KindsUsed(s.entries), p) + 15 == Score(c, a, |s.files|, |TypeNames|, p))
  {
    KindsUsedBounds(s.entries);
    var c := CompletedTasks(s.entries);
    var a := ActiveDays(s.entries, now, 7);
    var p := CountOfType(s.entries, "problem");
    ScoreMonotoneInKinds(c, a, |s.files|, KindsUsed(s.entries), |TypeNames|, p);
    ScoreBounds(c, a, |s.files|, KindsUsed(s.entries), p);
    ScoreBounds(c, a, |s.files|, |TypeNames|, p);
  }

  // ---- Weekly streak ----

  /** The dates of the entries, in document order. */
  function Days(es: seq<EntryRecord>): (r: seq<int>)
    ensures |r| == |es|
    ensures forall i :: 0 <= i < |es| ==> r[i] == DayOf(es[i].createdAt)
  {
    seq(|es|, i requires 0 <= i < |es| => DayOf(es[i].createdAt))
  }

  /** `sorted(dates)`. */
  function SortedDays(es: seq<EntryRecord>): seq<int> {
    Sort(Days(es), IntLe)
  }

  /** The k dates from index i on each follow the one before by exactly one day. */
  predicate ClimbsByOne(d: seq<int>, i: nat, k: nat) {
    1 <= k && i + k <= |d| && forall j :: i < j < i + k ==> d[j] - d[j - 1] == 1
  }

  function Max(a: nat, b: nat): nat {
    if a < b then b else a
  }

  /** The value of `streak` after looking at index i. */
  function RunEndingAt(d: seq<int>, i: nat): (r: nat)
    requires i < |d|
    ensures 1 <= r <= i + 1
  {
    if i == 0 then 1 else if d[i] - d[i - 1] == 1 then RunEndingAt(d, i - 1) + 1 else 1
  }

  /** The value of `max_streak` after looking at the first n dates. */
  function LongestRun(d: seq<int>, n: nat): (r: nat)
    requires 1 <= n <= |d|
    ensures 1 <= r <= n
  {
    if n == 1 then 1 else Max(LongestRun(d, n - 1), RunEndingAt(d, n - 1))
  }

  /** The run counted at index i is a real climb ending there. */
  lemma {:induction false} RunEndingAtClimbs(d: seq<int>, i: nat)
    requires i < |d|
    ensures ClimbsByOne(d, i + 1 - RunEndingAt(d, i), RunEndingAt(d, i))
  {
    if i > 0 && d[i] - d[i - 1] == 1 {
      RunEndingAtClimbs(d, i - 1);
    }
  }

  /** No climb ending at index i is longer than the run counted there. */
  lemma {:induction false} RunEndingAtLongest(d: seq<int>, i: nat, k: nat)
    requires i < |d| && k <= i + 1 && ClimbsByOne(d, i + 1 - k, k)
    ensures k <= RunEndingAt(d, i)
  {
    if k > 1 {
      assert d[i] - d[i - 1] == 1;
      assert ClimbsByOne(d, i - (k - 1), k - 1);
      RunEndingAtLongest(d, i - 1, k - 1);
    }
  }

  /** The longest run over the first n dates is attained by a climb within them. */
  lemma {:induction false} LongestRunAttained(d: seq<int>, n: nat)
    requires 1 <= n <= |d|
    ensures exists i: nat :: ClimbsByOne(d, i, LongestRun(d, n)) && i + LongestRun(d, n) <= n
  {
    if n == 1 {
      assert LongestRun(d, n) == 1;
      assert ClimbsByOne(d, 0, LongestRun(d, n)) && 0 + LongestRun(d, n) <= n;
    } else if LongestRun(d, n - 1) >= RunEndingAt(d, n - 1) {
      LongestRunAttained(d, n - 1);
      var i: nat :| ClimbsByOne(d, i, LongestRun(d, n - 1)) && i + LongestRun(d, n - 1) <= n - 1;
      assert ClimbsByOne(d, i, LongestRun(d, n));
    } else {
      RunEndingAtClimbs(d, n - 1);
      var i := n - RunEndingAt(d, n - 1);
      assert ClimbsByOne(d, i, LongestRun(d, n));
    }
  }

  /** Every climb within the first n dates is at most the longest run. */
  lemma {:induction false} LongestRunIsLongest(d: seq<int>, n: nat, i: nat, k: nat)
    requires 1 <= n <= |d| && ClimbsByOne(d, i, k) && i + k <= n
    ensures k <= LongestRun(d, n)
  {
    if i + k == n {
      RunEndingAtLongest(d, n - 1, k);
    } else {
      LongestRunIsLongest(d, n - 1, i, k);
    }
  }

  /** The streak of a sorted list of dates: 0 for none, else the longest run. */
  function StreakOf(d: seq<int>): (r: nat)
    ensures r == 0 <==> d == []
    ensures d != [] ==> 1 <= r <= |d|
  {
    if d == [] then 0 else LongestRun(d, |d|)
  }

  /** The streak is the length of the longest climb by one day at a time,
      and some climb has that length. */
  lemma StreakIsLongestClimb(d: seq<int>)
    requires d != []
    ensures exists i: nat :: ClimbsByOne(d, i, StreakOf(d))
    ensures forall i: nat, k: nat :: ClimbsByOne(d, i, k) ==> k <= StreakOf(d)
  {
    LongestRunAttained(d, |d|);
    forall i: nat, k: nat | ClimbsByOne(d, i, k)
      ensures k <= StreakOf(d)
    {
      LongestRunIsLongest(d, |d|, i, k);
    }
  }

  /** The scan of `get_weekly_streak()`: `streak` counts the current run,
      reset to 1 whenever two neighbouring dates do not differ by exactly one
      day, and `max_streak` keeps the largest. */
  method LongestRunScan(dates: seq<int>) returns (maxStreak: nat)
    requires dates != []
    ensures maxStreak == StreakOf(dates)
  {
    var streak := 1;
    maxStreak := 1;
    for i := 1 to |dates|
      invariant streak == RunEndingAt(dates, i - 1)
      invariant maxStreak == LongestRun(dates, i)
    {
      if dates[i] - dates[i - 1] == 1 {
        streak := streak + 1;
        maxStreak := Max(maxStreak, streak);
      } else {
        streak := 1;
      }
    }
  }

  /** The streak as written: over the sorted dates, duplicates included. */
  function WeeklyStreak(es: seq<EntryRecord>): (r: nat)
    ensures r == 0 <==> es == []
    ensures es != [] ==> 1 <= r <= |es|
  {
    StreakOf(SortedDays(es))
  }

  /** `get_weekly_streak()`: 0 without entries, otherwise the scan over the
      sorted dates. */
  method GetWeeklyStreak(entries: seq<EntryRecord>) returns (streak: nat)
    ensures streak == WeeklyStreak(entries)
  {
    if entries == [] {
      return 0;
    }
    var dates := Sort(Days(entries), IntLe);
    streak := LongestRunScan(dates);
  }

  /** Sorting an already sorted list of dates leaves it as it is. */
  lemma {:induction false} SortOfSorted(s: seq<int>)
    requires SortedBy(s, IntLe)
    ensures Sort(s, IntLe) == s
  {
    if s != [] {
      SortOfSorted(s[1..]);
      assert s == [s[0]] + s[1..];
    }
  }

  /** A user has an entry on day d. */
  predicate HasEntryOn(es: seq<EntryRecord>, d: int) {
    d in Days(es)
  }

  /** Every day from a to a + k - 1 has an entry. */
  predicate EveryDayCovered(es: seq<EntryRecord>, a: int, k: nat) {
    forall d :: a <= d < a + k ==> HasEntryOn(es, d)
  }

  /** The scan over the dates 1, 2, 2, 3 stops at a run of 2. */
  lemma DuplicateDateStreak()
    ensures StreakOf([1, 2, 2, 3]) == 2
  {
    var d := [1, 2, 2, 3];
    assert RunEndingAt(d, 1) == 2;
    assert RunEndingAt(d, 2) == 1;
    assert RunEndingAt(d, 3) == 2;
    assert LongestRun(d, 3) == 2;
  }

  /** Four entries dated 1, 2, 2 and 3 have sorted dates [1, 2, 2, 3]. */
  lemma SortedDaysOfExample(es: seq<EntryRecord>)
    requires |es| == 4
    requires DayOf(es[0].createdAt) == 1 && DayOf(es[1].createdAt) == 2
    requires DayOf(es[2].createdAt) == 2 && DayOf(es[3].createdAt) == 3
    ensures SortedDays(es) == [1, 2, 2, 3]
    ensures EveryDayCovered(es, 1, 3)
  {
    var d := Days(es);
    assert d == [1, 2, 2, 3] by {
      assert |d| == 4 && d[0] == 1 && d[1] == 2 && d[2] == 2 && d[3] == 3;
    }
    SortedExample();
    assert d[0] == 1 && d[1] == 2 && d[3] == 3;
    forall x | 1 <= x < 1 + 3
      ensures HasEntryOn(es, x)
    {
      assert x == d[0] || x == d[1] || x == d[3];
    }
  }

  lemma SortedExample()
    ensures Sort([1, 2, 2, 3], IntLe) == [1, 2, 2, 3]
  {
    assert SortedBy([1, 2, 2, 3], IntLe);
    SortOfSorted([1, 2, 2, 3]);
  }

  /** Four entries on days 1, 2, 2 and 3 cover three consecutive days, yet
      the streak as written is 2: the second entry of day 2 resets the run. */
  lemma SameDayEntryResetsStreak(es: seq<EntryRecord>)
    requires |es| == 4
    requires DayOf(es[0].createdAt) == 1 && DayOf(es[1].createdAt) == 2
    requires DayOf(es[2].createdAt) == 2 && DayOf(es[3].createdAt) == 3
    ensures EveryDayCovered(es, 1, 3)
    ensures WeeklyStreak(es) == 2
  {
    SortedDaysOfExample(es);
    DuplicateDateStreak();
  }

  // ---- The streak over distinct dates ----

  /** Drop repeated neighbours: on a sorted list, `sorted(set(dates))`. */
  function Dedup(s: seq<int>): (r: seq<int>)
    ensures |r| <= |s|
    ensures s != [] ==> r != [] && r[|r| - 1] == s[|s| - 1]
    ensures forall x :: x in r <==> x in s
  {
    if |s| <= 1 then s
    else
      var p := Dedup(s[..|s| - 1]);
      assert s == s[..|s| - 1] + [s[|s| - 1]];
      if s[|s| - 1] == s[|s| - 2] then p else p + [s[|s| - 1]]
  }

  predicate StrictlyIncreasing(u: seq<int>) {
    forall i, j :: 0 <= i < j < |u| ==> u[i] < u[j]
  }

  lemma {:induction false} DedupIncreasing(s: seq<int>)
    requires SortedBy(s, IntLe)
    ensures StrictlyIncreasing(Dedup(s))
  {
    if |s| > 1 {
      var init := s[..|s| - 1];
      assert SortedBy(init, IntLe);
      DedupIncreasing(init);
      var p := Dedup(init);
      if s[|s| - 1] != s[|s| - 2] {
        assert IntLe(s[|s| - 2], s[|s| - 1]);
        assert p[|p| - 1] == s[|s| - 2];
        forall i | 0 <= i < |p|
          ensures p[i] < s[|s| - 1]
        {
          assert i == |p| - 1 || p[i] < p[|p| - 1];
        }
      }
    }
  }

  /** In a strictly increasing list of dates that holds every day from a to
      a + m, those days sit at consecutive indices starting where a is. */
  lemma {:induction false} ConsecutiveDaysAdjacent(u: seq<int>, i: nat, a: int, m: nat)
    requires StrictlyIncreasing(u) && i < |u| && u[i] == a
    requires forall d :: a <= d <= a + m ==> d in u
    ensures i + m < |u| && u[i + m] == a + m
    ensures ClimbsByOne(u, i, m + 1)
  {
    if m > 0 {
      ConsecutiveDaysAdjacent(u, i, a, m - 1);
      assert a + m in u;
      var j :| 0 <= j < |u| && u[j] == a + m;
      assert u[i + m - 1] < u[j];
      assert i + m - 1 < j;
      assert u[i + m - 1] < u[i + m] <= u[j];
    }
  }

  /** Along a climb the dates go up by one per index. */
  lemma {:induction false} ClimbValues(u: seq<int>, i: nat, k: nat, j: nat)
    requires ClimbsByOne(u, i, k) && j < k
    ensures u[i + j] == u[i] + j
  {
    if j > 0 {
      ClimbValues(u, i, k, j - 1);
    }
  }

  /** The streak over distinct dates, as evidently intended. */
  function WeeklyStreakDistinct(es: seq<EntryRecord>): (r: nat)
    ensures r == 0 <==> es == []
  {
    StreakOf(Dedup(SortedDays(es)))
  }

  /** The distinct sorted dates: strictly increasing, and exactly the
      dates that have an entry. */
  lemma DistinctDays(es: seq<EntryRecord>)
    ensures StrictlyIncreasing(Dedup(SortedDays(es)))
    ensures forall x :: x in Dedup(SortedDays(es)) <==> HasEntryOn(es, x)
  {
    IntOrderIsTotalPreorder();
    SortSorted(Days(es), IntLe);
    DedupIncreasing(SortedDays(es));
    forall x
      ensures x in SortedDays(es) <==> x in Days(es)
    {
      assert x in SortedDays(es) <==> x in multiset(SortedDays(es));
      assert x in Days(es) <==> x in multiset(Days(es));
    }
  }

  /** The intended streak bounds every stretch of consecutive calendar days
      that each have an entry. */
  lemma {:induction false} DistinctStreakIsLongest(es: seq<EntryRecord>, a: int, k: nat)
    requires k >= 1 && EveryDayCovered(es, a, k)
    ensures k <= WeeklyStreakDistinct(es)
  {
    var u := Dedup(SortedDays(es));
    DistinctDays(es);
    assert HasEntryOn(es, a);
    var i :| 0 <= i < |u| && u[i] == a;
    forall d | a <= d <= a + (k - 1)
      ensures d in u
    {
      assert HasEntryOn(es, d);
    }
    ConsecutiveDaysAdjacent(u, i, a, k - 1);
    LongestRunIsLongest(u, |u|, i, k);
  }

  /** A stretch as long as the intended streak is covered. */
  lemma {:induction false} DistinctStreakAttained(es: seq<EntryRecord>)
    requires es != []
    ensures exists a :: EveryDayCovered(es, a, WeeklyStreakDistinct(es))
  {
    var u := Dedup(SortedDays(es));
    DistinctDays(es);
    var s := WeeklyStreakDistinct(es);
    LongestRunAttained(u, |u|);
    var i: nat :| ClimbsByOne(u, i, s) && i + s <= |u|;
    forall d | u[i] <= d < u[i] + s
      ensures HasEntryOn(es, d)
    {
      ClimbValues(u, i, s, d - u[i]);
      assert u[i + (d - u[i])] == d;
    }
    assert EveryDayCovered(es, u[i], s);
  }

  /** `get_weekly_streak()` over `sorted(set(dates))`. */
  method GetWeeklyStreakDistinct(entries: seq<EntryRecord>) returns (streak: nat)
    ensures streak == WeeklyStreakDistinct(entries)
  {
    if entries == [] {
      return 0;
    }
    var dates := Dedup(Sort(Days(entries), IntLe));
    streak := LongestRunScan(dates);
  }

  /** On four entries dated 1, 2, 2 and 3, the intended streak is 3. */
  lemma SameDayEntryKeepsDistinctStreak(es: seq<EntryRecord>)
    requires |es| == 4
    requires DayOf(es[0].createdAt) == 1 && DayOf(es[1].createdAt) == 2
    requires DayOf(es[2].createdAt) == 2 && DayOf(es[3].createdAt) == 3
    ensures WeeklyStreakDistinct(es) == 3
  {
    SortedDaysOfExample(es);
    DedupExample();
    assert RunEndingAt([1, 2, 3], 2) == 3;
  }

  /** The distinct dates of 1, 2, 2, 3. */
  lemma DedupExample()
    ensures Dedup([1, 2, 2, 3]) == [1, 2, 3]
  {
    var d := [1, 2, 2, 3];
    assert d[..3] == [1, 2, 2];
    assert Dedup([1, 2]) == [1, 2] by {
      assert [1, 2][..1] == [1];
    }
    assert Dedup(d[..3]) == [1, 2] by {
      assert d[..3][..2] == [1, 2];
    }
  }

  // ---- Mood variety ----

  /** `get_mood_variety()`: the number of distinct moods. */
  function MoodVariety(es: seq<EntryRecord>): nat {
    |set m | m in Moods(es)|
  }

  /** There are no more moods than entries, and none exactly when there are
      no entries. */
  lemma MoodVarietyBounds(es: seq<EntryRecord>)
    ensures MoodVariety(es) <= |es|
    ensures MoodVariety(es) == 0 <==> es == []
  {
    DistinctAtMostLength(Moods(es));
  }
}
