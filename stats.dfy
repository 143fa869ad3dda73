/** The statistics engine of models/stats.py, over one user's slice of the
    document: task counters, completion rate, last activity, mood histogram,
    activity by day, per-type element counts, achievements and the
    productivity score. The calendar date of a timestamp is its day number. */
module Stats {
  import opened Wrappers
  import opened Text
  import opened Collections
  import opened Records
  import opened Document
  import opened FileManager
  import opened StorageManager
  import opened UserRepo

  /** What `Stats(user_id)` loads: the user (if stored), and the user's
      entries and files in document order. */
  datatype UserSlice = UserSlice(user: Option<UserRecord>, entries: seq<EntryRecord>, files: seq<FileRecord>)

  function SliceOf(doc: Snapshot, userId: Id): (s: UserSlice)
    ensures s.user == Lookup(doc.users, UserKey, userId)
    ensures forall i :: 0 <= i < |s.entries| ==> s.entries[i] in doc.entries && s.entries[i].userId == userId
    ensures forall i :: 0 <= i < |doc.entries| && doc.entries[i].userId == userId ==> doc.entries[i] in s.entries
    ensures forall i :: 0 <= i < |s.files| ==> s.files[i] in doc.files && s.files[i].userId == userId
    ensures forall i :: 0 <= i < |doc.files| && doc.files[i].userId == userId ==> doc.files[i] in s.files
  {
    UserSlice(Lookup(doc.users, UserKey, userId), Filter(doc.entries, EntryOwnedBy(userId)), Filter(doc.files, FileOwnedBy(userId)))
  }

  // ---- Task counters ----

  function ChecklistLength(e: Element): nat {
    if e.Checklist? then |e.items| else 0
  }

  function CheckedIn(items: seq<ChecklistItem>): nat {
    if items == [] then 0 else CheckedIn(items[..|items| - 1]) + (if items[|items| - 1].checked then 1 else 0)
  }

  function CheckedInElement(e: Element): nat {
    if e.Checklist? then CheckedIn(e.items) else 0
  }

  /** Checklist items over a list of elements. */
  function TasksIn(els: seq<Element>): nat {
    if els == [] then 0 else TasksIn(els[..|els| - 1]) + ChecklistLength(els[|els| - 1])
  }

  /** Ticked checklist items over a list of elements. */
  function DoneIn(els: seq<Element>): nat {
    if els == [] then 0 else DoneIn(els[..|els| - 1]) + CheckedInElement(els[|els| - 1])
  }

  /** The number of tasks: checklist items over all the entries. */
  function TotalTasks(es: seq<EntryRecord>): nat {
    if es == [] then 0 else TotalTasks(es[..|es| - 1]) + TasksIn(es[|es| - 1].elements)
  }

  /** The number of completed tasks: ticked checklist items over all the entries. */
  function CompletedTasks(es: seq<EntryRecord>): nat {
    if es == [] then 0 else CompletedTasks(es[..|es| - 1]) + DoneIn(es[|es| - 1].elements)
  }

  lemma {:induction false} CheckedAtMostItems(items: seq<ChecklistItem>)
    ensures CheckedIn(items) <= |items|
  {
    if items != [] {
      CheckedAtMostItems(items[..|items| - 1]);
    }
  }

  lemma {:induction false} DoneAtMostTasks(els: seq<Element>)
    ensures DoneIn(els) <= TasksIn(els)
  {
    if els != [] {
      DoneAtMostTasks(els[..|els| - 1]);
      var e := els[|els| - 1];
      if e.Checklist? {
        CheckedAtMostItems(e.items);
      }
    }
  }

  /** Completed tasks never exceed tasks. */
  lemma {:induction false} CompletedAtMostTotal(es: seq<EntryRecord>)
    ensures CompletedTasks(es) <= TotalTasks(es)
  {
    if es != [] {
      CompletedAtMostTotal(es[..|es| - 1]);
      DoneAtMostTasks(es[|es| - 1].elements);
    }
  }

  /** `_count_tasks()`: for each entry, for each checklist element, add its
      number of items. */
  method CountTasks(entries: seq<EntryRecord>) returns (tasks: nat)
    ensures tasks == TotalTasks(entries)
  {
    tasks := 0;
    for i := 0 to |entries|
      invariant tasks == TotalTasks(entries[..i])
    {
      var els := entries[i].elements;
      for j := 0 to |els|
        invariant tasks == TotalTasks(entries[..i]) + TasksIn(els[..j])
      {
        assert els[..j + 1][..j] == els[..j];
        if els[j].Checklist? {
          tasks := tasks + |els[j].items|;
        }
      }
      assert els[..|els|] == els;
      assert entries[..i + 1][..i] == entries[..i];
    }
    assert entries[..|entries|] == entries;
  }

  /** `_count_completed_tasks()`: for each checklist item of each checklist
      element of each entry, add one when it is ticked. */
  method CountCompletedTasks(entries: seq<EntryRecord>) returns (completed: nat)
    ensures completed == CompletedTasks(entries)
  {
    completed := 0;
    for i := 0 to |entries|
      invariant completed == CompletedTasks(entries[..i])
    {
      var els := entries[i].elements;
      for j := 0 to |els|
        invariant completed == CompletedTasks(entries[..i]) + DoneIn(els[..j])
      {
        assert els[..j + 1][..j] == els[..j];
        if els[j].Checklist? {
          var items := els[j].items;
          for k := 0 to |items|
            invariant completed == CompletedTasks(entries[..i]) + DoneIn(els[..j]) + CheckedIn(items[..k])
          {
            assert items[..k + 1][..k] == items[..k];
            if items[k].checked {
              completed := completed + 1;
            }
          }
          assert items[..|items|] == items;
        }
      }
      assert els[..|els|] == els;
      assert entries[..i + 1][..i] == entries[..i];
    }
    assert entries[..|entries|] == entries;
  }

  // ---- Completion rate ----

  /** `_get_completion_rate()` in tenths of a percent: 0 without tasks,
      otherwise completed / total * 100 rounded to one decimal. */
  function RateTenths(completed: nat, total: nat): nat {
    if total == 0 then 0 else RoundHalfEven(1000 * completed, total)
  }

  /** The rate is 0 without tasks, lies between 0 and 100.0 percent, and is
      exactly 100.0 when every task is done. */
  lemma RateBounds(completed: nat, total: nat)
    requires completed <= total
    ensures total == 0 ==> RateTenths(completed, total) == 0
    ensures RateTenths(completed, total) <= 1000
    ensures total > 0 && completed == total ==> RateTenths(completed, total) == 1000
  {
    if total > 0 {
      if completed == total {
        ExactQuotient(1000, total);
      } else {
        QuotientBelow(1000 * completed, total, 1000);
      }
    }
  }

  lemma ExactQuotient(c: nat, b: nat)
    requires b > 0
    ensures (c * b) / b == c && (c * b) % b == 0
  {
    var q, m := (c * b) / b, (c * b) % b;
    assert (c - q) * b == m;
    if c - q >= 1 {
      assert false;
    } else if c - q <= -1 {
      assert false;
    }
  }

  /** Below c * b, the quotient by b is below c. */
  lemma QuotientBelow(a: nat, b: nat, c: nat)
    requires b > 0 && a < c * b
    ensures a / b < c
  {
    assert (a / b) * b <= a;
  }

  method GetCompletionRate(entries: seq<EntryRecord>) returns (rate: nat)
    ensures rate == RateTenths(CompletedTasks(entries), TotalTasks(entries))
    ensures rate <= 1000
    ensures TotalTasks(entries) == 0 ==> rate == 0
  {
    var total := CountTasks(entries);
    var completed := CountCompletedTasks(entries);
    CompletedAtMostTotal(entries);
    RateBounds(completed, total);
    if total == 0 {
      return 0;
    }
    rate := RoundHalfEven(1000 * completed, total);
  }

  // ---- Account age and last activity ----

  /** Whole days from `earlier` to `later`, rounded down (`timedelta.days`). */
  function DaysBetween(later: Timestamp, earlier: Timestamp): int {
    (later - earlier) / SecondsPerDay
  }

  /** `_get_account_age()`: 0 without a stored user, otherwise whole days
      since the account was created. */
  function AccountAge(user: Option<UserRecord>, now: Timestamp): (days: int)
    ensures user.None? ==> days == 0
    ensures user.Some? && user.value.createdAt <= now ==> days >= 0
    ensures user.Some? ==> days * SecondsPerDay <= now - user.value.createdAt < (days + 1) * SecondsPerDay
  {
    if user.None? then 0 else DaysBetween(now, user.value.createdAt)
  }

  /** The `created_at` of the most recent entry. */
  function Latest(es: seq<EntryRecord>): (t: Timestamp)
    requires es != []
    ensures exists i :: 0 <= i < |es| && es[i].createdAt == t
    ensures forall i :: 0 <= i < |es| ==> es[i].createdAt <= t
  {
    if |es| == 1 then es[0].createdAt
    else
      var t := Latest(es[..|es| - 1]);
      if es[|es| - 1].createdAt > t then es[|es| - 1].createdAt else t
  }

  datatype LastActive = NoActivity | Today | Yesterday | DaysAgo(days: int)

  /** `_get_last_active()`: nothing without entries; otherwise how many
      whole days ago the most recent entry was written. */
  function GetLastActive(es: seq<EntryRecord>, now: Timestamp): (r: LastActive)
    ensures r == NoActivity <==> es == []
    ensures es != [] ==> (r == Today <==> DaysBetween(now, Latest(es)) == 0)
    ensures es != [] ==> (r == Yesterday <==> DaysBetween(now, Latest(es)) == 1)
    ensures r.DaysAgo? ==> r.days == DaysBetween(now, Latest(es)) && r.days != 0 && r.days != 1
  {
    if es == [] then NoActivity
    else
      var d := DaysBetween(now, Latest(es));
      if d == 0 then Today else if d == 1 then Yesterday else DaysAgo(d)
  }

  function LastActiveText(r: LastActive): string {
    match r
    case NoActivity => "لم يسجل نشاط بعد"
    case Today => "اليوم"
    case Yesterday => "أمس"
    case DaysAgo(d) => "منذ " + IntToString(d) + " أيام"
  }

  // ---- Basic stats ----

  datatype BasicStats = BasicStats(
    totalEntries: nat,
    totalFiles: nat,
    totalTasks: nat,
    completedTasks: nat,
    completionTenths: nat,
    storageUsed: string,
    accountAge: int,
    lastActive: LastActive)

  /** `get_basic_stats()`. `jsonLength` and `disk` stand for the serialised
      entry lengths and the files on disk that the storage usage measures. */
  method GetBasicStats(s: UserSlice, now: Timestamp, jsonLength: EntryRecord -> nat, disk: Disk) returns (b: BasicStats)
    ensures b.totalEntries == |s.entries| && b.totalFiles == |s.files|
    ensures b.totalTasks == TotalTasks(s.entries) && b.completedTasks == CompletedTasks(s.entries)
    ensures b.completedTasks <= b.totalTasks
    ensures b.completionTenths == RateTenths(b.completedTasks, b.totalTasks) <= 1000
    ensures s.user.None? ==> b.storageUsed == "0 B"
    ensures s.user.Some? ==> b.storageUsed == FormatSize(Footprint(s.entries, jsonLength) + AvatarBytes(s.user.value.avatar, disk))
    ensures b.accountAge == AccountAge(s.user, now)
    ensures b.lastActive == GetLastActive(s.entries, now)
  {
    var tasks := CountTasks(s.entries);
    var completed := CountCompletedTasks(s.entries);
    var rate := GetCompletionRate(s.entries);
    CompletedAtMostTotal(s.entries);
    var storage := "0 B";
    if s.user.Some? {
      storage := FormatSize(Footprint(s.entries, jsonLength) + AvatarBytes(s.user.value.avatar, disk));
    }
    b := BasicStats(|s.entries|, |s.files|, tasks, completed, rate, storage,
      AccountAge(s.user, now), GetLastActive(s.entries, now));
  }

  // ---- Mood distribution ----

  const DefaultMood: string := "😐"

  function MoodOf(e: EntryRecord): string {
    if e.mood.Some? then e.mood.value else DefaultMood
  }

  function Moods(es: seq<EntryRecord>): (r: seq<string>)
    ensures |r| == |es|
    ensures forall i :: 0 <= i < |es| ==> r[i] == MoodOf(es[i])
  {
    seq(|es|, i requires 0 <= i < |es| => MoodOf(es[i]))
  }

  /** `get_mood_distribution()`: how many entries carry each mood, an entry
      without a mood counting as 😐. */
  function MoodDistribution(es: seq<EntryRecord>): (counts: multiset<string>)
    ensures |counts| == |es|
  {
    multiset(Moods(es))
  }

  function HasMood(m: string): EntryRecord -> bool {
    e => MoodOf(e) == m
  }

  /** Each mood's count is the number of entries with that mood. */
  lemma {:induction false} MoodCountIsEntryCount(es: seq<EntryRecord>, m: string)
    ensures MoodDistribution(es)[m] == |Filter(es, HasMood(m))|
  {
    if es != [] {
      MoodCountIsEntryCount(es[1..], m);
      assert Moods(es) == [MoodOf(es[0])] + Moods(es[1..]);
    }
  }

  // ---- Activity by day ----

  /** The first day of the activity window: the date `days` days before now. */
  function WindowStart(now: Timestamp, days: int): int {
    DayOf(now - days * SecondsPerDay)
  }

  /** The dates of the entries written on or after `start`, in order. */
  function RecentDays(es: seq<EntryRecord>, start: int): (r: seq<int>)
    ensures |r| <= |es|
    ensures forall i :: 0 <= i < |r| ==> r[i] >= start
  {
    if es == [] then []
    else
      var d := DayOf(es[|es| - 1].createdAt);
      RecentDays(es[..|es| - 1], start) + (if d >= start then [d] else [])
  }

  /** The entries created on day d. */
  function CreatedOn(d: int): EntryRecord -> bool {
    (e: EntryRecord) => DayOf(e.createdAt) == d
  }

  /** A date inside the window occurs in the window's dates once per entry
      created that day; a date before the window does not occur. */
  lemma {:induction false} RecentDaysCount(es: seq<EntryRecord>, start: int, d: int)
    ensures multiset(RecentDays(es, start))[d] == if d >= start then |Filter(es, CreatedOn(d))| else 0
  {
    if es != [] {
      var init, last := es[..|es| - 1], es[|es| - 1];
      RecentDaysCount(init, start, d);
      assert es == init + [last];
      FilterAppend(init, [last], CreatedOn(d));
      assert Filter([last], CreatedOn(d)) == if CreatedOn(d)(last) then [last] else [] by {
        assert [last][1..] == [];
      }
    }
  }

  /** The window starts exactly `days` calendar days before today. */
  lemma WindowStartIsDaysBefore(now: Timestamp, days: int)
    ensures WindowStart(now, days) == DayOf(now) - days
  {
    assert now - days * SecondsPerDay == (now - days * SecondsPerDay);
    var q, r := now / SecondsPerDay, now % SecondsPerDay;
    assert now - days * SecondsPerDay == (q - days) * SecondsPerDay + r;
  }

  /** Counting occurrences date by date, in order: the dictionary the loop
      of `get_activity_by_day` builds from a list of dates. */
  function Histogram(ds: seq<int>): map<int, nat> {
    if ds == [] then map[]
    else
      var h := Histogram(ds[..|ds| - 1]);
      var d := ds[|ds| - 1];
      h[d := (if d in h then h[d] else 0) + 1]
  }

  /** The histogram holds exactly the dates of the list, each with its
      number of occurrences. */
  lemma {:induction false} HistogramCounts(ds: seq<int>)
    ensures forall d :: d in Histogram(ds) <==> d in ds
    ensures forall d :: d in Histogram(ds) ==> Histogram(ds)[d] == multiset(ds)[d]
  {
    if ds != [] {
      var init := ds[..|ds| - 1];
      HistogramCounts(init);
      assert ds == init + [ds[|ds| - 1]];
    }
  }

  /** `get_activity_by_day(days)`: for each date in the window, how many
      entries were written that day; dates without entries are absent. */
  method ActivityByDay(entries: seq<EntryRecord>, now: Timestamp, days: int) returns (activity: map<int, nat>)
    ensures activity == Histogram(RecentDays(entries, WindowStart(now, days)))
  {
    var start := WindowStart(now, days);
    activity := map[];
    for i := 0 to |entries|
      invariant activity == Histogram(RecentDays(entries[..i], start))
    {
      ghost var before := RecentDays(entries[..i], start);
      var day := DayOf(entries[i].createdAt);
      assert RecentDays(entries[..i + 1], start) == before + (if day >= start then [day] else []) by {
        assert entries[..i + 1][..i] == entries[..i];
      }
      if day >= start {
        assert Histogram(before + [day]) == activity[day := (if day in activity then activity[day] else 0) + 1] by {
          assert (before + [day])[..|before|] == before;
        }
        activity := activity[day := (if day in activity then activity[day] else 0) + 1];
      } else {
        assert before + [] == before;
      }
    }
    assert entries[..|entries|] == entries;
  }

  /** Every date is inside the window; a date of the window is present
      exactly when some entry was created that day, and then counts those
      entries; the counts add up to at most the number of entries. */
  lemma ActivityCounts(entries: seq<EntryRecord>, now: Timestamp, days: int)
    ensures var start := WindowStart(now, days);
      var h := Histogram(RecentDays(entries, start));
      && (forall d :: d in h ==> d >= start)
      && (forall d :: d >= start ==> (d in h <==> Filter(entries, CreatedOn(d)) != []))
      && (forall d :: d in h ==> h[d] == |Filter(entries, CreatedOn(d))|)
      && |multiset(RecentDays(entries, start))| <= |entries|
  {
    var start := WindowStart(now, days);
    var ds := RecentDays(entries, start);
    HistogramCounts(ds);
    forall d
      ensures multiset(ds)[d] == if d >= start then |Filter(entries, CreatedOn(d))| else 0
    {
      RecentDaysCount(entries, start, d);
    }
  }

  // ---- Entries by type ----

  const TypeNames: set<string> := {"text", "checklist", "highlight", "problem", "achievement"}

  lemma TypeNamesCount()
    ensures |TypeNames| == 5
  {
    assert TypeNames == {"text"} + {"checklist"} + {"highlight"} + {"problem"} + {"achievement"};
  }

  lemma TypeNameIsKnown(e: Element)
    ensures TypeName(e).Some? ==> TypeName(e).value in TypeNames
  {
  }

  function OfType(e: Element, name: string): nat {
    if TypeName(e) == Some(name) then 1 else 0
  }

  function CountIn(els: seq<Element>, name: string): nat {
    if els == [] then 0 else CountIn(els[..|els| - 1], name) + OfType(els[|els| - 1], name)
  }

  /** The number of elements of the given type over all the entries. */
  function CountOfType(es: seq<EntryRecord>, name: string): nat {
    if es == [] then 0 else CountOfType(es[..|es| - 1], name) + CountIn(es[|es| - 1].elements, name)
  }

  /** `get_entries_by_type()`: exactly the five keys, each counting the
      elements of that type; elements of any other type are ignored. */
  method EntriesByType(entries: seq<EntryRecord>) returns (types: map<string, nat>)
    ensures types.Keys == TypeNames
    ensures forall n :: n in types ==> types[n] == CountOfType(entries, n)
  {
    types := map["text" := 0, "checklist" := 0, "highlight" := 0, "problem" := 0, "achievement" := 0];
    for i := 0 to |entries|
      invariant types.Keys == TypeNames
      invariant forall n :: n in types ==> types[n] == CountOfType(entries[..i], n)
    {
      types := TallyElements(types, entries[i].elements);
      assert entries[..i + 1][..i] == entries[..i];
    }
    assert entries[..|entries|] == entries;
  }

  /** The inner loop of `get_entries_by_type()`: each element whose type is
      one of the keys adds one to that key's count. */
  method TallyElements(counts: map<string, nat>, els: seq<Element>) returns (r: map<string, nat>)
    ensures r.Keys == counts.Keys
    ensures forall n :: n in r ==> r[n] == counts[n] + CountIn(els, n)
  {
    r := counts;
    for j := 0 to |els|
      invariant r.Keys == counts.Keys
      invariant forall n :: n in r ==> r[n] == counts[n] + CountIn(els[..j], n)
    {
      assert els[..j + 1][..j] == els[..j];
      var t := TypeName(els[j]);
      if t.Some? && t.value in r {
        r := r[t.value := r[t.value] + 1];
      }
    }
    assert els[..|els|] == els;
  }

  function ElementsIn(es: seq<EntryRecord>): nat {
    if es == [] then 0 else ElementsIn(es[..|es| - 1]) + |es[|es| - 1].elements|
  }

  function FiveIn(els: seq<Element>): nat {
    CountIn(els, "text") + CountIn(els, "checklist") + CountIn(els, "highlight")
      + CountIn(els, "problem") + CountIn(els, "achievement")
  }

  function FiveOf(es: seq<EntryRecord>): nat {
    CountOfType(es, "text") + CountOfType(es, "checklist") + CountOfType(es, "highlight")
      + CountOfType(es, "problem") + CountOfType(es, "achievement")
  }

  lemma {:induction false} FiveInAtMost(els: seq<Element>)
    ensures FiveIn(els) <= |els|
  {
    if els != [] {
      FiveInAtMost(els[..|els| - 1]);
    }
  }

  /** The five counts add up to at most the number of elements. */
  lemma {:induction false} TypeCountsAtMostElements(es: seq<EntryRecord>)
    ensures FiveOf(es) <= ElementsIn(es)
  {
    if es != [] {
      TypeCountsAtMostElements(es[..|es| - 1]);
      FiveInAtMost(es[|es| - 1].elements);
    }
  }

  // ---- Achievements ----

  /** The six achievements, by their `id`. */
  datatype BadgeId = Entry10 | Entry50 | Task20 | ProblemSolver | Achiever | Organized

  function IdText(b: BadgeId): string {
    match b
    case Entry10 => "entry_10"
    case Entry50 => "entry_50"
    case Task20 => "task_20"
    case ProblemSolver => "problem_solver"
    case Achiever => "achiever"
    case Organized => "organized"
  }

  datatype Badge = Badge(id: BadgeId, name: string, description: string, icon: string, date: string, color: string)

  /** Every achievement, in the order they are checked. */
  const Catalogue: seq<Badge> := [
    Badge(Entry10, "الكاتب النشط", "أضفت 10 مدخلات", "📝", "محقق", "#9d4edd"),
    Badge(Entry50, "الكاتب المحترف", "أضفت 50 مدخلة", "✍️", "محقق", "#c77dff"),
    Badge(Task20, "منجز المهام", "أنجزت 20 مهمة", "✅", "محقق", "#00b8a9"),
    Badge(ProblemSolver, "حلال المشاكل", "سجلت 5 مشاكل مع حلولها", "⚠️", "محقق", "#f85f5f"),
    Badge(Achiever, "صاحب الإنجازات", "سجلت 10 إنجازات", "🏆", "محقق", "#ff9e00"),
    Badge(Organized, "منظم محترف", "أنشأت 3 ملفات مختلفة", "📁", "محقق", "#7b2cbf")
  ]

  /** The figures the achievement thresholds look at. */
  datatype Tally = Tally(entries: nat, completed: nat, problems: nat, logged: nat, files: nat)

  function TallyOf(s: UserSlice): Tally {
    Tally(|s.entries|, CompletedTasks(s.entries), CountOfType(s.entries, "problem"),
      CountOfType(s.entries, "achievement"), |s.files|)
  }

  /** The threshold that unlocks each achievement. */
  predicate Qualifies(t: Tally, b: BadgeId) {
    match b
    case Entry10 => t.entries >= 10
    case Entry50 => t.entries >= 50
    case Task20 => t.completed >= 20
    case ProblemSolver => t.problems >= 5
    case Achiever => t.logged >= 10
    case Organized => t.files >= 3
  }

  function Earned(t: Tally): Badge -> bool {
    (a: Badge) => Qualifies(t, a.id)
  }

  /** The figures `get_achievements()` reads from `get_basic_stats()` and
      `get_entries_by_type()`. */
  method Figures(s: UserSlice) returns (t: Tally)
    ensures t == TallyOf(s)
  {
    var completed := CountCompletedTasks(s.entries);
    var types := EntriesByType(s.entries);
    t := Tally(|s.entries|, completed, types["problem"], types["achievement"], |s.files|);
  }

  /** `get_achievements()`: the catalogue's threshold tests in source order,
      each appending its achievement when the threshold is met. */
  method GetAchievements(s: UserSlice) returns (r: seq<Badge>)
    ensures r == Filter(Catalogue, Earned(TallyOf(s)))
  {
    var t := Figures(s);
    var c := Catalogue;
    r := [];
    for k := 0 to |c|
      invariant r == Filter(c[..k], Earned(t))
    {
      FilterPrefix(c, Earned(t), k);
      if Qualifies(t, c[k].id) {
        r := r + [c[k]];
      }
    }
    assert c[..|c|] == c;
  }

  lemma CatalogueIds()
    ensures |Catalogue| == 6
    ensures Catalogue[0].id == Entry10 && Catalogue[1].id == Entry50 && Catalogue[2].id == Task20
    ensures Catalogue[3].id == ProblemSolver && Catalogue[4].id == Achiever && Catalogue[5].id == Organized
  {
  }

  /** At most six achievements, in catalogue order, each one earned; the
      50-entry one never comes without the 10-entry one. */
  lemma AchievementsShape(t: Tally)
    ensures |Filter(Catalogue, Earned(t))| <= 6
    ensures IsSubsequence(Filter(Catalogue, Earned(t)), Catalogue)
    ensures forall b :: b in Filter(Catalogue, Earned(t)) ==> Qualifies(t, b.id)
    ensures Catalogue[1] in Filter(Catalogue, Earned(t)) ==> Catalogue[0] in Filter(Catalogue, Earned(t))
  {
    FilterIsSubsequence(Catalogue, Earned(t));
    CatalogueIds();
    var f := Filter(Catalogue, Earned(t));
    forall b | b in f
      ensures Qualifies(t, b.id)
    {
      var i :| 0 <= i < |f| && f[i] == b;
      assert Earned(t)(f[i]);
    }
    if Catalogue[1] in f {
      assert Qualifies(t, Entry50);
      assert Earned(t)(Catalogue[0]);
    }
  }

  // ---- Productivity score ----

  function Min(a: nat, b: nat): nat {
    if a < b then a else b
  }

  /** The additive capped score: at most 30 for completed tasks, 20 for
      active days, 20 for files, 15 for element kinds and 15 for problems. */
  function Score(completed: nat, activeDays: nat, files: nat, kinds: nat, problems: nat): (score: nat)
  {
    Min(100, Min(30, completed * 3) + Min(20, activeDays * 5) + Min(20, files * 7)
      + Min(15, kinds * 3) + Min(15, problems * 3))
  }

  /** The caps add up to 100, so the final cap never bites; every term only
      grows with its figure. */
  lemma ScoreBounds(completed: nat, activeDays: nat, files: nat, kinds: nat, problems: nat)
    ensures Score(completed, activeDays, files, kinds, problems) ==
      Min(30, completed * 3) + Min(20, activeDays * 5) + Min(20, files * 7) + Min(15, kinds * 3) + Min(15, problems * 3)
    ensures Score(completed, activeDays, files, kinds, problems) <= 100
    ensures kinds >= 5 ==> Score(completed, activeDays, files, kinds, problems) >= 15
  {
  }

  lemma ScoreMonotoneInKinds(completed: nat, activeDays: nat, files: nat, k1: nat, k2: nat, problems: nat)
    requires k1 <= k2
    ensures Score(completed, activeDays, files, k1, problems) <= Score(completed, activeDays, files, k2, problems)
  {
  }

  /** The number of dates with at least one entry in the last `days` days. */
  function ActiveDays(es: seq<EntryRecord>, now: Timestamp, days: int): nat {
    |set d | d in RecentDays(es, WindowStart(now, days))|
  }

  /** `get_productivity_score()`. The element-kinds term uses the number of
      keys of `get_entries_by_type()`, which is always five. */
  method GetProductivityScore(s: UserSlice, now: Timestamp) returns (score: nat)
    ensures score == Score(CompletedTasks(s.entries), ActiveDays(s.entries, now, 7), |s.files|,
      |TypeNames|, CountOfType(s.entries, "problem"))
    ensures 15 <= score <= 100
  {
    score := 0;
    var completed := CountCompletedTasks(s.entries);
    score := score + Min(30, completed * 3);
    var activity := ActivityByDay(s.entries, now, 7);
    var activeDays := |activity|;
    HistogramCounts(RecentDays(s.entries, WindowStart(now, 7)));
    ghost var days := set d | d in RecentDays(s.entries, WindowStart(now, 7));
    assert forall d :: d in activity.Keys <==> d in days;
    assert activity.Keys == days;
    score := score + Min(20, activeDays * 5);
    score := score + Min(20, |s.files| * 7);
    var types := EntriesByType(s.entries);
    var entryTypes := |types|;
    score := score + Min(15, entryTypes * 3);
    var problems := types["problem"];
    score := score + Min(15, problems * 3);
    TypeNamesCount();
    ScoreBounds(completed, activeDays, |s.files|, entryTypes, problems);
    score := Min(100, score);
  }

  /** A user with no entries and no files still scores 15, from the
      element-kinds term alone. */
  lemma EmptyUserScoresFifteen(user: Option<UserRecord>, now: Timestamp)
    ensures Score(CompletedTasks([]), ActiveDays([], now, 7), 0, |TypeNames|, CountOfType([], "problem")) == 15
  {
    TypeNamesCount();
    assert RecentDays([], WindowStart(now, 7)) == [];
    assert (set d | d in RecentDays([], WindowStart(now, 7))) == {};
  }
}
