/** The analysis the statistics routes build on top of `Stats`
    (api/stats_routes.py): the productivity level with its strengths and
    weaknesses, and the storage quota report. */
module StatsRoutes {
  import opened Text
  import opened Collections
  import opened Records
  import opened StorageManager
  import opened Stats

  // ---- Productivity analysis ----

  datatype Level = Excellent | Good | Average | NeedsImprovement

  function LevelText(l: Level): string {
    match l
    case Excellent => "ممتاز"
    case Good => "جيد"
    case Average => "متوسط"
    case NeedsImprovement => "بحاجة للتحسين"
  }

  /** The level for a score: 80 and up, 60 and up, 40 and up, below 40. */
  function LevelOf(score: int): (l: Level)
    ensures l == Excellent <==> score >= 80
    ensures l == Good <==> 60 <= score < 80
    ensures l == Average <==> 40 <= score < 60
    ensures l == NeedsImprovement <==> score < 40
  {
    if score >= 80 then Excellent else if score >= 60 then Good else if score >= 40 then Average else NeedsImprovement
  }

  /** A strength or weakness the analysis can list. */
  datatype Remark =
    | TaskCompletion | RegularWriting | AchievementVariety
    | LowCompletion | FewEntries | LowVariety

  function RemarkText(r: Remark): string {
    match r
    case TaskCompletion => "إنجاز المهام"
    case RegularWriting => "الكتابة المنتظمة"
    case AchievementVariety => "تنوع الإنجازات"
    case LowCompletion => "نسبة إنجاز المهام منخفضة"
    case FewEntries => "قلة المدخلات"
    case LowVariety => "قلة تنوع المحتوى"
  }

  /** The figures the remarks look at: completed tasks, entries, earned
      achievements, the completion rate in tenths of a percent, and the
      number of keys of the per-type counts. */
  datatype Facts = Facts(completed: nat, entries: nat, achievements: nat, rateTenths: nat, typeKeys: nat)

  /** The condition under which each remark is listed; all are strict. */
  predicate Applies(f: Facts, r: Remark) {
    match r
    case TaskCompletion => f.completed > 20
    case RegularWriting => f.entries > 30
    case AchievementVariety => f.achievements > 3
    case LowCompletion => f.rateTenths < 500
    case FewEntries => f.entries < 10
    case LowVariety => f.typeKeys < 3
  }

  function AppliesTo(f: Facts): Remark -> bool {
    r => Applies(f, r)
  }

  /** The strengths and the weaknesses, in the order they are checked. */
  const Strengths: seq<Remark> := [TaskCompletion, RegularWriting, AchievementVariety]
  const Weaknesses: seq<Remark> := [LowCompletion, FewEntries, LowVariety]

  function FactsOf(s: UserSlice): Facts {
    Facts(CompletedTasks(s.entries), |s.entries|, |Filter(Catalogue, Earned(TallyOf(s)))|,
      RateTenths(CompletedTasks(s.entries), TotalTasks(s.entries)), |TypeNames|)
  }

  datatype Analysis = Analysis(score: nat, level: Level, strengths: seq<Remark>, weaknesses: seq<Remark>)

  /** The figures `get_productivity()` reads: `get_basic_stats()`,
      `get_achievements()` and `get_entries_by_type()`. */
  method GatherFacts(s: UserSlice) returns (f: Facts)
    ensures f == FactsOf(s)
  {
    var completed := CountCompletedTasks(s.entries);
    var rate := GetCompletionRate(s.entries);
    var achievements := GetAchievements(s);
    var types := EntriesByType(s.entries);
    f := Facts(completed, |s.entries|, |achievements|, rate, |types|);
  }

  /** The strengths, appended in order when their condition holds. */
  method ListStrengths(f: Facts) returns (strengths: seq<Remark>)
    ensures strengths == Filter(Strengths, AppliesTo(f))
  {
    strengths := ListRemarks(Strengths, f);
  }

  /** The weaknesses, appended in order when their condition holds. */
  method ListWeaknesses(f: Facts) returns (weaknesses: seq<Remark>)
    ensures weaknesses == Filter(Weaknesses, AppliesTo(f))
  {
    weaknesses := ListRemarks(Weaknesses, f);
  }

  /** The remark tests in order, each appending its remark when it applies. */
  method ListRemarks(rs: seq<Remark>, f: Facts) returns (listed: seq<Remark>)
    ensures listed == Filter(rs, AppliesTo(f))
  {
    listed := [];
    for k := 0 to |rs|
      invariant listed == Filter(rs[..k], AppliesTo(f))
    {
      FilterPrefix(rs, AppliesTo(f), k);
      if Applies(f, rs[k]) {
        listed := listed + [rs[k]];
      }
    }
    assert rs[..|rs|] == rs;
  }

  /** `get_productivity()`: the score and its level, then each strength and
      each weakness whose condition holds, appended in order. */
  method GetProductivity(s: UserSlice, now: Timestamp) returns (a: Analysis)
    ensures a.score == Score(CompletedTasks(s.entries), ActiveDays(s.entries, now, 7), |s.files|,
      |TypeNames|, CountOfType(s.entries, "problem"))
    ensures a.level == LevelOf(a.score)
    ensures a.strengths == Filter(Strengths, AppliesTo(FactsOf(s)))
    ensures a.weaknesses == Filter(Weaknesses, AppliesTo(FactsOf(s)))
  {
    var score := GetProductivityScore(s, now);
    var f := GatherFacts(s);
    var strengths := ListStrengths(f);
    var weaknesses := ListWeaknesses(f);
    a := Analysis(score, LevelOf(score), strengths, weaknesses);
  }

  /** Each strength and weakness is listed exactly when its condition holds. */
  lemma RemarksExactly(f: Facts)
    ensures TaskCompletion in Filter(Strengths, AppliesTo(f)) <==> f.completed > 20
    ensures RegularWriting in Filter(Strengths, AppliesTo(f)) <==> f.entries > 30
    ensures AchievementVariety in Filter(Strengths, AppliesTo(f)) <==> f.achievements > 3
    ensures LowCompletion in Filter(Weaknesses, AppliesTo(f)) <==> f.rateTenths < 500
    ensures FewEntries in Filter(Weaknesses, AppliesTo(f)) <==> f.entries < 10
    ensures LowVariety in Filter(Weaknesses, AppliesTo(f)) <==> f.typeKeys < 3
  {
    RemarkListed(Strengths, f, TaskCompletion);
    RemarkListed(Strengths, f, RegularWriting);
    RemarkListed(Strengths, f, AchievementVariety);
    RemarkListed(Weaknesses, f, LowCompletion);
    RemarkListed(Weaknesses, f, FewEntries);
    RemarkListed(Weaknesses, f, LowVariety);
  }

  /** The content-variety weakness is never listed: the per-type counts
      always have five keys. */
  lemma VarietyWeaknessNeverListed(s: UserSlice)
    ensures FactsOf(s).typeKeys == 5
    ensures LowVariety !in Filter(Weaknesses, AppliesTo(FactsOf(s)))
  {
    var f := FactsOf(s);
    assert f.typeKeys == 5 by {
      TypeNamesCount();
    }
    NoRemarkBelowFive(f);
  }

  lemma NoRemarkBelowFive(f: Facts)
    requires f.typeKeys == 5
    ensures LowVariety !in Filter(Weaknesses, AppliesTo(f))
  {
    RemarkListed(Weaknesses, f, LowVariety);
  }

  /** A remark of the list is in the filtered list exactly when it applies. */
  lemma RemarkListed(rs: seq<Remark>, f: Facts, r: Remark)
    requires r in rs
    ensures r in Filter(rs, AppliesTo(f)) <==> Applies(f, r)
  {
    var out := Filter(rs, AppliesTo(f));
    if r in out {
      var i :| 0 <= i < |out| && out[i] == r;
      assert AppliesTo(f)(out[i]);
    }
    var j :| 0 <= j < |rs| && rs[j] == r;
    assert AppliesTo(f)(rs[j]) ==> rs[j] in out;
  }

  // ---- Storage quota ----

  /** The quota: 100 MB. */
  const LimitBytes: nat := 100 * 1024 * 1024

  datatype StorageReport = StorageReport(
    usedBytes: nat,
    usedFormatted: string,
    limitBytes: nat,
    limitFormatted: string,
    percentTenths: nat,
    remainingBytes: int,
    remainingFormatted: string)

  /** `get_storage_info()` for a user whose usage is `used` bytes. The
      remaining space is the plain difference and goes negative over quota;
      nothing is refused. */
  function StorageInfo(used: nat): (r: StorageReport)
    ensures r.usedBytes == used && r.limitBytes == LimitBytes
    ensures r.remainingBytes + r.usedBytes == LimitBytes
    ensures r.remainingBytes < 0 <==> used > LimitBytes
    ensures r.usedFormatted == FormatSize(used) && r.remainingFormatted == FormatSize(r.remainingBytes)
  {
    StorageReport(used, FormatSize(used), LimitBytes, "100 MB", RateTenths(used, LimitBytes),
      LimitBytes - used, FormatSize(LimitBytes - used))
  }

  /** Within the quota the percentage is at most 100.0 and reaches 100.0 at
      the quota; the remaining text reads "<n> B" once less than a kilobyte
      is left, however far over quota. */
  lemma StorageInfoBounds(used: nat)
    ensures used <= LimitBytes ==> StorageInfo(used).percentTenths <= 1000
    ensures used == LimitBytes ==> StorageInfo(used).percentTenths == 1000
    ensures LimitBytes - used < KiB ==>
      StorageInfo(used).remainingFormatted == IntToString(LimitBytes - used) + " B"
  {
    if used <= LimitBytes {
      RateBounds(used, LimitBytes);
    }
    if LimitBytes - used < KiB {
      FormatSizeSmall(LimitBytes - used);
    }
  }
}
