/** The analytics view: from the sets of a user's finished sessions it builds,
    per exercise, the weight series, the volume series summed per instant,
    the personal records and the average rest between sets, and over the
    user's finished sessions the number of workouts per week. */
module Analysis {
  import opened Wrappers
  import opened Stats
  import opened Grouping
  import opened Records

  datatype PersonalRecord = PersonalRecord(maxWeight: int, maxVolume: int, maxReps: int, totalVolume: int)

  /** The data behind the charts: series are (performedAt, value) points and
      the frequency is a list of (week, number of sessions). */
  datatype Report = Report(
    weightProgress: map<string, seq<(int, int)>>,
    volumeProgress: map<string, seq<(int, int)>>,
    frequency: seq<(WeekKey, int)>,
    personalRecords: map<string, PersonalRecord>,
    restTimes: seq<RestEntry>)

  // ---------------------------------------------------------------------
  // Columns of the sets table

  function Weight(p: Performance): int { p.weight }
  function Reps(p: Performance): int { p.reps }
  function PerformedAt(p: Performance): int { p.performedAt }
  /** The volume of a set: its weight times its reps. */
  function Volume(p: Performance): (v: int)
    ensures 0 <= p.weight && 0 <= p.reps ==> 0 <= v
  {
    p.weight * p.reps
  }
  /** Counts each set once. */
  function One(p: Performance): int { 1 }

  function Column(rows: seq<Performance>, f: Performance -> int): seq<int>
  {
    seq(|rows|, i requires 0 <= i < |rows| => f(rows[i]))
  }

  /** The (performedAt, f) points of the sets, in order. */
  function Points(rows: seq<Performance>, f: Performance -> int): seq<(int, int)>
  {
    seq(|rows|, i requires 0 <= i < |rows| => (rows[i].performedAt, f(rows[i])))
  }

  function ExerciseNames(rows: seq<Performance>): seq<string>
  {
    seq(|rows|, i requires 0 <= i < |rows| => rows[i].exercise)
  }

  function ExercisesIn(rows: seq<Performance>): set<string>
  {
    set p | p in rows :: p.exercise
  }

  ghost predicate NoDuplicates(s: seq<string>)
  {
    forall i, j :: 0 <= i < j < |s| ==> s[i] != s[j]
  }

  /** The position of the first occurrence of `x` in `s`, or `|s|` when there is none. */
  function FirstIndex(s: seq<string>, x: string): (k: nat)
    ensures k <= |s|
    ensures k < |s| ==> s[k] == x
    ensures forall j :: 0 <= j < k ==> s[j] != x
  {
    if s == [] then 0
    else if s[0] == x then 0
    else 1 + FirstIndex(s[1..], x)
  }

  /** Each name once, in order of first appearance (`Series.unique()`). */
  function Unique(s: seq<string>): (u: seq<string>)
    ensures NoDuplicates(u)
    ensures forall x :: x in u <==> x in s
  {
    if s == [] then []
    else
      var prefix := Unique(s[..|s| - 1]);
      assert s == s[..|s| - 1] + [s[|s| - 1]];
      if s[|s| - 1] in prefix then prefix else prefix + [s[|s| - 1]]
  }

  /** The distinct names come in the order in which each first appears. */
  lemma {:induction false} UniqueOrder(s: seq<string>)
    ensures forall i, j :: 0 <= i < j < |Unique(s)| ==> FirstIndex(s, Unique(s)[i]) < FirstIndex(s, Unique(s)[j])
  {
    if s != [] {
      var init, last := s[..|s| - 1], s[|s| - 1];
      UniqueOrder(init);
      UniqueStep(init, last, Unique(init));
      assert s == init + [last];
    }
  }

  /** Appending to a sequence keeps the first position of a name it already holds. */
  lemma FirstIndexExtend(s: seq<string>, t: seq<string>, x: string)
    requires x in s
    ensures FirstIndex(s + t, x) == FirstIndex(s, x)
  {
    var j :| 0 <= j < |s| && s[j] == x;
    assert FirstIndex(s, x) <= j;
    assert (s + t)[FirstIndex(s, x)] == x;
  }

  /** Names in first-appearance order of `init` stay in that order once `last`
      is appended, and a `last` new to them comes after all of them. */
  lemma UniqueStep(init: seq<string>, last: string, prefix: seq<string>)
    requires forall x :: x in prefix <==> x in init
    requires forall i, j :: 0 <= i < j < |prefix| ==> FirstIndex(init, prefix[i]) < FirstIndex(init, prefix[j])
    ensures forall i, j :: 0 <= i < j < |prefix| ==>
      FirstIndex(init + [last], prefix[i]) < FirstIndex(init + [last], prefix[j])
    ensures last !in prefix ==>
      forall i :: 0 <= i < |prefix| ==> FirstIndex(init + [last], prefix[i]) < FirstIndex(init + [last], last)
  {
    forall i | 0 <= i < |prefix| ensures FirstIndex(init + [last], prefix[i]) == FirstIndex(init, prefix[i]) {
      FirstIndexExtend(init, [last], prefix[i]);
    }
    if last !in prefix {
      assert FirstIndex(init + [last], last) == |init| by {
        assert (init + [last])[|init|] == last;
      }
      forall i | 0 <= i < |prefix| ensures FirstIndex(init, prefix[i]) < |init| {
        var j :| 0 <= j < |init| && init[j] == prefix[i];
      }
    }
  }

  /** The sets of one exercise, in order (`df[df['exercise__name'] == name]`). */
  function OfExercise(rows: seq<Performance>, name: string): (r: seq<Performance>)
    ensures forall p :: p in r <==> p in rows && p.exercise == name
  {
    if rows == [] then []
    else (if rows[0].exercise == name then [rows[0]] else []) + OfExercise(rows[1..], name)
  }

  /** An exercise has sets exactly when it is named by one of the rows. */
  lemma OfExerciseNonEmpty(rows: seq<Performance>, name: string)
    ensures OfExercise(rows, name) != [] <==> name in ExercisesIn(rows)
    ensures name in ExerciseNames(rows) <==> name in ExercisesIn(rows)
  {
    if name in ExercisesIn(rows) {
      var p :| p in rows && p.exercise == name;
      assert p in OfExercise(rows, name);
    }
    if name in ExerciseNames(rows) {
      var i :| 0 <= i < |rows| && ExerciseNames(rows)[i] == name;
      assert rows[i] in rows;
    }
    if name in ExercisesIn(rows) {
      var p :| p in rows && p.exercise == name;
      var i :| 0 <= i < |rows| && rows[i] == p;
      assert ExerciseNames(rows)[i] == name;
    }
  }

  lemma ColumnTail(rows: seq<Performance>, f: Performance -> int)
    requires rows != []
    ensures Column(rows, f) == [f(rows[0])] + Column(rows[1..], f)
    ensures Points(rows, f) == [(rows[0].performedAt, f(rows[0]))] + Points(rows[1..], f)
  {
  }

  /** Counting each set once sums to the number of sets. */
  lemma {:induction false} CountColumn(rows: seq<Performance>)
    ensures SumOf(Column(rows, One)) == |rows|
  {
    if rows != [] {
      ColumnTail(rows, One);
      CountColumn(rows[1..]);
    }
  }

  // ---------------------------------------------------------------------
  // 1. Weight progression (analysis.py:29-40)

  /** The weight of each set of one exercise against its time, in order. */
  function WeightSeries(data: seq<Performance>): (r: seq<(int, int)>)
    ensures |r| == |data|
    ensures forall i :: 0 <= i < |data| ==> r[i] == (data[i].performedAt, data[i].weight)
  {
    Points(data, Weight)
  }

  method WeightProgress(rows: seq<Performance>) returns (progress: map<string, seq<(int, int)>>)
    ensures progress.Keys == ExercisesIn(rows)
    ensures forall n :: n in progress ==> progress[n] == WeightSeries(OfExercise(rows, n))
  {
    var names := Unique(ExerciseNames(rows));
    progress := map[];
    for i := 0 to |names|
      invariant progress.Keys == set j | 0 <= j < i :: names[j]
      invariant forall n :: n in progress ==> progress[n] == WeightSeries(OfExercise(rows, n))
    {
      progress := progress[names[i] := WeightSeries(OfExercise(rows, names[i]))];
    }
    SameNames(rows, names, progress.Keys);
  }

  /** The keys collected from every unique name are the exercises of the rows. */
  lemma SameNames(rows: seq<Performance>, names: seq<string>, keys: set<string>)
    requires names == Unique(ExerciseNames(rows))
    requires keys == set j | 0 <= j < |names| :: names[j]
    ensures keys == ExercisesIn(rows)
  {
    forall n ensures n in keys <==> n in ExercisesIn(rows) {
      OfExerciseNonEmpty(rows, n);
      if n in names {
        var j :| 0 <= j < |names| && names[j] == n;
      }
    }
  }

  // ---------------------------------------------------------------------
  // 2. Volume progression (analysis.py:42-55)

  /** Timestamps compare by time. */
  predicate Earlier(a: int, b: int) { a < b }

  /** One point per distinct instant of one exercise's sets, holding the
      volume summed over the sets at that instant (`groupby('performed_at')`). */
  function VolumeSeries(data: seq<Performance>): seq<(int, int)>
  {
    GroupSum(Points(data, Volume), Earlier)
  }

  /** The sets of `data` performed at instant `t`. */
  function SetsAt(data: seq<Performance>, t: int): (r: seq<Performance>)
    ensures forall p :: p in r <==> p in data && p.performedAt == t
  {
    if data == [] then []
    else (if data[0].performedAt == t then [data[0]] else []) + SetsAt(data[1..], t)
  }

  lemma {:induction false} PointsSums(data: seq<Performance>, f: Performance -> int, t: int)
    ensures Total(Points(data, f)) == SumOf(Column(data, f))
    ensures SumAt(Points(data, f), t) == SumOf(Column(SetsAt(data, t), f))
  {
    if data != [] {
      ColumnTail(data, f);
      PointsSums(data[1..], f, t);
      var entries := Points(data, f);
      assert entries[0] == (data[0].performedAt, f(data[0])) && entries[1..] == Points(data[1..], f);
      if data[0].performedAt == t {
        assert SetsAt(data, t) == [data[0]] + SetsAt(data[1..], t);
        ColumnTail(SetsAt(data, t), f);
      } else {
        assert SetsAt(data, t) == SetsAt(data[1..], t);
      }
    }
  }

  lemma PointsKeys(data: seq<Performance>, f: Performance -> int)
    ensures KeysOf(Points(data, f)) == set p | p in data :: p.performedAt
  {
    var pts := Points(data, f);
    forall t | t in KeysOf(pts) ensures t in set p | p in data :: p.performedAt {
      var i :| 0 <= i < |pts| && pts[i].0 == t;
      assert data[i] in data;
    }
    forall t | t in (set p | p in data :: p.performedAt) ensures t in KeysOf(pts) {
      var p :| p in data && p.performedAt == t;
      var i :| 0 <= i < |data| && data[i] == p;
      assert pts[i].0 == t;
    }
  }

  /** The volume series has strictly increasing, hence distinct, instants,
      exactly the instants of the sets; each point sums the volumes of the sets
      at its instant, and all points together sum to the exercise's total volume. */
  lemma VolumeSeriesCorrect(data: seq<Performance>)
    ensures forall i, j :: 0 <= i < j < |VolumeSeries(data)| ==> VolumeSeries(data)[i].0 < VolumeSeries(data)[j].0
    ensures KeysOf(VolumeSeries(data)) == set p | p in data :: p.performedAt
    ensures forall i :: 0 <= i < |VolumeSeries(data)| ==>
      VolumeSeries(data)[i].1 == SumOf(Column(SetsAt(data, VolumeSeries(data)[i].0), Volume))
    ensures Total(VolumeSeries(data)) == SumOf(Column(data, Volume))
    ensures data != [] ==> Total(VolumeSeries(data)) == RecordOf(data).totalVolume
  {
    var g := VolumeSeries(data);
    assert StrictTotalOrder(Earlier);
    GroupSumCorrect(Points(data, Volume), Earlier);
    PointsKeys(data, Volume);
    PointsSums(data, Volume, 0);
    forall i | 0 <= i < |g| ensures g[i].1 == SumOf(Column(SetsAt(data, g[i].0), Volume)) {
      PointsSums(data, Volume, g[i].0);
    }
  }

  method VolumeProgress(rows: seq<Performance>) returns (progress: map<string, seq<(int, int)>>)
    ensures progress.Keys == ExercisesIn(rows)
    ensures forall n :: n in progress ==> progress[n] == VolumeSeries(OfExercise(rows, n))
  {
    var names := Unique(ExerciseNames(rows));
    progress := map[];
    for i := 0 to |names|
      invariant progress.Keys == set j | 0 <= j < i :: names[j]
      invariant forall n :: n in progress ==> progress[n] == VolumeSeries(OfExercise(rows, n))
    {
      progress := progress[names[i] := VolumeSeries(OfExercise(rows, names[i]))];
    }
    SameNames(rows, names, progress.Keys);
  }

  // ---------------------------------------------------------------------
  // 3. Workout frequency (analysis.py:57-66)

  /** One entry of count 1 per session, keyed by its week. */
  function WeekEntries(ss: seq<Session>): seq<(WeekKey, int)>
  {
    seq(|ss|, i requires 0 <= i < |ss| => (WeekOf(ss[i]), 1))
  }

  /** The number of `user`'s finished sessions per week, weeks in chronological order. */
  function WeeklyFrequency(sessions: seq<Session>, user: UserId): seq<(WeekKey, int)>
  {
    GroupSum(WeekEntries(FinishedSessions(sessions, user)), WeekBefore)
  }

  lemma {:induction false} WeekEntriesCounts(ss: seq<Session>, k: WeekKey)
    ensures Total(WeekEntries(ss)) == |ss|
    ensures SumAt(WeekEntries(ss), k) == |SessionsInWeek(ss, k)|
  {
    if ss != [] {
      assert WeekEntries(ss)[1..] == WeekEntries(ss[1..]);
      WeekEntriesCounts(ss[1..], k);
    }
  }

  lemma WeekEntriesKeys(ss: seq<Session>)
    ensures KeysOf(WeekEntries(ss)) == set s | s in ss :: WeekOf(s)
  {
    var e := WeekEntries(ss);
    forall k | k in KeysOf(e) ensures k in set s | s in ss :: WeekOf(s) {
      var i :| 0 <= i < |e| && e[i].0 == k;
      assert ss[i] in ss;
    }
    forall k | k in (set s | s in ss :: WeekOf(s)) ensures k in KeysOf(e) {
      var s :| s in ss && WeekOf(s) == k;
      var i :| 0 <= i < |ss| && ss[i] == s;
      assert e[i].0 == k;
    }
  }

  /** The frequency lists weeks in strictly increasing (year, week) order,
      exactly the weeks of the user's finished sessions; each week's count is
      the number of those sessions in it and is positive; and the counts add
      up to the number of finished sessions. */
  lemma FrequencyCorrect(sessions: seq<Session>, user: UserId)
    ensures forall i, j :: 0 <= i < j < |WeeklyFrequency(sessions, user)| ==>
      WeekBefore(WeeklyFrequency(sessions, user)[i].0, WeeklyFrequency(sessions, user)[j].0)
    ensures KeysOf(WeeklyFrequency(sessions, user)) ==
      set s | s in sessions && s.user == user && IsFinished(s) :: WeekOf(s)
    ensures forall i :: 0 <= i < |WeeklyFrequency(sessions, user)| ==>
      WeeklyFrequency(sessions, user)[i].1 ==
        |SessionsInWeek(FinishedSessions(sessions, user), WeeklyFrequency(sessions, user)[i].0)|
      && 1 <= WeeklyFrequency(sessions, user)[i].1
    ensures Total(WeeklyFrequency(sessions, user)) == |FinishedSessions(sessions, user)|
  {
    var done := FinishedSessions(sessions, user);
    var f := WeeklyFrequency(sessions, user);
    assert StrictTotalOrder(WeekBefore);
    GroupSumCorrect(WeekEntries(done), WeekBefore);
    WeekEntriesKeys(done);
    WeekEntriesCounts(done, WeekKey(0, 0));
    forall i | 0 <= i < |f| ensures f[i].1 == |SessionsInWeek(done, f[i].0)| && 1 <= f[i].1 {
      WeekEntriesCounts(done, f[i].0);
      assert f[i].0 in KeysOf(f);
      var s :| s in done && WeekOf(s) == f[i].0;
      assert s in SessionsInWeek(done, f[i].0);
    }
  }

  /** Whenever there are sets to analyse and their sessions are among the
      stored sessions, the frequency chart has at least one week. */
  lemma FrequencyShownWithData(performances: seq<Performance>, sessions: seq<Session>, user: UserId)
    requires forall p :: p in performances ==> p.session in sessions
    requires FinishedSets(performances, user) != []
    ensures WeeklyFrequency(sessions, user) != []
  {
    var p := FinishedSets(performances, user)[0];
    assert p in FinishedSets(performances, user);
    FrequencyCorrect(sessions, user);
    assert WeekOf(p.session) in KeysOf(WeeklyFrequency(sessions, user));
  }

  // ---------------------------------------------------------------------
  // 4. Personal records (analysis.py:81-90)

  function RecordOf(data: seq<Performance>): PersonalRecord
    requires data != []
  {
    PersonalRecord(
      MaxOf(Column(data, Weight)),
      MaxOf(Column(data, Volume)),
      MaxOf(Column(data, Reps)),
      SumOf(Column(data, Volume)))
  }

  /** The maximum of a column bounds the value of every set and is the value of some set. */
  lemma ColumnMax(data: seq<Performance>, f: Performance -> int)
    requires data != []
    ensures forall p :: p in data ==> f(p) <= MaxOf(Column(data, f))
    ensures exists p :: p in data && f(p) == MaxOf(Column(data, f))
  {
    var c := Column(data, f);
    forall p | p in data ensures f(p) <= MaxOf(c) {
      var i :| 0 <= i < |data| && data[i] == p;
      assert c[i] == f(p);
    }
    var i :| 0 <= i < |c| && c[i] == MaxOf(c);
    assert data[i] in data;
  }

  /** Each maximum of a record bounds every set of the exercise and is reached
      by one of them; with no negative weight or reps, the total volume is at
      least the largest single-set volume. */
  lemma RecordCorrect(data: seq<Performance>)
    requires data != []
    ensures forall p :: p in data ==>
      p.weight <= RecordOf(data).maxWeight && Volume(p) <= RecordOf(data).maxVolume
      && p.reps <= RecordOf(data).maxReps
    ensures exists p :: p in data && p.weight == RecordOf(data).maxWeight
    ensures exists p :: p in data && Volume(p) == RecordOf(data).maxVolume
    ensures exists p :: p in data && p.reps == RecordOf(data).maxReps
    ensures (forall p :: p in data ==> 0 <= p.weight && 0 <= p.reps) ==>
      RecordOf(data).maxVolume <= RecordOf(data).totalVolume
  {
    ColumnMax(data, Weight);
    ColumnMax(data, Volume);
    ColumnMax(data, Reps);
    if forall p :: p in data ==> 0 <= p.weight && 0 <= p.reps {
      VolumeBelowTotal(data);
    }
  }

  lemma VolumeBelowTotal(data: seq<Performance>)
    requires data != []
    requires forall p :: p in data ==> 0 <= p.weight && 0 <= p.reps
    ensures MaxOf(Column(data, Volume)) <= SumOf(Column(data, Volume))
  {
    var v := Column(data, Volume);
    forall j | 0 <= j < |v| ensures 0 <= v[j] {
      assert data[j] in data;
      assert v[j] == Volume(data[j]);
    }
    var i :| 0 <= i < |v| && v[i] == MaxOf(v);
    SumBoundsEach(v, i);
  }

  method PersonalRecords(rows: seq<Performance>) returns (prs: map<string, PersonalRecord>)
    ensures prs.Keys == ExercisesIn(rows)
    ensures forall n :: n in prs ==> OfExercise(rows, n) != [] && prs[n] == RecordOf(OfExercise(rows, n))
  {
    var names := Unique(ExerciseNames(rows));
    prs := map[];
    for i := 0 to |names|
      invariant prs.Keys == set j | 0 <= j < i :: names[j]
      invariant RecordsHold(rows, prs)
    {
      NamedHasSets(rows, names, i);
      RecordAdded(rows, prs, names[i]);
      prs := prs[names[i] := RecordOf(OfExercise(rows, names[i]))];
    }
    SameNames(rows, names, prs.Keys);
  }

  /** Every exercise in `prs` has sets in `rows`, and its entry is their record. */
  ghost predicate RecordsHold(rows: seq<Performance>, prs: map<string, PersonalRecord>)
  {
    forall n :: n in prs ==> OfExercise(rows, n) != [] && prs[n] == RecordOf(OfExercise(rows, n))
  }

  /** Every unique exercise name has at least one set. */
  lemma NamedHasSets(rows: seq<Performance>, names: seq<string>, i: int)
    requires names == Unique(ExerciseNames(rows)) && 0 <= i < |names|
    ensures OfExercise(rows, names[i]) != []
  {
    OfExerciseNonEmpty(rows, names[i]);
  }

  lemma RecordAdded(rows: seq<Performance>, prs: map<string, PersonalRecord>, name: string)
    requires RecordsHold(rows, prs) && OfExercise(rows, name) != []
    ensures RecordsHold(rows, prs[name := RecordOf(OfExercise(rows, name))])
  {
  }

  /** The sum over `names` of each exercise's column total. */
  function ExerciseTotals(rows: seq<Performance>, names: seq<string>, f: Performance -> int): int
  {
    if names == [] then 0
    else SumOf(Column(OfExercise(rows, names[0]), f)) + ExerciseTotals(rows, names[1..], f)
  }

  lemma {:induction false} ExerciseTotalsCons(rows: seq<Performance>, names: seq<string>, f: Performance -> int)
    requires rows != [] && NoDuplicates(names)
    ensures ExerciseTotals(rows, names, f) ==
      (if rows[0].exercise in names then f(rows[0]) else 0) + ExerciseTotals(rows[1..], names, f)
  {
    if names != [] {
      assert NoDuplicates(names[1..]);
      ExerciseTotalsCons(rows, names[1..], f);
      if rows[0].exercise == names[0] {
        assert OfExercise(rows, names[0]) == [rows[0]] + OfExercise(rows[1..], names[0]);
        ColumnTail(OfExercise(rows, names[0]), f);
        assert rows[0].exercise !in names[1..];
      } else {
        assert OfExercise(rows, names[0]) == OfExercise(rows[1..], names[0]);
      }
    }
  }

  /** Splitting the sets by exercise loses and duplicates nothing: over any
      list of distinct names covering every set, the per-exercise totals of a
      column add up to the column's overall total. */
  lemma {:induction false} ExerciseTotalsPartition(rows: seq<Performance>, names: seq<string>, f: Performance -> int)
    requires NoDuplicates(names)
    requires forall p :: p in rows ==> p.exercise in names
    ensures ExerciseTotals(rows, names, f) == SumOf(Column(rows, f))
  {
    if rows == [] {
      ZeroTotals(names, f);
    } else {
      ExerciseTotalsCons(rows, names, f);
      assert rows[0] in rows;
      ExerciseTotalsPartition(rows[1..], names, f);
      ColumnTail(rows, f);
    }
  }

  lemma {:induction false} ZeroTotals(names: seq<string>, f: Performance -> int)
    ensures ExerciseTotals([], names, f) == 0
  {
    if names != [] {
      ZeroTotals(names[1..], f);
    }
  }

  /** The personal records' total volumes add up to the volume of all sets,
      and the exercises' set counts add up to the number of sets. */
  lemma RecordsPartitionVolume(rows: seq<Performance>)
    ensures ExerciseTotals(rows, Unique(ExerciseNames(rows)), Volume) == SumOf(Column(rows, Volume))
    ensures ExerciseTotals(rows, Unique(ExerciseNames(rows)), One) == |rows|
  {
    var names := Unique(ExerciseNames(rows));
    forall p | p in rows ensures p.exercise in names {
      OfExerciseNonEmpty(rows, p.exercise);
    }
    ExerciseTotalsPartition(rows, names, Volume);
    ExerciseTotalsPartition(rows, names, One);
    CountColumn(rows);
  }

  // ---------------------------------------------------------------------
  // 6. Rest time (analysis.py:120-130)

  /** The mean gap between consecutive times once sorted (`sort_values().diff().mean()`). */
  function AverageGap(times: seq<int>): (r: Option<Ratio>)
    ensures r.Some? <==> |times| > 1
  {
    assert |SortAsc(times)| == |times| by {
      assert |multiset(SortAsc(times))| == |multiset(times)|;
    }
    Mean(Gaps(SortAsc(times)))
  }

  /** The time from the first to the last of at least two times, per gap. */
  function SpanPerGap(times: seq<int>): Ratio
    requires |times| > 1
  {
    Ratio(MaxOf(times) - MinOf(times), |times| - 1)
  }

  /** The mean of the consecutive gaps telescopes to (last - first) / (n - 1),
      whose numerator is never negative; in particular the mean is never missing. */
  lemma RestIdentity(times: seq<int>)
    requires |times| > 1
    ensures AverageGap(times) == Some(SpanPerGap(times))
    ensures 0 <= SpanPerGap(times).num && 0 < SpanPerGap(times).den
  {
    var sorted := SortAsc(times);
    PermutationEnds(sorted, times);
    GapsTelescope(sorted);
    MeanOfGaps(Gaps(sorted), MaxOf(times) - MinOf(times), |times| - 1);
    MinBelowMax(times);
  }

  lemma MeanOfGaps(gaps: seq<int>, span: int, n: int)
    requires |gaps| == n && 0 < n && SumOf(gaps) == span
    ensures Mean(gaps) == Some(Ratio(span, n))
  {
  }

  /** Average rest between consecutive sets of one exercise: the exact
      quotient in microseconds, which the view shows in minutes. */
  datatype RestEntry = RestEntry(exercise: string, avgRest: Ratio)

  const MicrosPerMinute: int := 60 * 1000 * 1000

  /** The average rest of an entry in minutes (`total_seconds() / 60`). */
  function AvgRestMinutes(e: RestEntry): (m: real)
    requires e.avgRest.den != 0
    ensures 0 <= e.avgRest.num && 0 < e.avgRest.den ==> 0.0 <= m
  {
    RatioValue(e.avgRest) / (MicrosPerMinute as real)
  }

  /** The sets' times of one exercise. */
  function TimesOf(rows: seq<Performance>, n: string): seq<int>
  {
    Column(OfExercise(rows, n), PerformedAt)
  }

  /** The exercises among the first `i` of `names` with more than one set, in order. */
  function Repeated(rows: seq<Performance>, names: seq<string>, i: nat): seq<string>
    requires i <= |names|
  {
    if i == 0 then []
    else Repeated(rows, names, i - 1) + (if |OfExercise(rows, names[i - 1])| > 1 then [names[i - 1]] else [])
  }

  function RestExercises(table: seq<RestEntry>): seq<string>
  {
    seq(|table|, i requires 0 <= i < |table| => table[i].exercise)
  }

  /** `e` is the rest entry of an exercise with more than one set. */
  ghost predicate IsRestEntry(rows: seq<Performance>, e: RestEntry)
  {
    |OfExercise(rows, e.exercise)| > 1 && e.avgRest == SpanPerGap(TimesOf(rows, e.exercise))
  }

  /** `table` lists, in first-appearance order, the exercises with more than
      one set, each with its average rest. */
  ghost predicate IsRestTable(rows: seq<Performance>, table: seq<RestEntry>)
  {
    && RestExercises(table) == Repeated(rows, Unique(ExerciseNames(rows)), |Unique(ExerciseNames(rows))|)
    && forall i :: 0 <= i < |table| ==> IsRestEntry(rows, table[i])
  }

  method RestTimes(rows: seq<Performance>) returns (table: seq<RestEntry>)
    ensures IsRestTable(rows, table)
  {
    var names := Unique(ExerciseNames(rows));
    table := [];
    for i := 0 to |names|
      invariant RestExercises(table) == Repeated(rows, names, i)
      invariant AllRestEntries(rows, table)
    {
      var data := OfExercise(rows, names[i]);
      if |data| > 1 {
        var gap := AverageGap(Column(data, PerformedAt));
        RestIdentity(Column(data, PerformedAt));
        if gap.Some? {
          var entry := RestEntry(names[i], gap.value);
          RestEntrySnoc(rows, table, entry);
          table := table + [entry];
        }
      }
    }
    AllRestEntriesAt(rows, table);
  }

  /** Every entry of `table` is a rest entry (stated entry by entry from the end). */
  ghost predicate AllRestEntries(rows: seq<Performance>, table: seq<RestEntry>)
  {
    table != [] ==> AllRestEntries(rows, table[..|table| - 1]) && IsRestEntry(rows, table[|table| - 1])
  }

  /** Appending an entry appends its exercise, and keeps every entry a rest entry. */
  lemma RestEntrySnoc(rows: seq<Performance>, table: seq<RestEntry>, e: RestEntry)
    ensures RestExercises(table + [e]) == RestExercises(table) + [e.exercise]
    ensures AllRestEntries(rows, table) && IsRestEntry(rows, e) ==> AllRestEntries(rows, table + [e])
  {
    assert (table + [e])[..|table|] == table;
  }

  lemma {:induction false} AllRestEntriesAt(rows: seq<Performance>, table: seq<RestEntry>)
    requires AllRestEntries(rows, table)
    ensures forall k :: 0 <= k < |table| ==> IsRestEntry(rows, table[k])
  {
    if table != [] {
      var prefix := table[..|table| - 1];
      AllRestEntriesAt(rows, prefix);
      forall k | 0 <= k < |prefix| ensures IsRestEntry(rows, table[k]) {
        assert table[k] == prefix[k];
      }
    }
  }

  lemma {:induction false} RepeatedMembers(rows: seq<Performance>, names: seq<string>, i: nat)
    requires i <= |names|
    ensures forall x :: x in Repeated(rows, names, i) <==> x in names[..i] && |OfExercise(rows, x)| > 1
    ensures NoDuplicates(names) ==> NoDuplicates(Repeated(rows, names, i))
  {
    if i > 0 {
      RepeatedMembers(rows, names, i - 1);
      assert names[..i] == names[..i - 1] + [names[i - 1]];
    }
  }

  /** Keeping some of a list of names keeps their order by first position in `s`. */
  lemma {:induction false} RepeatedOrder(rows: seq<Performance>, names: seq<string>, s: seq<string>, i: nat)
    requires i <= |names|
    requires forall a, b :: 0 <= a < b < |names| ==> FirstIndex(s, names[a]) < FirstIndex(s, names[b])
    ensures forall a, b :: 0 <= a < b < |Repeated(rows, names, i)| ==>
      FirstIndex(s, Repeated(rows, names, i)[a]) < FirstIndex(s, Repeated(rows, names, i)[b])
  {
    if i > 0 {
      RepeatedOrder(rows, names, s, i - 1);
      RepeatedBelow(rows, names, s, i - 1, i - 1);
      var r := Repeated(rows, names, i - 1);
      if |OfExercise(rows, names[i - 1])| > 1 {
        assert Repeated(rows, names, i) == r + [names[i - 1]];
      } else {
        assert Repeated(rows, names, i) == r;
      }
    }
  }

  /** The names kept among the first `i` come before any later name `names[k]`. */
  lemma {:induction false} RepeatedBelow(rows: seq<Performance>, names: seq<string>, s: seq<string>, i: nat, k: nat)
    requires i <= k < |names|
    requires forall a, b :: 0 <= a < b < |names| ==> FirstIndex(s, names[a]) < FirstIndex(s, names[b])
    ensures forall a :: 0 <= a < |Repeated(rows, names, i)| ==>
      FirstIndex(s, Repeated(rows, names, i)[a]) < FirstIndex(s, names[k])
  {
    if i > 0 {
      RepeatedBelow(rows, names, s, i - 1, k);
      var r := Repeated(rows, names, i - 1);
      if |OfExercise(rows, names[i - 1])| > 1 {
        assert Repeated(rows, names, i) == r + [names[i - 1]];
      } else {
        assert Repeated(rows, names, i) == r;
      }
    }
  }

  /** The rest entries come in the order in which their exercises first appear among the sets. */
  lemma RestTableOrder(rows: seq<Performance>, table: seq<RestEntry>)
    requires IsRestTable(rows, table)
    ensures forall i, j :: 0 <= i < j < |table| ==>
      FirstIndex(ExerciseNames(rows), table[i].exercise) < FirstIndex(ExerciseNames(rows), table[j].exercise)
  {
    var names := Unique(ExerciseNames(rows));
    UniqueOrder(ExerciseNames(rows));
    RepeatedOrder(rows, names, ExerciseNames(rows), |names|);
    forall i, j | 0 <= i < j < |table|
      ensures FirstIndex(ExerciseNames(rows), table[i].exercise) < FirstIndex(ExerciseNames(rows), table[j].exercise)
    {
      assert table[i].exercise == RestExercises(table)[i] && table[j].exercise == RestExercises(table)[j];
    }
  }

  /** A rest entry exists for exactly the exercises with more than one set,
      once each, and no average is negative. */
  lemma RestTableCorrect(rows: seq<Performance>, table: seq<RestEntry>)
    requires IsRestTable(rows, table)
    ensures forall n :: (exists i :: 0 <= i < |table| && table[i].exercise == n) <==> |OfExercise(rows, n)| > 1
    ensures forall i, j :: 0 <= i < j < |table| ==> table[i].exercise != table[j].exercise
    ensures forall i :: 0 <= i < |table| ==>
      0 < table[i].avgRest.den && 0.0 <= AvgRestMinutes(table[i])
  {
    var names := Unique(ExerciseNames(rows));
    RepeatedMembers(rows, names, |names|);
    assert names[..|names|] == names;
    forall n ensures (exists i :: 0 <= i < |table| && table[i].exercise == n) <==> |OfExercise(rows, n)| > 1 {
      if |OfExercise(rows, n)| > 1 {
        OfExerciseNonEmpty(rows, n);
        assert n in Repeated(rows, names, |names|);
        var i :| 0 <= i < |table| && RestExercises(table)[i] == n;
      }
    }
    forall i, j | 0 <= i < j < |table| ensures table[i].exercise != table[j].exercise {
      assert RestExercises(table)[i] != RestExercises(table)[j];
    }
    forall i | 0 <= i < |table| ensures 0 < table[i].avgRest.den && 0.0 <= AvgRestMinutes(table[i]) {
      RestIdentity(TimesOf(rows, table[i].exercise));
    }
  }

  // ---------------------------------------------------------------------
  // The view (analysis.py:11-154)

  /** `report` holds every chart's data computed from the sets `rows` and the
      sessions of `user`. */
  ghost predicate Describes(rows: seq<Performance>, sessions: seq<Session>, user: UserId, report: Report)
  {
    && report.weightProgress.Keys == ExercisesIn(rows)
    && (forall n :: n in report.weightProgress ==> report.weightProgress[n] == WeightSeries(OfExercise(rows, n)))
    && report.volumeProgress.Keys == ExercisesIn(rows)
    && (forall n :: n in report.volumeProgress ==> report.volumeProgress[n] == VolumeSeries(OfExercise(rows, n)))
    && report.frequency == WeeklyFrequency(sessions, user)
    && report.personalRecords.Keys == ExercisesIn(rows)
    && (forall n :: n in report.personalRecords ==>
          OfExercise(rows, n) != [] && report.personalRecords[n] == RecordOf(OfExercise(rows, n)))
    && IsRestTable(rows, report.restTimes)
  }

  /** No report at all when the user has no set in a finished session;
      otherwise every chart's data, over exactly those sets. */
  method WorkoutAnalysis(user: UserId, performances: seq<Performance>, sessions: seq<Session>)
    returns (report: Option<Report>)
    ensures report.None? <==> FinishedSets(performances, user) == []
    ensures report.Some? ==> Describes(FinishedSets(performances, user), sessions, user, report.value)
  {
    var rows := FinishedSets(performances, user);
    if rows == [] {
      return None;
    }
    var weightProgress := WeightProgress(rows);
    var volumeProgress := VolumeProgress(rows);
    var frequency := WeeklyFrequency(sessions, user);
    var prs := PersonalRecords(rows);
    var restTimes := RestTimes(rows);
    report := Some(Report(weightProgress, volumeProgress, frequency, prs, restTimes));
  }
}
