# Workout analytics of gym_ebros, in Dafny

This project models `workout_analysis`, the progress page of the gym_ebros
Django app. The view takes the sets (exercise performances) that a user logged
in finished workout sessions. From them it computes, per exercise:

- the weight series;
- the volume series (weight × reps), summed per instant;
- the personal records: maximum weight, maximum single-set volume, maximum
  reps and total volume;
- the average rest between consecutive sets.

It also counts the user's finished sessions per (year, week). When the user
has no set in a finished session, the view produces none of this.

The model is a deterministic computation over sequences of records:

- `Records` holds the session and set records and the two store filters: the
  sets of a user's finished sessions, and the user's finished sessions.
- `Stats` holds the column reductions: sum, maximum, minimum, ascending sort,
  consecutive gaps and an exact mean (`Ratio`).
- `Grouping` holds one generic "group and sum over a strict total order"
  (`GroupSum`). It models both pandas' `groupby(...).sum()` and the store's
  `values(...).annotate(Count).order_by(...)`.
- `Analysis` reads the rows the way the view does. It has one method per loop
  of the view: each builds its dictionary or list over the distinct exercise
  names, in order of first appearance. Beside each method are the functions
  that specify one entry and the lemmas about them. `WorkoutAnalysis`
  composes everything and returns `None` on the early-return path.

Representation:

- Weights are integers in hundredths of a kilogram.
- Timestamps are integers in microseconds, the resolution of Python's
  `datetime` and of Django's `DateTimeField`. Two sets logged within one
  second therefore stay two instants with a non-zero gap between them.
- A set carries its session by value, so the store's join
  `workout_session__user` / `workout_session__finished_at__isnull` is a
  filter on the set itself.
- The average rest is kept as an exact fraction of microseconds.
  `AvgRestMinutes` divides it by 60 000 000 and gives an exact real number of
  minutes.

The volume series groups one exercise's sets by their exact `performed_at`
instant, not by calendar day, because that is what the code does
(`groupby('performed_at')`). The variable is called `daily_volume`, but two
sets at different times of one day make two points.

## Model

| member | source | states |
|---|---|---|
| Records.FinishedSets | workouts/analysis.py:14-17 | a set is kept exactly when it is among the stored sets and its session belongs to the user and is finished; each kept set appears as often as it is stored |
| Records.FinishedSessions | workouts/analysis.py:58-61 | a session is kept exactly when it is stored, belongs to the user and has a finish time; each kept session appears as often as it is stored, so every stored row is counted |
| Records.SessionsInWeek | workouts/analysis.py:64-65 | a session is kept exactly when it is in the list and started in the given week, as often as it occurs there |
| Stats.MaxOf | workouts/analysis.py:86-88 | the maximum of a non-empty column is one of its values and bounds all of them |
| Stats.SumBoundsEach | workouts/analysis.py:89 | a sum of non-negative values is at least each of them |
| Stats.SortAsc | workouts/analysis.py:123 | sorting yields an ascending permutation of the column |
| Stats.PermutationEnds | workouts/analysis.py:123 | any ascending permutation of the times starts at the earliest and ends at the latest |
| Stats.Gaps | workouts/analysis.py:125 | `diff()` without its leading missing value: one gap fewer than there are times (none for fewer than two), gap i being time i+1 minus time i |
| Stats.GapsTelescope | workouts/analysis.py:125 | the gaps add up to last minus first |
| Stats.Mean | workouts/analysis.py:125-126 | the mean exists exactly when there is at least one value (pandas gives NaN for an empty column); `RestIdentity` fixes its value |
| Grouping.GroupSum | workouts/analysis.py:47 | sums the values per key and lists the keys in ascending order; its properties are stated by `GroupSumCorrect` |
| Grouping.GroupSumCorrect | workouts/analysis.py:47 | grouping gives strictly ascending, distinct keys: exactly the keys of the input. Each group holds the sum of the values under its key, and the groups add up to the total of the input |
| Analysis.Unique | workouts/analysis.py:31 | the distinct names hold each name of the column, each once |
| Analysis.UniqueOrder | workouts/analysis.py:31 | the distinct names come in the order in which each first appears in the column |
| Analysis.OfExercise | workouts/analysis.py:32 | the selected rows are exactly the rows of that exercise |
| Analysis.OfExerciseNonEmpty | workouts/analysis.py:31-32 | an exercise has selected rows exactly when one of the rows names it |
| Analysis.CountColumn | workouts/analysis.py:31-32 | counting each row once gives the number of rows |
| Analysis.Volume | workouts/analysis.py:43 | a set's volume is its weight times its reps, and it is non-negative when both are |
| Analysis.WeightSeries | workouts/analysis.py:32-40 | one point per set of the exercise, in row order, pairing its time with its weight |
| Analysis.WeightProgress | workouts/analysis.py:29-40 | the weight dictionary has exactly the exercises of the rows as keys, and each entry is the (time, weight) series of that exercise's sets |
| Analysis.PointsSums | workouts/analysis.py:43-47 | a series' points add up to the column total, and the points at one instant add up to the values of the sets performed then |
| Analysis.VolumeSeries | workouts/analysis.py:47 | groups the (time, volume) points by instant and sums them; its properties are stated by `VolumeSeriesCorrect` |
| Analysis.VolumeSeriesCorrect | workouts/analysis.py:43-47 | the volume series has strictly increasing instants, exactly those of the sets. Each point is the volume summed over the sets at that instant, and the points add up to the exercise's total volume |
| Analysis.VolumeProgress | workouts/analysis.py:42-55 | the volume dictionary has exactly the exercises of the rows as keys, and each entry is that exercise's volume series |
| Analysis.WeeklyFrequency | workouts/analysis.py:57-66 | counts the user's finished sessions per (year, week) in ascending order; its properties are stated by `FrequencyCorrect` |
| Analysis.WeekEntriesCounts | workouts/analysis.py:64-65 | counting one per session gives the number of sessions overall and the number of sessions in each week |
| Analysis.FrequencyCorrect | workouts/analysis.py:57-66 | weeks are strictly increasing in (year, week) order and are exactly the weeks of the user's finished sessions. Each count is the number of those sessions in that week and is positive, and the counts add up to the number of finished sessions |
| Analysis.FrequencyShownWithData | workouts/analysis.py:57-79 | when there are sets to analyse and their sessions are stored, the frequency chart has data |
| Analysis.RecordOf | workouts/analysis.py:85-90 | the record of one exercise's sets: the maxima of weight, volume and reps and the sum of volume; its properties are stated by `RecordCorrect` |
| Analysis.ColumnMax | workouts/analysis.py:86-88 | a column's maximum bounds every set's value and is reached by some set |
| Analysis.RecordCorrect | workouts/analysis.py:81-90 | max weight, max volume (weight × reps) and max reps each bound every set of the exercise and are each reached by one. With no negative weight or reps, the total volume is at least the max volume |
| Analysis.PersonalRecords | workouts/analysis.py:81-90 | the records dictionary has exactly the exercises of the rows as keys, and each entry is the record of that exercise's sets |
| Analysis.ExerciseTotalsPartition | workouts/analysis.py:83-89 | summing a column exercise by exercise over names that cover every row gives the column's total |
| Analysis.RecordsPartitionVolume | workouts/analysis.py:83-89 | the total volumes of the records add up to the volume of all sets, and the exercises' set counts add up to the number of sets |
| Analysis.AverageGap | workouts/analysis.py:123-125 | the mean gap of the sorted times exists exactly when there are at least two times |
| Analysis.RestIdentity | workouts/analysis.py:123-126 | for more than one set, the mean gap between sorted times exists (the not-null guard always passes) and equals (latest − earliest)/(n − 1), which is non-negative |
| Analysis.AvgRestMinutes | workouts/analysis.py:129 | the average rest in minutes, which is non-negative when the rest is |
| Analysis.RepeatedMembers | workouts/analysis.py:122-124 | the exercises kept for rest are exactly those among the names scanned so far with more than one set, each once |
| Analysis.RepeatedOrder | workouts/analysis.py:122-127 | the exercises kept for rest stay in the order of the scanned names |
| Analysis.RestTimes | workouts/analysis.py:120-130 | the list holds one entry per exercise with more than one set, in order of first appearance, each with the mean gap of that exercise's times |
| Analysis.RestTableCorrect | workouts/analysis.py:122-130 | an entry exists for an exercise exactly when it has more than one set; no exercise appears twice; every average rest is non-negative |
| Analysis.RestTableOrder | workouts/analysis.py:121-127 | the rest entries come in the order in which their exercises first appear among the sets |
| Analysis.WorkoutAnalysis | workouts/analysis.py:14-152 | there is no report exactly when the user has no set in a finished session; otherwise the report holds the weight and volume progressions, the weekly frequency, the personal records and the rest table, all over exactly those sets |

## Left out

- Chart construction with Plotly and `to_html` (workouts/analysis.py:33-40, 48-55, 70-77, 109-118, 132-143): presentation through a foreign library. The model returns the data each chart plots; an empty frequency list stands for `workout_frequency = None`.
- `render`, `messages.info`, `login_required` and the request (workouts/analysis.py:1-3, 11-12, 19-21, 145-154): framework I/O. The user is a parameter, the stored sets and sessions are sequences, and the early return is `None`.
- The exercise completion rate (workouts/analysis.py:92-118): its value depends on how the store joins and counts across several relations, which no modelled file defines, and it divides in floating point.
- Conversion of the rest time to float minutes (workouts/analysis.py:129): the model keeps the exact mean in microseconds, and `AvgRestMinutes` gives exact real minutes with no rounding.
- `ExtractWeek` / `ExtractYear` (workouts/analysis.py:62-63): the calendar year and week of a session's start are fields of the session record, taken as given. The model does not relate them to `startedAt`, so it cannot show how the ISO week number and the calendar year disagree around New Year.
- The order of Python dictionaries: the progress and record dictionaries are Dafny maps, which are unordered. The rest table keeps the view's order of first appearance.
- The `ExercisePerformance` and `WorkoutSession` classes themselves are not part of this model. The record fields come from the columns the view reads (workouts/analysis.py:24-27).
- Analysis.RecordCorrect: `total_volume ≥ max_volume` is stated only under the hypothesis that no weight or rep count is negative. The form's `min` widget attributes (workouts/forms.py:50-51) suggest this but do not enforce it on the server.
- Session lifecycle, set numbering, sharing and reordering: no modelled file implements them.
