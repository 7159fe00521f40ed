/** The records the analytics view reads: workout sessions and the sets
    logged in them, and the two store queries that select a user's finished
    work. */
module Records {
  import opened Wrappers

  type UserId = nat

  /** A calendar year and week number: the key the workout frequency counts by. */
  datatype WeekKey = WeekKey(year: int, week: int)

  /** One performed workout. Times are in microseconds; `finishedAt` is missing
      while the session is open; `year` and `week` are those of `startedAt`. */
  datatype Session = Session(user: UserId, startedAt: int, finishedAt: Option<int>, year: int, week: int)

  /** One logged set, with the session it belongs to. `weight` is in
      hundredths of a kilogram, `performedAt` in microseconds. */
  datatype Performance = Performance(exercise: string, reps: int, weight: int, performedAt: int, session: Session)

  predicate IsFinished(s: Session)
  {
    s.finishedAt.Some?
  }

  /** Belongs to a finished session of `user`. */
  predicate CountsFor(p: Performance, user: UserId)
  {
    p.session.user == user && IsFinished(p.session)
  }

  function WeekOf(s: Session): WeekKey
  {
    WeekKey(s.year, s.week)
  }

  /** Chronological order on weeks: by year, then by week number. */
  predicate WeekBefore(a: WeekKey, b: WeekKey)
  {
    a.year < b.year || (a.year == b.year && a.week < b.week)
  }

  /** The sets of `user`'s finished sessions, in stored order. */
  function FinishedSets(ps: seq<Performance>, user: UserId): (r: seq<Performance>)
    ensures forall p :: p in r <==> p in ps && CountsFor(p, user)
    ensures forall p :: multiset(r)[p] == if CountsFor(p, user) then multiset(ps)[p] else 0
  {
    if ps == [] then []
    else
      assert ps == [ps[0]] + ps[1..];
      (if CountsFor(ps[0], user) then [ps[0]] else []) + FinishedSets(ps[1..], user)
  }

  /** The finished sessions of `user`, in stored order. */
  function FinishedSessions(ss: seq<Session>, user: UserId): (r: seq<Session>)
    ensures forall s :: s in r <==> s in ss && s.user == user && IsFinished(s)
    ensures forall s :: multiset(r)[s] == if s.user == user && IsFinished(s) then multiset(ss)[s] else 0
  {
    if ss == [] then []
    else
      assert ss == [ss[0]] + ss[1..];
      (if ss[0].user == user && IsFinished(ss[0]) then [ss[0]] else []) + FinishedSessions(ss[1..], user)
  }

  /** The sessions of `ss` started in week `k`. */
  function SessionsInWeek(ss: seq<Session>, k: WeekKey): (r: seq<Session>)
    ensures forall s :: s in r <==> s in ss && WeekOf(s) == k
    ensures forall s :: multiset(r)[s] == if WeekOf(s) == k then multiset(ss)[s] else 0
  {
    if ss == [] then []
    else
      assert ss == [ss[0]] + ss[1..];
      (if WeekOf(ss[0]) == k then [ss[0]] else []) + SessionsInWeek(ss[1..], k)
  }
}
