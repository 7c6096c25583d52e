/** update_redis_counts (app/models/signature.rb:126-149) as a function from
    the counter store before the call to the store after it, with the
    properties the statistics rely on. */
module CounterProtocol {
  import opened Options
  import opened Text
  import opened Records
  import opened Policy
  import opened Counters
  import Calendar

  /** The NoMethodError raised when nil is asked for petition.id or
      person_city.downcase. */
  datatype Fault = NoPetition | NoCity

  datatype CountOutcome = NoTimestamp | Counted | Raised(fault: Fault)

  /** The store after the call, how the call ended, and whether it asked
      the petition to recompute its activity rate. */
  datatype CountRun = CountRun(state: CounterState, outcome: CountOutcome, rateRecomputed: bool)

  /** t = created_at || updated_at: the time the counters are filed under. */
  function EffectiveTime(row: Row): (t: Option<int>)
    ensures row.createdAt.Some? ==> t == row.createdAt
    ensures row.createdAt.None? ==> t == row.updatedAt
  {
    if row.createdAt.Some? then row.createdAt else row.updatedAt
  }

  /** The last-activity write: set to t only when t is later than what the
      key reads as (an absent key reads as 0). */
  function AfterLastActivity(c: CounterState, petitionId: int, t: int): (r: CounterState)
    ensures ValueOf(r, LastKey(petitionId)) == if t > ValueOf(c, LastKey(petitionId)) then t else ValueOf(c, LastKey(petitionId))
    ensures LastKey(petitionId) in r.values <==> LastKey(petitionId) in c.values || t > ValueOf(c, LastKey(petitionId))
    ensures r.values - {LastKey(petitionId)} == c.values - {LastKey(petitionId)}
    ensures r.scores == c.scores
  {
    if t > ValueOf(c, LastKey(petitionId)) then AfterSet(c, LastKey(petitionId), t) else c
  }

  /** The three ranking writes of a call that is not a batch task. */
  function AfterRankings(c: CounterState, id: int, petitionId: int, city: string): (r: CounterState)
    ensures ValueOf(r, CountKey(petitionId)) == ValueOf(c, CountKey(petitionId)) + 1
    ensures r.values - {CountKey(petitionId)} == c.values - {CountKey(petitionId)}
  {
    var c1 := AfterZIncrBy(c, CityKey(id), 1, Downcase(city));
    var c2 := AfterZIncrBy(c1, SizeRanking, 1, IntToString(petitionId));
    AfterIncr(c2, CountKey(petitionId))
  }

  /** update_redis_counts(task) for a signature row and its petition. */
  function RedisCounts(c: CounterState, row: Row, petition: Option<Petition>, task: bool): (r: CountRun)
    ensures EffectiveTime(row).None? ==> r == CountRun(c, NoTimestamp, false)
    ensures EffectiveTime(row).Some? && petition.None? ==> r == CountRun(c, Raised(NoPetition), false)
    ensures r.outcome == Counted <==> EffectiveTime(row).Some? && petition.Some? && (task || row.personCity.Some?)
    ensures r.rateRecomputed <==> r.outcome == Counted && !task
  {
    match EffectiveTime(row)
    case None => CountRun(c, NoTimestamp, false)
    case Some(t) =>
      if petition.None? then CountRun(c, Raised(NoPetition), false)
      else
        var p := petition.value.id;
        var c2 := AfterIncr(AfterLastActivity(c, p, t), DailyKey(p, Calendar.DateOf(t)));
        if task then CountRun(c2, Counted, false)
        else if row.personCity.None? then CountRun(c2, Raised(NoCity), false)
        else CountRun(AfterRankings(c2, row.id, p, row.personCity.value), Counted, true)
  }

  function Max(a: int, b: int): int
  {
    if a > b then a else b
  }

  /** The two writes every call with a time and a petition makes: the
      last-activity key moves up to t and never down, the day's bucket goes
      up by one, nothing else changes. */
  lemma ActivityWrites(c: CounterState, p: int, t: int)
    ensures var d := DailyKey(p, Calendar.DateOf(t));
      var a := AfterIncr(AfterLastActivity(c, p, t), d);
      && ValueOf(a, LastKey(p)) == Max(ValueOf(c, LastKey(p)), t)
      && (LastKey(p) in a.values <==> LastKey(p) in c.values || t > ValueOf(c, LastKey(p)))
      && ValueOf(a, d) == ValueOf(c, d) + 1
      && ValueOf(a, CountKey(p)) == ValueOf(c, CountKey(p))
      && a.scores == c.scores
      && a.values - {LastKey(p), d} == c.values - {LastKey(p), d}
  {
    var d := DailyKey(p, Calendar.DateOf(t));
    PetitionKeysDistinct(p, Calendar.DateOf(t));
    var b := AfterLastActivity(c, p, t);
    var a := AfterIncr(b, d);
    RemoveAlso(b.values, c.values, LastKey(p), d);
    RemoveAlso(a.values, b.values, d, LastKey(p));
  }

  /** One map agreeing with a second off z, the second agreeing with a
      third off x and y: the first and the third agree off all three. */
  lemma ChainRemoved<K, V>(m: map<K, V>, n: map<K, V>, o: map<K, V>, x: K, y: K, z: K)
    requires m - {z} == n - {z} && n - {x, y} == o - {x, y}
    ensures m - {x, y, z} == o - {x, y, z}
  {
    assert m - {x, y, z} == (m - {z}) - {x, y};
    assert n - {x, y, z} == (n - {z}) - {x, y} == (n - {x, y}) - {z};
    assert o - {x, y, z} == (o - {x, y}) - {z};
  }

  /** Two maps that agree off one key agree off that key and another. */
  lemma RemoveAlso<K, V>(m: map<K, V>, n: map<K, V>, x: K, y: K)
    requires m - {x} == n - {x}
    ensures m - {x, y} == n - {x, y} && m - {y, x} == n - {y, x}
  {
    assert m - {x, y} == (m - {x}) - {y} == m - {y, x};
    assert n - {x, y} == (n - {x}) - {y} == n - {y, x};
  }

  /** The three ranking writes: the city's tally in the signature's city
      set, the petition's score in the size ranking and the petition's size
      counter each go up by one; nothing else changes. */
  lemma RankingWrites(c: CounterState, id: int, p: int, city: string)
    ensures var r := AfterRankings(c, id, p, city);
      && ScoreOf(r, CityKey(id), Downcase(city)) == ScoreOf(c, CityKey(id), Downcase(city)) + 1
      && (forall m :: m != Downcase(city) ==> ScoreOf(r, CityKey(id), m) == ScoreOf(c, CityKey(id), m))
      && ScoreOf(r, SizeRanking, IntToString(p)) == ScoreOf(c, SizeRanking, IntToString(p)) + 1
      && (forall m :: m != IntToString(p) ==> ScoreOf(r, SizeRanking, m) == ScoreOf(c, SizeRanking, m))
      && r.scores - {CityKey(id), SizeRanking} == c.scores - {CityKey(id), SizeRanking}
      && ValueOf(r, CountKey(p)) == ValueOf(c, CountKey(p)) + 1
      && r.values - {CountKey(p)} == c.values - {CountKey(p)}
  {
    CityKeyIsNotSizeRanking(id);
    var c1 := AfterZIncrBy(c, CityKey(id), 1, Downcase(city));
    var c2 := AfterZIncrBy(c1, SizeRanking, 1, IntToString(p));
    assert forall m :: ScoreOf(c1, SizeRanking, m) == ScoreOf(c, SizeRanking, m);
    assert forall m :: ScoreOf(c2, CityKey(id), m) == ScoreOf(c1, CityKey(id), m);
    RemoveAlso(c1.scores, c.scores, CityKey(id), SizeRanking);
    RemoveAlso(c2.scores, c1.scores, SizeRanking, CityKey(id));
  }

  /** The last-activity key ends at the larger of what it read as and t
      (strictly later times win, an absent key reads as 0, so a time at or
      before 0 leaves an absent key absent), whatever the task flag and
      whether or not the city is missing. */
  lemma LastActivityIsMax(c: CounterState, row: Row, p: Petition, task: bool)
    requires EffectiveTime(row).Some?
    ensures var t := EffectiveTime(row).value;
      var r := RedisCounts(c, row, Some(p), task).state;
      && ValueOf(r, LastKey(p.id)) == Max(ValueOf(c, LastKey(p.id)), t)
      && ValueOf(r, LastKey(p.id)) >= ValueOf(c, LastKey(p.id))
      && (LastKey(p.id) in r.values <==> LastKey(p.id) in c.values || t > ValueOf(c, LastKey(p.id)))
  {
    var t := EffectiveTime(row).value;
    ActivityWrites(c, p.id, t);
    if !task && row.personCity.Some? {
      var a := AfterIncr(AfterLastActivity(c, p.id, t), DailyKey(p.id, Calendar.DateOf(t)));
      RankingWrites(a, row.id, p.id, row.personCity.value);
      PetitionKeysDistinct(p.id, Calendar.DateOf(t));
    }
  }

  /** The bucket of the day of t goes up by exactly one on every call with a
      time and a petition, batch task or not, even when the call then fails
      on a missing city. */
  lemma DailyBucketCountsOnce(c: CounterState, row: Row, p: Petition, task: bool)
    requires EffectiveTime(row).Some?
    ensures var d := DailyKey(p.id, Calendar.DateOf(EffectiveTime(row).value));
      ValueOf(RedisCounts(c, row, Some(p), task).state, d) == ValueOf(c, d) + 1
  {
    var t := EffectiveTime(row).value;
    ActivityWrites(c, p.id, t);
    if !task && row.personCity.Some? {
      var a := AfterIncr(AfterLastActivity(c, p.id, t), DailyKey(p.id, Calendar.DateOf(t)));
      RankingWrites(a, row.id, p.id, row.personCity.value);
      PetitionKeysDistinct(p.id, Calendar.DateOf(t));
    }
  }

  /** A batch task (task = true) and a live call that fails on a missing
      city both skip the rankings: no scored set changes, no key but the
      last-activity key and the day's bucket changes, and the activity rate
      is not recomputed. */
  lemma NoRankingWithoutLiveCity(c: CounterState, row: Row, p: Petition, task: bool)
    requires EffectiveTime(row).Some? && (task || row.personCity.None?)
    ensures var d := DailyKey(p.id, Calendar.DateOf(EffectiveTime(row).value));
      var r := RedisCounts(c, row, Some(p), task);
      && r.state.scores == c.scores
      && r.state.values - {LastKey(p.id), d} == c.values - {LastKey(p.id), d}
      && ValueOf(r.state, CountKey(p.id)) == ValueOf(c, CountKey(p.id))
      && !r.rateRecomputed
      && r.outcome == (if task then Counted else Raised(NoCity))
  {
    ActivityWrites(c, p.id, EffectiveTime(row).value);
  }

  /** A live call (task = false) on a signature with a city makes each
      ranking write exactly once and asks for the activity rate once. */
  lemma LiveCallUpdatesRankings(c: CounterState, row: Row, p: Petition)
    requires EffectiveTime(row).Some? && row.personCity.Some?
    ensures var city := Downcase(row.personCity.value);
      var r := RedisCounts(c, row, Some(p), false);
      && r.outcome == Counted && r.rateRecomputed
      && ScoreOf(r.state, CityKey(row.id), city) == ScoreOf(c, CityKey(row.id), city) + 1
      && ScoreOf(r.state, SizeRanking, IntToString(p.id)) == ScoreOf(c, SizeRanking, IntToString(p.id)) + 1
      && ValueOf(r.state, CountKey(p.id)) == ValueOf(c, CountKey(p.id)) + 1
      && (forall m :: m != city ==> ScoreOf(r.state, CityKey(row.id), m) == ScoreOf(c, CityKey(row.id), m))
      && (forall m :: m != IntToString(p.id) ==> ScoreOf(r.state, SizeRanking, m) == ScoreOf(c, SizeRanking, m))
  {
    var t := EffectiveTime(row).value;
    var d := DailyKey(p.id, Calendar.DateOf(t));
    ActivityWrites(c, p.id, t);
    var a := AfterIncr(AfterLastActivity(c, p.id, t), d);
    RankingWrites(a, row.id, p.id, row.personCity.value);
    assert RedisCounts(c, row, Some(p), false) == CountRun(AfterRankings(a, row.id, p.id, row.personCity.value), Counted, true);
  }

  /** ... and leaves every other key and every other scored set as it was. */
  lemma LiveCallTouchesOnlyItsKeys(c: CounterState, row: Row, p: Petition)
    requires EffectiveTime(row).Some? && row.personCity.Some?
    ensures var d := DailyKey(p.id, Calendar.DateOf(EffectiveTime(row).value));
      var r := RedisCounts(c, row, Some(p), false).state;
      && r.scores - {CityKey(row.id), SizeRanking} == c.scores - {CityKey(row.id), SizeRanking}
      && r.values - {LastKey(p.id), d, CountKey(p.id)} == c.values - {LastKey(p.id), d, CountKey(p.id)}
  {
    var t := EffectiveTime(row).value;
    var d := DailyKey(p.id, Calendar.DateOf(t));
    ActivityWrites(c, p.id, t);
    var a := AfterIncr(AfterLastActivity(c, p.id, t), d);
    RankingWrites(a, row.id, p.id, row.personCity.value);
    var r := AfterRankings(a, row.id, p.id, row.personCity.value);
    assert RedisCounts(c, row, Some(p), false).state == r;
    ChainRemoved(r.values, a.values, c.values, LastKey(p.id), d, CountKey(p.id));
  }
}
