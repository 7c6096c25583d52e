/** The fast counter store the signature model writes to (a Redis server
    in the source): plain integer keys (GET, SET, INCR) and scored sets
    (ZINCRBY), with the key names the source builds. */
module Counters {
  import opened Options
  import opened Text
  import Calendar

  /** Key holding the petition's last-activity time, "p-last-<petition id>". */
  function LastKey(petitionId: int): (k: string)
    ensures |k| > 7 && k[..7] == "p-last-" && ParseInt(k[7..]) == petitionId
  {
    var k := "p-last-" + IntToString(petitionId);
    assert k[7..] == IntToString(petitionId);
    IntToStringRoundTrip(petitionId);
    k
  }

  /** The date part of a daily bucket key, "-<year>-<month>-<day>". */
  function DateSuffix(d: Calendar.Date): (k: string)
    ensures |k| > 1 && k[0] == '-'
  {
    "-" + (IntToString(d.year) + ("-" + (IntToString(d.month) + ("-" + IntToString(d.day)))))
  }

  /** Key of the petition's daily signature bucket, "p-d-<petition id>-<year>-<month>-<day>". */
  function DailyKey(petitionId: int, d: Calendar.Date): (k: string)
    ensures |k| > 4 && k[..4] == "p-d-"
  {
    "p-d-" + (IntToString(petitionId) + DateSuffix(d))
  }

  /** Scored set of per-city tallies, "p<id>-city". */
  function CityKey(id: int): (k: string)
    ensures |k| > 6 && k[0] == 'p' && k[|k| - 5..] == "-city" && ParseInt(k[1..|k| - 5]) == id
  {
    var k := "p" + IntToString(id) + "-city";
    assert k[1..|k| - 5] == IntToString(id);
    IntToStringRoundTrip(id);
    k
  }

  /** The global scored set ranking petitions by size. */
  const SizeRanking: string := "petition_size"

  /** Key of the petition's size counter, "p<petition id>-count". */
  function CountKey(petitionId: int): (k: string)
    ensures |k| > 7 && k[0] == 'p' && k[|k| - 6..] == "-count" && ParseInt(k[1..|k| - 6]) == petitionId
  {
    var k := "p" + IntToString(petitionId) + "-count";
    assert k[1..|k| - 6] == IntToString(petitionId);
    IntToStringRoundTrip(petitionId);
    k
  }

  /** Distinct dates have distinct date parts. */
  lemma DateSuffixInjective(d1: Calendar.Date, d2: Calendar.Date)
    requires DateSuffix(d1) == DateSuffix(d2)
    ensures d1 == d2
  {
    var m1, m2 := "-" + IntToString(d1.day), "-" + IntToString(d2.day);
    var y1, y2 := "-" + (IntToString(d1.month) + m1), "-" + (IntToString(d2.month) + m2);
    assert IntToString(d1.year) + y1 == DateSuffix(d1)[1..];
    assert IntToString(d2.year) + y2 == DateSuffix(d2)[1..];
    RenderingPrefix(d1.year, d2.year, y1, y2);
    assert IntToString(d1.month) + m1 == y1[1..];
    assert IntToString(d2.month) + m2 == y2[1..];
    RenderingPrefix(d1.month, d2.month, m1, m2);
    assert IntToString(d1.day) == m1[1..];
    assert IntToString(d2.day) == m2[1..];
    IntToStringInjective(d1.day, d2.day);
  }

  /** Equal daily bucket keys name the same petition and the same date. */
  lemma DailyKeyParts(p1: int, d1: Calendar.Date, p2: int, d2: Calendar.Date)
    requires DailyKey(p1, d1) == DailyKey(p2, d2)
    ensures p1 == p2 && d1 == d2
  {
    var t1, t2 := IntToString(p1) + DateSuffix(d1), IntToString(p2) + DateSuffix(d2);
    assert t1 == DailyKey(p1, d1)[4..];
    assert t2 == DailyKey(p2, d2)[4..];
    RenderingPrefix(p1, p2, DateSuffix(d1), DateSuffix(d2));
    DateSuffixInjective(d1, d2);
  }

  /** Two daily buckets are the same key exactly when they belong to the
      same petition and the same date. */
  lemma DailyKeyInjective(p1: int, d1: Calendar.Date, p2: int, d2: Calendar.Date)
    ensures DailyKey(p1, d1) == DailyKey(p2, d2) <==> p1 == p2 && d1 == d2
  {
    if DailyKey(p1, d1) == DailyKey(p2, d2) {
      DailyKeyParts(p1, d1, p2, d2);
    }
  }

  /** The keys written for one petition never collide with each other. */
  lemma PetitionKeysDistinct(p: int, d: Calendar.Date)
    ensures LastKey(p) != DailyKey(p, d)
    ensures LastKey(p) != CountKey(p)
    ensures DailyKey(p, d) != CountKey(p)
  {
    var s := IntToString(p);
    assert LastKey(p)[2] == 'l';
    assert DailyKey(p, d)[2] == 'd';
    assert LastKey(p)[1] == '-' && DailyKey(p, d)[1] == '-';
    assert CountKey(p)[1] == s[0];
    if s[0] == '-' {
      assert CountKey(p)[2] == s[1];
    }
  }

  /** A city tally set is never the global size ranking. */
  lemma CityKeyIsNotSizeRanking(id: int)
    ensures CityKey(id) != SizeRanking
  {
    assert CityKey(id)[1] == IntToString(id)[0];
    assert SizeRanking[1] == 'e';
  }

  /** The second character of a city tally key is the sign or first
      digit of the id, and a sign is followed by a digit. */
  lemma CityKeyHead(id: int)
    ensures IsDigit(CityKey(id)[1]) || (CityKey(id)[1] == '-' && IsDigit(CityKey(id)[2]))
  {
    var c := CityKey(id);
    assert c[1] == IntToString(id)[0];
    if c[1] == '-' {
      assert c[2] == IntToString(id)[1];
    }
  }

  /** City tally keys and last-activity keys part at their second or third character. */
  lemma CityKeyIsNotLastKey(id: int, p: int)
    ensures CityKey(id) != LastKey(p)
  {
    CityKeyHead(id);
    assert LastKey(p)[1] == '-' && LastKey(p)[2] == 'l';
  }

  /** City tally keys and daily bucket keys part at their second or third character. */
  lemma CityKeyIsNotDailyKey(id: int, p: int, d: Calendar.Date)
    ensures CityKey(id) != DailyKey(p, d)
  {
    CityKeyHead(id);
    assert DailyKey(p, d)[1] == '-' && DailyKey(p, d)[2] == 'd';
  }

  /** City tally keys and size counter keys part at their last character. */
  lemma CityKeyIsNotCountKey(id: int, q: int)
    ensures CityKey(id) != CountKey(q)
  {
    var c, n := CityKey(id), CountKey(q);
    assert c[|c| - 1] == 'y' && n[|n| - 1] == 't';
  }

  /** A city tally set is never a plain key. */
  lemma CityKeyIsNotPlainKey(id: int, p: int, q: int, d: Calendar.Date)
    ensures CityKey(id) != LastKey(p) && CityKey(id) != DailyKey(p, d) && CityKey(id) != CountKey(q)
  {
    CityKeyIsNotLastKey(id, p);
    CityKeyIsNotDailyKey(id, p, d);
    CityKeyIsNotCountKey(id, q);
  }

  /** The size ranking is never a plain key. */
  lemma SizeRankingIsNotPlainKey(p: int, q: int, d: Calendar.Date)
    ensures SizeRanking != LastKey(p) && SizeRanking != DailyKey(p, d) && SizeRanking != CountKey(q)
  {
    assert CountKey(q)[1] == IntToString(q)[0];
    assert SizeRanking[1] == 'e';
  }

  /** Redis has one keyspace: the two scored-set keys never coincide with
      a plain key, whatever the ids and the date, so keeping plain keys and
      scored sets apart loses nothing (no ZINCRBY meets a string key). */
  lemma ScoredSetKeysAreNotPlainKeys(id: int, p: int, q: int, d: Calendar.Date)
    ensures CityKey(id) != LastKey(p) && CityKey(id) != DailyKey(p, d) && CityKey(id) != CountKey(q)
    ensures SizeRanking != LastKey(p) && SizeRanking != DailyKey(p, d) && SizeRanking != CountKey(q)
  {
    CityKeyIsNotPlainKey(id, p, q, d);
    SizeRankingIsNotPlainKey(p, q, d);
  }

  /** Distinct petitions have distinct last-activity keys. */
  lemma LastKeyInjective(p: int, q: int)
    ensures LastKey(p) == LastKey(q) <==> p == q
  {
    if LastKey(p) == LastKey(q) {
      assert IntToString(p) == LastKey(p)[7..];
      assert IntToString(q) == LastKey(q)[7..];
      IntToStringInjective(p, q);
    }
  }

  /** The contents of the counter store. */
  datatype CounterState = CounterState(values: map<string, int>, scores: map<string, map<string, int>>)

  /** GET key followed by to_i: an absent key reads as 0. */
  function ValueOf(c: CounterState, key: string): int
  {
    if key in c.values then c.values[key] else 0
  }

  /** ZSCORE set member, an absent set or member reading as 0. */
  function ScoreOf(c: CounterState, setKey: string, member: string): int
  {
    if setKey in c.scores && member in c.scores[setKey] then c.scores[setKey][member] else 0
  }

  /** The store after SET key v. */
  function AfterSet(c: CounterState, key: string, v: int): (c': CounterState)
    ensures c'.scores == c.scores
    ensures key in c'.values && ValueOf(c', key) == v
    ensures c'.values - {key} == c.values - {key}
  {
    c.(values := c.values[key := v])
  }

  /** The store after INCR key: the key exists afterwards, one above what it read as. */
  function AfterIncr(c: CounterState, key: string): (c': CounterState)
    ensures c'.scores == c.scores
    ensures key in c'.values && ValueOf(c', key) == ValueOf(c, key) + 1
    ensures c'.values - {key} == c.values - {key}
  {
    c.(values := c.values[key := ValueOf(c, key) + 1])
  }

  /** The store after ZINCRBY set delta member. */
  function AfterZIncrBy(c: CounterState, setKey: string, delta: int, member: string): (c': CounterState)
    ensures c'.values == c.values
    ensures ScoreOf(c', setKey, member) == ScoreOf(c, setKey, member) + delta
    ensures forall m :: m != member ==> ScoreOf(c', setKey, m) == ScoreOf(c, setKey, m)
    ensures c'.scores - {setKey} == c.scores - {setKey}
  {
    var old_set := if setKey in c.scores then c.scores[setKey] else map[];
    c.(scores := c.scores[setKey := old_set[member := ScoreOf(c, setKey, member) + delta]])
  }

  /** The counter store as the model's object: every command changes what
      Redis would change and nothing else. */
  class CounterStore {
    var values: map<string, int>
    var scores: map<string, map<string, int>>

    function State(): CounterState
      reads this
    {
      CounterState(values, scores)
    }

    constructor ()
      ensures State() == CounterState(map[], map[])
    {
      values := map[];
      scores := map[];
    }

    /** GET key: None when the key is absent. */
    method Get(key: string) returns (v: Option<int>)
      ensures v.Some? <==> key in values
      ensures v.Some? ==> v.value == values[key]
    {
      v := if key in values then Some(values[key]) else None;
    }

    method Set(key: string, v: int)
      modifies this
      ensures State() == AfterSet(old(State()), key, v)
    {
      values := values[key := v];
    }

    method Incr(key: string) returns (n: int)
      modifies this
      ensures n == ValueOf(old(State()), key) + 1
      ensures State() == AfterIncr(old(State()), key)
    {
      n := if key in values then values[key] + 1 else 1;
      values := values[key := n];
    }

    method ZIncrBy(setKey: string, delta: int, member: string) returns (score: int)
      modifies this
      ensures score == ScoreOf(old(State()), setKey, member) + delta
      ensures State() == AfterZIncrBy(old(State()), setKey, delta, member)
    {
      var members := if setKey in scores then scores[setKey] else map[];
      score := (if member in members then members[member] else 0) + delta;
      scores := scores[setKey := members[member := score]];
    }
  }
}
