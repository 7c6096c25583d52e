/** The Signature record as an object (app/models/signature.rb): its
    attributes change step by step as the callbacks run, it is written
    into the signatures table, and after a save it updates the counter
    store. Each method is proved to end in the state the matching function
    of the Lifecycle and CounterProtocol modules describes. */
module Signatures {
  import opened Options
  import opened Text
  import opened Records
  import opened Policy
  import opened Counters
  import opened Callbacks
  import opened Validation
  import opened CounterProtocol
  import opened Lifecycle
  import Calendar

  /** The signatures table. */
  class RecordStore {
    var rows: map<int, Row>

    constructor (initial: map<int, Row>)
      ensures rows == initial
    {
      rows := initial;
    }

    /** The INSERT or UPDATE of a save. */
    method Put(row: Row)
      modifies this
      ensures rows == old(rows)[row.id := row]
    {
      rows := rows[row.id := row];
    }

    /** The DELETE of a destroy. */
    method Delete(id: int)
      modifies this
      ensures rows == old(rows) - {id}
    {
      rows := rows - {id};
    }

    /** A transaction rolled back: the table is as it was at its start. */
    method Restore(snapshot: map<int, Row>)
      modifies this
      ensures rows == snapshot
    {
      rows := snapshot;
    }

    /** find_by_person_email_and_petition_id: some row with that e-mail and
        petition, or nil. */
    method FindByEmailAndPetition(email: Option<string>, petitionId: int) returns (found: Option<Row>)
      ensures found.Some? <==> ExistsByEmailAndPetition(rows, email, petitionId)
      ensures found.Some? ==>
        (found.value in rows.Values && found.value.personEmail == email && found.value.petitionId == petitionId)
    {
      if ExistsByEmailAndPetition(rows, email, petitionId) {
        var k :| k in rows && rows[k].personEmail == email && rows[k].petitionId == petitionId;
        found := Some(rows[k]);
      } else {
        found := None;
      }
    }

    /** The same query with `id != self` added. */
    method FindOtherByEmailAndPetition(email: Option<string>, petitionId: int, self: int) returns (found: Option<Row>)
      ensures found.Some? <==> ExistsOtherByEmailAndPetition(rows, email, petitionId, self)
      ensures found.Some? ==>
        (exists k :: k in rows && k != self && rows[k] == found.value
                     && found.value.personEmail == email && found.value.petitionId == petitionId)
    {
      if ExistsOtherByEmailAndPetition(rows, email, petitionId, self) {
        var k :| k in rows && k != self && rows[k].personEmail == email && rows[k].petitionId == petitionId;
        found := Some(rows[k]);
      } else {
        found := None;
      }
    }
  }

  /** The job queue that deliver_later and update_active_rate! feed. */
  class Outbox {
    var jobs: seq<Event>

    constructor ()
      ensures jobs == []
    {
      jobs := [];
    }

    method Enqueue(e: Event)
      modifies this
      ensures jobs == old(jobs) + [e]
    {
      jobs := jobs + [e];
    }
  }

  class Signature {
    /** The attributes as they are in memory. */
    var attrs: Row
    /** The row as the database last had it; None while the record is new. */
    var original: Option<Row>
    var destroyed: bool
    /** The petition that petition_id names, if there is one. */
    const petition: Option<Petition>

    /** Signature.new(attributes) */
    constructor Build(initial: Row, p: Option<Petition>)
      ensures attrs == initial && original.None? && !destroyed && petition == p
    {
      attrs := initial;
      original := None;
      destroyed := false;
      petition := p;
    }

    /** A signature read from the table. */
    constructor Load(row: Row, p: Option<Petition>)
      ensures attrs == row && original == Some(row) && !destroyed && petition == p
    {
      attrs := row;
      original := Some(row);
      destroyed := false;
      petition := p;
    }

    /** before_validation :strip_whitespace */
    method StripWhitespace()
      modifies this`attrs
      ensures attrs == Stripped(old(attrs))
    {
      if attrs.personStreetNumber.Some? {
        attrs := attrs.(personStreetNumber := Some(Strip(attrs.personStreetNumber.value)));
      }
      if attrs.personName.Some? {
        attrs := attrs.(personName := Some(Strip(attrs.personName.value)));
      }
      if attrs.personEmail.Some? {
        attrs := attrs.(personEmail := Some(Strip(attrs.personEmail.value)));
      }
    }

    /** before_validation :lowercase_person_email */
    method LowercasePersonEmail()
      modifies this`attrs
      ensures attrs == WithLowercaseEmail(old(attrs))
    {
      var email := if attrs.personEmail.Some? then attrs.personEmail.value else "";
      attrs := attrs.(personEmail := Some(Downcase(email)));
    }

    /** before_save :fill_confirmed_at */
    method FillConfirmedAt(now: int)
      modifies this`attrs
      ensures attrs == ConfirmedStamped(old(attrs), now)
    {
      if attrs.confirmedAt.None? && attrs.confirmed {
        attrs := attrs.(confirmedAt := Some(now));
      }
    }

    /** before_create :fill_signed_at */
    method FillSignedAt(now: int)
      modifies this`attrs
      ensures attrs == SignedStamped(old(attrs), now)
    {
      if attrs.signedAt.None? {
        attrs := attrs.(signedAt := Some(now));
      }
    }

    /** has_secure_token's before_create: a token unless one is present. */
    method FillUniqueKey(freshToken: string)
      modifies this`attrs
      ensures attrs == WithToken(old(attrs), freshToken)
    {
      if !IsPresent(attrs.uniqueKey) {
        attrs := attrs.(uniqueKey := Some(freshToken));
      }
    }

    /** update_redis_counts(task) against the counter store, one command at
        a time. */
    method UpdateRedisCounts(task: bool, counters: CounterStore, outbox: Outbox) returns (outcome: CountOutcome)
      modifies counters, outbox
      ensures var run := RedisCounts(old(counters.State()), attrs, petition, task);
        && counters.State() == run.state && outcome == run.outcome
        && outbox.jobs == old(outbox.jobs) + RateJobs(run, petition)
    {
      var t := EffectiveTime(attrs);
      if t.None? {
        return NoTimestamp;
      }
      if petition.None? {
        return Raised(NoPetition);
      }
      var p := petition.value.id;
      ghost var c0 := counters.State();
      var last := counters.Get(LastKey(p));
      var lastValue := if last.Some? then last.value else 0;
      assert lastValue == ValueOf(c0, LastKey(p));
      if t.value > lastValue {
        counters.Set(LastKey(p), t.value);
      }
      assert counters.State() == AfterLastActivity(c0, p, t.value);
      var _ := counters.Incr(DailyKey(p, Calendar.DateOf(t.value)));
      if !task {
        if attrs.personCity.None? {
          return Raised(NoCity);
        }
        ghost var c2 := counters.State();
        var _ := counters.ZIncrBy(CityKey(attrs.id), 1, Downcase(attrs.personCity.value));
        var _ := counters.ZIncrBy(SizeRanking, 1, IntToString(p));
        var _ := counters.Incr(CountKey(p));
        assert counters.State() == AfterRankings(c2, attrs.id, p, attrs.personCity.value);
        outbox.Enqueue(ActiveRateUpdate(p));
      }
      return Counted;
    }

    /** after_save :update_petition, given the row as the database had it
        before the save: the counters are updated when confirmed changed. */
    method UpdatePetition(before: Option<Row>, counters: CounterStore, outbox: Outbox) returns (counted: Option<CountOutcome>)
      modifies counters, outbox
      ensures var run := RedisCounts(old(counters.State()), attrs, petition, false);
        if ConfirmedChanged(before, attrs) then
          && counted == Some(run.outcome) && counters.State() == run.state
          && outbox.jobs == old(outbox.jobs) + RateJobs(run, petition)
        else
          counted.None? && counters.State() == old(counters.State()) && outbox.jobs == old(outbox.jobs)
    {
      if ConfirmedChanged(before, attrs) {
        var outcome := UpdateRedisCounts(false, counters, outbox);
        counted := Some(outcome);
      } else {
        counted := None;
      }
    }

    /** The before_save and before_create callbacks and the timestamps. */
    method Prepare(now: int, freshId: int, freshToken: string)
      modifies this`attrs
      ensures attrs == Prepared(old(attrs), original, now, freshId, freshToken)
    {
      FillConfirmedAt(now);
      if original.None? {
        FillUniqueKey(freshToken);
        FillSignedAt(now);
        attrs := CreateTimestamped(attrs, now).(id := freshId);
      } else {
        attrs := UpdateStamped(attrs, original.value, now);
      }
    }

    /** The write, after_save, and the rollback when after_save raises. */
    method Commit(records: RecordStore, counters: CounterStore, outbox: Outbox) returns (outcome: SaveOutcome)
      modifies this`original, records, counters, outbox
      ensures var r := Lifecycle.Commit(attrs, old(original), petition, old(records.rows), old(counters.State()));
        && original == r.original && records.rows == r.records
        && counters.State() == r.counters && outbox.jobs == old(outbox.jobs) + r.jobs && outcome == r.outcome
    {
      var before := original;
      var snapshot := records.rows;
      records.Put(attrs);
      original := Some(attrs);
      var counted := UpdatePetition(before, counters, outbox);
      if counted.Some? && counted.value.Raised? {
        records.Restore(snapshot);
        original := before;
        return Failed(counted.value.fault);
      }
      return Saved;
    }

    /** The before_validation callbacks in their declared order. */
    method Normalize()
      modifies this`attrs
      ensures attrs == Normalized(old(attrs))
    {
      StripWhitespace();
      LowercasePersonEmail();
    }

    /** The part of save after the validations passed: the stamps, then
        the write and after_save. */
    method PrepareAndCommit(now: int, freshId: int, freshToken: string, records: RecordStore, counters: CounterStore,
                            outbox: Outbox) returns (outcome: SaveOutcome)
      modifies this`attrs, this`original, records, counters, outbox
      ensures var r := Lifecycle.Commit(Prepared(old(attrs), old(original), now, freshId, freshToken), old(original),
                                        petition, old(records.rows), old(counters.State()));
        && attrs == r.attrs && original == r.original && records.rows == r.records
        && counters.State() == r.counters && outbox.jobs == old(outbox.jobs) + r.jobs && outcome == r.outcome
    {
      Prepare(now, freshId, freshToken);
      outcome := Commit(records, counters, outbox);
    }

    /** save: before_validation, the validations, then Prepare and Commit. */
    method Save(now: int, freshId: int, freshToken: string, records: RecordStore, counters: CounterStore,
                outbox: Outbox, emailValid: string -> bool, cutoff: int) returns (outcome: SaveOutcome)
      requires !destroyed
      modifies this, records, counters, outbox
      ensures var r := SaveSpec(old(attrs), old(original), petition, old(records.rows), old(counters.State()),
                                now, freshId, freshToken, emailValid, cutoff);
        && attrs == r.attrs && original == r.original && records.rows == r.records
        && counters.State() == r.counters && outbox.jobs == old(outbox.jobs) + r.jobs
        && outcome == r.outcome && !destroyed
    {
      SaveSpecSteps(attrs, original, petition, records.rows, counters.State(), now, freshId, freshToken, emailValid, cutoff);
      Normalize();
      var violations := Validate(attrs, ContextOf(original), TypeOf(petition), records.rows, emailValid, cutoff);
      if violations != {} {
        return Rejected(violations);
      }
      outcome := PrepareAndCommit(now, freshId, freshToken, records, counters, outbox);
    }

    /** destroy: deletes the row when the record has one. */
    method Destroy(records: RecordStore)
      modifies this`destroyed, records
      ensures records.rows == AfterDestroy(old(records.rows), original) && destroyed
    {
      if original.Some? {
        records.Delete(original.value.id);
      }
      destroyed := true;
    }

    /** send_confirmation_mail: queues the confirmation mail unless a
        reminder was ever sent; always answers true. */
    method SendConfirmationMail(outbox: Outbox) returns (r: bool)
      modifies outbox
      ensures r
      ensures outbox.jobs == old(outbox.jobs) + (if SendsConfirmationMail(attrs) then [ConfirmationMail(attrs.id)] else [])
    {
      if attrs.lastReminderSentAt.None? {
        outbox.Enqueue(ConfirmationMail(attrs.id));
      }
      return true;
    }

    /** The end of send_reminder_mail, given the save's outcome: the mail
        when the save succeeded, destroy when it was refused. */
    method FollowUpReminder(saved: SaveOutcome, ghost run: SaveRun, ghost prefix: seq<Event>,
                            records: RecordStore, outbox: Outbox) returns (outcome: ReminderOutcome)
      requires run.attrs == attrs && run.original == original && run.records == records.rows && run.outcome == saved
      requires outbox.jobs == prefix + run.jobs
      modifies this`destroyed, records, outbox
      ensures var r := AfterReminderSave(run, petition);
        && destroyed == (r.destroyed || old(destroyed)) && records.rows == r.records
        && outbox.jobs == prefix + r.jobs && outcome == r.outcome
    {
      match saved
      case Saved =>
        outbox.Enqueue(ReminderMail(attrs.id));
        return Mailed;
      case Rejected(_) =>
        if petition.None? {
          return RaisedAfterRefusal;
        }
        Destroy(records);
        return DestroyedAsInvalid;
      case Failed(f) =>
        return RaisedInSave(f);
    }

    /** The part of send_reminder_mail after the lookup. */
    method CompleteReminder(duplicate: bool, now: int, freshId: int, freshToken: string, records: RecordStore,
                            counters: CounterStore, outbox: Outbox, emailValid: string -> bool, cutoff: int)
      returns (outcome: ReminderOutcome)
      requires !destroyed
      modifies this, records, counters, outbox
      ensures var r := FinishReminder(duplicate, old(attrs), old(original), petition, old(records.rows),
                                      old(counters.State()), now, freshId, freshToken, emailValid, cutoff);
        && attrs == r.attrs && original == r.original && destroyed == r.destroyed && records.rows == r.records
        && counters.State() == r.counters && outbox.jobs == old(outbox.jobs) + r.jobs && outcome == r.outcome
    {
      if duplicate {
        Destroy(records);
        return DestroyedAsDuplicate;
      }
      outcome := SaveAndFollowUp(now, freshId, freshToken, records, counters, outbox, emailValid, cutoff);
    }

    /** The reminder's save and what follows it, when no duplicate was found. */
    method SaveAndFollowUp(now: int, freshId: int, freshToken: string, records: RecordStore,
                           counters: CounterStore, outbox: Outbox, emailValid: string -> bool, cutoff: int)
      returns (outcome: ReminderOutcome)
      requires !destroyed
      modifies this, records, counters, outbox
      ensures var r := AfterReminderSave(SaveSpec(old(attrs), old(original), petition, old(records.rows),
                                                  old(counters.State()), now, freshId, freshToken, emailValid, cutoff),
                                         petition);
        && attrs == r.attrs && original == r.original && destroyed == r.destroyed && records.rows == r.records
        && counters.State() == r.counters && outbox.jobs == old(outbox.jobs) + r.jobs && outcome == r.outcome
    {
      ghost var run := SaveSpec(attrs, original, petition, records.rows, counters.State(),
                                now, freshId, freshToken, emailValid, cutoff);
      ghost var prefix := outbox.jobs;
      var saved := Save(now, freshId, freshToken, records, counters, outbox, emailValid, cutoff);
      outcome := FollowUpReminder(saved, run, prefix, records, outbox);
    }

    /** send_reminder_mail as written. */
    method SendReminderMail(now: int, freshId: int, freshToken: string, records: RecordStore, counters: CounterStore,
                            outbox: Outbox, emailValid: string -> bool, cutoff: int) returns (outcome: ReminderOutcome)
      requires !destroyed
      modifies this, records, counters, outbox
      ensures var r := ReminderSpec(old(attrs), old(original), petition, old(records.rows), old(counters.State()),
                                    now, freshId, freshToken, emailValid, cutoff);
        && attrs == r.attrs && original == r.original && destroyed == r.destroyed && records.rows == r.records
        && counters.State() == r.counters && outbox.jobs == old(outbox.jobs) + r.jobs && outcome == r.outcome
    {
      attrs := attrs.(lastReminderSentAt := Some(now));
      attrs := attrs.(remindersSent := Some(NextRemindersSent(attrs.remindersSent)));
      var confirmedSig := records.FindByEmailAndPetition(attrs.personEmail, attrs.petitionId);
      outcome := CompleteReminder(confirmedSig.Some?, now, freshId, freshToken, records, counters, outbox, emailValid, cutoff);
    }

    /** send_reminder_mail with the lookup excluding the record itself. */
    method SendReminderMailExcludingSelf(now: int, freshId: int, freshToken: string, records: RecordStore,
                                         counters: CounterStore, outbox: Outbox, emailValid: string -> bool,
                                         cutoff: int) returns (outcome: ReminderOutcome)
      requires !destroyed
      modifies this, records, counters, outbox
      ensures var r := ReminderExcludingSelfSpec(old(attrs), old(original), petition, old(records.rows),
                                                 old(counters.State()), now, freshId, freshToken, emailValid, cutoff);
        && attrs == r.attrs && original == r.original && destroyed == r.destroyed && records.rows == r.records
        && counters.State() == r.counters && outbox.jobs == old(outbox.jobs) + r.jobs && outcome == r.outcome
    {
      attrs := attrs.(lastReminderSentAt := Some(now));
      attrs := attrs.(remindersSent := Some(NextRemindersSent(attrs.remindersSent)));
      var twin := records.FindOtherByEmailAndPetition(attrs.personEmail, attrs.petitionId, attrs.id);
      outcome := CompleteReminder(twin.Some?, now, freshId, freshToken, records, counters, outbox, emailValid, cutoff);
    }
  }
}
