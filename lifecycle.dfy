/** One save of a signature and one reminder, as functions from the state
    before to the state after: the callback chain of
    app/models/signature.rb:115-124 (normalise, validate, stamp, write,
    update the counters when confirmed changed) and send_reminder_mail
    (app/models/signature.rb:190-219). The class in signature.dfy runs the
    same steps one write at a time and is proved to end where these do. */
module Lifecycle {
  import opened Options
  import opened Records
  import opened Policy
  import opened Counters
  import opened Callbacks
  import opened Validation
  import opened CounterProtocol

  /** A job put on the queue: one of the two mails (deliver_later) or the
      petition's update_active_rate! call. */
  datatype Event = ConfirmationMail(signatureId: int) | ReminderMail(signatureId: int) | ActiveRateUpdate(petitionId: int)

  /** save: true, false with the errors found, or an exception raised from
      after_save (the write is rolled back). */
  datatype SaveOutcome = Saved | Rejected(violations: set<Violation>) | Failed(fault: Fault)

  /** Everything a save leaves behind: the in-memory attributes, the row as
      the database last had it (None while the record is new), the table,
      the counter store and the jobs queued, and how save ended. */
  datatype SaveRun = SaveRun(
    attrs: Row,
    original: Option<Row>,
    records: map<int, Row>,
    counters: CounterState,
    jobs: seq<Event>,
    outcome: SaveOutcome)

  /** The validation context: :create for a new record, :update otherwise. */
  function ContextOf(original: Option<Row>): (ctx: Context)
    ensures ctx == OnCreate <==> original.None?
  {
    if original.None? then OnCreate else OnUpdate
  }

  /** confirmed_changed? inside after_save: the saved value differs from the
      one in the database before the save, in either direction; a new
      record starts from the column default, false. */
  function ConfirmedChanged(original: Option<Row>, saved: Row): (b: bool)
    ensures original.None? ==> (b <==> saved.confirmed)
    ensures original.Some? ==> (b <==> saved.confirmed != original.value.confirmed)
  {
    saved.confirmed != (if original.Some? then original.value.confirmed else false)
  }

  /** has_secure_token :unique_key: a new token unless one is present. */
  function WithToken(row: Row, freshToken: string): (r: Row)
    ensures r.uniqueKey.Some?
    ensures IsPresent(row.uniqueKey) ==> r == row
    ensures !IsPresent(row.uniqueKey) ==> r.uniqueKey == Some(freshToken)
    ensures r == row.(uniqueKey := r.uniqueKey)
  {
    if IsPresent(row.uniqueKey) then row else row.(uniqueKey := Some(freshToken))
  }

  /** fill_signed_at on the attributes. */
  function SignedStamped(row: Row, now: int): Row
  {
    row.(signedAt := StampSignedAt(row.signedAt, now))
  }

  /** fill_confirmed_at on the attributes. */
  function ConfirmedStamped(row: Row, now: int): Row
  {
    row.(confirmedAt := StampConfirmedAt(row.confirmedAt, row.confirmed, now))
  }

  /** The create timestamps: created_at and updated_at become now when unset. */
  function CreateTimestamped(row: Row, now: int): Row
  {
    row.(createdAt := if row.createdAt.None? then Some(now) else row.createdAt,
         updatedAt := if row.updatedAt.None? then Some(now) else row.updatedAt)
  }

  /** The before_create callbacks in their declared order (the token, then
      fill_signed_at), the create timestamps, and the id the insert
      assigns. */
  function CreateStamped(row: Row, now: int, freshId: int, freshToken: string): (r: Row)
    ensures r.id == freshId
    ensures r.uniqueKey == (if IsPresent(row.uniqueKey) then row.uniqueKey else Some(freshToken))
    ensures r.signedAt == (if row.signedAt.None? then Some(now) else row.signedAt)
    ensures r.createdAt == (if row.createdAt.None? then Some(now) else row.createdAt)
    ensures r.updatedAt == (if row.updatedAt.None? then Some(now) else row.updatedAt)
    ensures r == row.(id := freshId, uniqueKey := r.uniqueKey, signedAt := r.signedAt,
                      createdAt := r.createdAt, updatedAt := r.updatedAt)
  {
    CreateTimestamped(SignedStamped(WithToken(row, freshToken), now), now).(id := freshId)
  }

  /** The update timestamp: updated_at becomes now when some attribute is
      to be saved and updated_at itself was not assigned. */
  function UpdateStamped(row: Row, persisted: Row, now: int): (r: Row)
    ensures r == row.(updatedAt := r.updatedAt)
    ensures r.updatedAt == row.updatedAt || r.updatedAt == Some(now)
    ensures row == persisted ==> r == row
    ensures row.updatedAt != persisted.updatedAt ==> r == row
    ensures row != persisted && row.updatedAt == persisted.updatedAt ==> r.updatedAt == Some(now)
  {
    if row != persisted && row.updatedAt == persisted.updatedAt then row.(updatedAt := Some(now)) else row
  }

  /** The row written by a save that passed validation: fill_confirmed_at
      (before_save), then the create or the update stamps. */
  function Prepared(row: Row, original: Option<Row>, now: int, freshId: int, freshToken: string): (s: Row)
    ensures s == row.(confirmedAt := s.confirmedAt, signedAt := s.signedAt, id := s.id, uniqueKey := s.uniqueKey,
                      createdAt := s.createdAt, updatedAt := s.updatedAt)
    ensures s.confirmedAt == StampConfirmedAt(row.confirmedAt, row.confirmed, now)
  {
    var s := ConfirmedStamped(row, now);
    if original.None? then CreateStamped(s, now, freshId, freshToken) else UpdateStamped(s, original.value, now)
  }

  /** What Prepared keeps and what it stamps, field by field. */
  lemma PreparedFields(row: Row, original: Option<Row>, now: int, freshId: int, freshToken: string)
    ensures var s := Prepared(row, original, now, freshId, freshToken);
      && s.personName == row.personName && s.personStreetNumber == row.personStreetNumber
      && s.personEmail == row.personEmail && s.personCity == row.personCity
      && s.confirmed == row.confirmed
      && s.confirmedAt == StampConfirmedAt(row.confirmedAt, row.confirmed, now)
      && (original.None? ==> s.signedAt == StampSignedAt(row.signedAt, now) && s.id == freshId
                             && s.createdAt == (if row.createdAt.None? then Some(now) else row.createdAt)
                             && s.updatedAt == (if row.updatedAt.None? then Some(now) else row.updatedAt)
                             && s.uniqueKey == (if IsPresent(row.uniqueKey) then row.uniqueKey else Some(freshToken)))
      && (original.Some? ==> s.signedAt == row.signedAt && s.id == row.id && s.createdAt == row.createdAt
                             && var c := row.(confirmedAt := StampConfirmedAt(row.confirmedAt, row.confirmed, now));
                                s.updatedAt == (if c != original.value && row.updatedAt == original.value.updatedAt
                                                then Some(now) else row.updatedAt))
      && s == row.(confirmedAt := s.confirmedAt, signedAt := s.signedAt, id := s.id, uniqueKey := s.uniqueKey,
                   createdAt := s.createdAt, updatedAt := s.updatedAt)
  {
  }

  /** The job update_redis_counts queues. */
  function RateJobs(run: CountRun, petition: Option<Petition>): seq<Event>
  {
    if run.rateRecomputed && petition.Some? then [ActiveRateUpdate(petition.value.id)] else []
  }

  /** The write of a save that passed validation and the after_save that
      follows it, for the prepared row s: the row is put into the table and,
      when confirmed changed, the counters are updated; an exception there
      rolls the write back but not the counter commands already sent. */
  function Commit(s: Row, original: Option<Row>, petition: Option<Petition>, records: map<int, Row>,
                  counters: CounterState): (r: SaveRun)
    ensures r.attrs == s && !r.outcome.Rejected?
    ensures r.outcome.Saved? ==> r.original == Some(s) && r.records == records[s.id := s]
    ensures r.outcome.Failed? ==> r.original == original && r.records == records && r.jobs == []
    ensures !ConfirmedChanged(original, s) ==> r.outcome.Saved? && r.counters == counters && r.jobs == []
  {
    if !ConfirmedChanged(original, s) then SaveRun(s, Some(s), records[s.id := s], counters, [], Saved)
    else
      var run := RedisCounts(counters, s, petition, false);
      if run.outcome.Raised? then SaveRun(s, original, records, run.state, [], Failed(run.outcome.fault))
      else SaveRun(s, Some(s), records[s.id := s], run.state, RateJobs(run, petition), Saved)
  }

  /** save on a signature whose attributes are attrs. */
  function SaveSpec(attrs: Row, original: Option<Row>, petition: Option<Petition>, records: map<int, Row>,
                    counters: CounterState, now: int, freshId: int, freshToken: string,
                    emailValid: string -> bool, cutoff: int): (r: SaveRun)
    ensures r.outcome.Rejected? <==> Validate(Normalized(attrs), ContextOf(original), TypeOf(petition), records, emailValid, cutoff) != {}
    ensures r.outcome.Rejected? ==>
      r == SaveRun(Normalized(attrs), original, records, counters, [],
                   Rejected(Validate(Normalized(attrs), ContextOf(original), TypeOf(petition), records, emailValid, cutoff)))
    ensures r.outcome.Saved? ==> r.original == Some(r.attrs) && r.records == records[r.attrs.id := r.attrs]
    ensures r.outcome.Failed? ==> r.original == original && r.records == records && r.jobs == []
  {
    var n := Normalized(attrs);
    var v := Validate(n, ContextOf(original), TypeOf(petition), records, emailValid, cutoff);
    if v != {} then SaveRun(n, original, records, counters, [], Rejected(v))
    else Commit(Prepared(n, original, now, freshId, freshToken), original, petition, records, counters)
  }

  /** SaveSpec as its two steps: the refusal on the normalised attributes,
      or the commit of their prepared form. */
  lemma SaveSpecSteps(attrs: Row, original: Option<Row>, petition: Option<Petition>, records: map<int, Row>,
                      counters: CounterState, now: int, freshId: int, freshToken: string,
                      emailValid: string -> bool, cutoff: int)
    ensures var n := Normalized(attrs);
      var v := Validate(n, ContextOf(original), TypeOf(petition), records, emailValid, cutoff);
      SaveSpec(attrs, original, petition, records, counters, now, freshId, freshToken, emailValid, cutoff)
        == if v != {} then SaveRun(n, original, records, counters, [], Rejected(v))
           else Commit(Prepared(n, original, now, freshId, freshToken), original, petition, records, counters)
  {
  }

  /** A save that passes validation writes the prepared attributes. */
  lemma SaveWrites(attrs: Row, original: Option<Row>, petition: Option<Petition>, records: map<int, Row>,
                   counters: CounterState, now: int, freshId: int, freshToken: string,
                   emailValid: string -> bool, cutoff: int)
    ensures var r := SaveSpec(attrs, original, petition, records, counters, now, freshId, freshToken, emailValid, cutoff);
      !r.outcome.Rejected? ==> r.attrs == Prepared(Normalized(attrs), original, now, freshId, freshToken)
  {
  }

  /** The counter store is touched by a save exactly when the save passed
      validation and confirmed changed; it is then what one live
      update_redis_counts makes of it, whether or not that call raised. */
  lemma CountersIffConfirmedChanged(attrs: Row, original: Option<Row>, petition: Option<Petition>, records: map<int, Row>,
                                    counters: CounterState, now: int, freshId: int, freshToken: string,
                                    emailValid: string -> bool, cutoff: int)
    ensures var r := SaveSpec(attrs, original, petition, records, counters, now, freshId, freshToken, emailValid, cutoff);
      var run := RedisCounts(counters, r.attrs, petition, false);
      && (r.outcome.Rejected? || !ConfirmedChanged(original, r.attrs) ==> r.counters == counters && r.jobs == [])
      && (!r.outcome.Rejected? && ConfirmedChanged(original, r.attrs) ==> r.counters == run.state)
      && (r.outcome.Failed? <==> !r.outcome.Rejected? && ConfirmedChanged(original, r.attrs) && run.outcome.Raised?)
      && (r.jobs != [] <==> !r.outcome.Rejected? && ConfirmedChanged(original, r.attrs) && run.rateRecomputed)
  {
  }

  /** fill_confirmed_at and fill_signed_at never overwrite a time: a save
      that passes validation stamps confirmed_at only when it was unset and
      the signature is confirmed, and signed_at only on create and only when
      unset. A new record also gets its id, a token and created_at. */
  lemma SaveStamps(attrs: Row, original: Option<Row>, petition: Option<Petition>, records: map<int, Row>,
                   counters: CounterState, now: int, freshId: int, freshToken: string,
                   emailValid: string -> bool, cutoff: int)
    ensures var r := SaveSpec(attrs, original, petition, records, counters, now, freshId, freshToken, emailValid, cutoff);
      !r.outcome.Rejected? ==>
        && (attrs.confirmedAt.Some? ==> r.attrs.confirmedAt == attrs.confirmedAt)
        && (attrs.confirmedAt.None? ==> r.attrs.confirmedAt == (if attrs.confirmed then Some(now) else None))
        && r.attrs.confirmed == attrs.confirmed
        && (original.None? ==> r.attrs.signedAt == (if attrs.signedAt.Some? then attrs.signedAt else Some(now)))
        && (original.Some? ==> r.attrs.signedAt == attrs.signedAt)
        && (original.None? ==> r.attrs.id == freshId && r.attrs.createdAt.Some?)
        && (original.None? ==> r.attrs.uniqueKey == (if IsPresent(attrs.uniqueKey) then attrs.uniqueKey else Some(freshToken)))
        && (original.Some? ==> r.attrs.id == attrs.id && r.attrs.createdAt == attrs.createdAt)
  {
    SaveWrites(attrs, original, petition, records, counters, now, freshId, freshToken, emailValid, cutoff);
    PreparedFields(Normalized(attrs), original, now, freshId, freshToken);
  }

  /** Normalisation reads and writes only name, street number and e-mail. */
  lemma NormalizedOnlyTouchesThree(a: Row, b: Row)
    requires a.personName == b.personName && a.personStreetNumber == b.personStreetNumber && a.personEmail == b.personEmail
    ensures Normalized(b) == b.(personName := Normalized(a).personName,
                                personStreetNumber := Normalized(a).personStreetNumber,
                                personEmail := Normalized(a).personEmail)
  {
  }

  /** The attributes a save writes are normalised: saving them again
      normalises nothing further. */
  lemma {:induction false} PreparedIsNormalized(n: Row, original: Option<Row>, now: int, freshId: int, freshToken: string)
    requires Normalized(n) == n
    ensures Normalized(Prepared(n, original, now, freshId, freshToken)) == Prepared(n, original, now, freshId, freshToken)
  {
    var s := Prepared(n, original, now, freshId, freshToken);
    PreparedFields(n, original, now, freshId, freshToken);
    NormalizedOnlyTouchesThree(n, s);
  }

  /** Saving a signature again right after a save that succeeded, without
      assigning anything, does not count it again: the counters stay as the
      first save left them, and no job is queued. */
  lemma {:induction false} SecondSaveCountsNothing(attrs: Row, original: Option<Row>, petition: Option<Petition>,
                                                   records: map<int, Row>, counters: CounterState, now: int, now2: int,
                                                   freshId: int, freshToken: string, emailValid: string -> bool,
                                                   cutoff: int)
    ensures var r1 := SaveSpec(attrs, original, petition, records, counters, now, freshId, freshToken, emailValid, cutoff);
      var r2 := SaveSpec(r1.attrs, r1.original, petition, r1.records, r1.counters, now2, freshId, freshToken, emailValid, cutoff);
      r1.outcome.Saved? ==> r2.counters == r1.counters && r2.jobs == [] && !r2.outcome.Failed?
  {
    var r1 := SaveSpec(attrs, original, petition, records, counters, now, freshId, freshToken, emailValid, cutoff);
    if r1.outcome.Saved? {
      SaveWrites(attrs, original, petition, records, counters, now, freshId, freshToken, emailValid, cutoff);
      NormalizedIdempotent(attrs);
      PreparedIsNormalized(Normalized(attrs), original, now, freshId, freshToken);
      var s := r1.attrs;
      PreparedFields(s, Some(s), now2, freshId, freshToken);
      SaveWrites(s, Some(s), petition, r1.records, r1.counters, now2, freshId, freshToken, emailValid, cutoff);
      CountersIffConfirmedChanged(s, Some(s), petition, r1.records, r1.counters, now2, freshId, freshToken, emailValid, cutoff);
    }
  }

  /** The trigger fires in both directions: an update that un-confirms a
      confirmed signature with a city runs the live counter protocol too,
      so its petition's size counter goes up by one. */
  lemma {:induction false} UnconfirmingCountsAgain(attrs: Row, persisted: Row, petition: Petition, records: map<int, Row>,
                                                   counters: CounterState, now: int, freshId: int, freshToken: string,
                                                   emailValid: string -> bool, cutoff: int)
    requires persisted.confirmed && !attrs.confirmed && attrs.personCity.Some?
    requires EffectiveTime(attrs).Some?
    requires Validate(Normalized(attrs), OnUpdate, TypeOf(Some(petition)), records, emailValid, cutoff) == {}
    ensures var r := SaveSpec(attrs, Some(persisted), Some(petition), records, counters, now, freshId, freshToken, emailValid, cutoff);
      && r.outcome == Saved
      && ValueOf(r.counters, CountKey(petition.id)) == ValueOf(counters, CountKey(petition.id)) + 1
      && r.jobs == [ActiveRateUpdate(petition.id)]
  {
    var n := Normalized(attrs);
    SaveWrites(attrs, Some(persisted), Some(petition), records, counters, now, freshId, freshToken, emailValid, cutoff);
    var s := Prepared(n, Some(persisted), now, freshId, freshToken);
    PreparedFields(n, Some(persisted), now, freshId, freshToken);
    assert n.personCity == attrs.personCity && n.createdAt == attrs.createdAt && n.updatedAt == attrs.updatedAt;
    assert EffectiveTime(s).Some?;
    LiveCallUpdatesRankings(counters, s, petition);
  }

  /** How a reminder ended. RaisedAfterRefusal is the NoMethodError of
      logging the name of a missing petition after a refused save. */
  datatype ReminderOutcome = DestroyedAsDuplicate | Mailed | DestroyedAsInvalid | RaisedInSave(fault: Fault)
                           | RaisedAfterRefusal

  /** What send_reminder_mail leaves behind; destroyed tells whether the
      signature was destroyed. */
  datatype ReminderRun = ReminderRun(
    attrs: Row,
    original: Option<Row>,
    destroyed: bool,
    records: map<int, Row>,
    counters: CounterState,
    jobs: seq<Event>,
    outcome: ReminderOutcome)

  /** The two attribute writes that open send_reminder_mail. */
  function Reminded(row: Row, now: int): (r: Row)
    ensures r.lastReminderSentAt == Some(now)
    ensures row.remindersSent.None? ==> r.remindersSent == Some(1)
    ensures row.remindersSent.Some? ==> r.remindersSent == Some(row.remindersSent.value + 1)
    ensures r == row.(lastReminderSentAt := r.lastReminderSentAt, remindersSent := r.remindersSent)
  {
    row.(lastReminderSentAt := Some(now), remindersSent := Some(NextRemindersSent(row.remindersSent)))
  }

  /** destroy: removes the record's row when it has one in the database. */
  function AfterDestroy(records: map<int, Row>, original: Option<Row>): (r: map<int, Row>)
    ensures original.None? ==> r == records
    ensures original.Some? ==> r == records - {original.value.id}
  {
    if original.Some? then records - {original.value.id} else records
  }

  /** What send_reminder_mail does once its save has run: mail when it
      succeeded; when it was refused, log the petition's name and destroy,
      which raises before the destroy when there is no petition; nothing
      more when the save raised. */
  function AfterReminderSave(s: SaveRun, petition: Option<Petition>): (r: ReminderRun)
    ensures r.counters == s.counters && r.attrs == s.attrs && r.original == s.original
    ensures r.outcome == Mailed <==> s.outcome.Saved?
    ensures r.outcome == DestroyedAsInvalid <==> s.outcome.Rejected? && petition.Some?
    ensures r.outcome == RaisedAfterRefusal <==> s.outcome.Rejected? && petition.None?
    ensures r.outcome == Mailed ==> !r.destroyed && r.records == s.records && r.jobs == s.jobs + [ReminderMail(s.attrs.id)]
    ensures r.outcome == DestroyedAsInvalid ==> r.destroyed && r.records == AfterDestroy(s.records, s.original) && r.jobs == s.jobs
    ensures r.outcome == RaisedAfterRefusal ==> !r.destroyed && r.records == s.records && r.jobs == s.jobs
    ensures s.outcome.Failed? ==> r.outcome == RaisedInSave(s.outcome.fault) && !r.destroyed && r.records == s.records && r.jobs == s.jobs
  {
    match s.outcome
    case Saved => ReminderRun(s.attrs, s.original, false, s.records, s.counters, s.jobs + [ReminderMail(s.attrs.id)], Mailed)
    case Rejected(_) =>
      if petition.None? then ReminderRun(s.attrs, s.original, false, s.records, s.counters, s.jobs, RaisedAfterRefusal)
      else ReminderRun(s.attrs, s.original, true, AfterDestroy(s.records, s.original), s.counters, s.jobs, DestroyedAsInvalid)
    case Failed(f) => ReminderRun(s.attrs, s.original, false, s.records, s.counters, s.jobs, RaisedInSave(f))
  }

  /** The rest of send_reminder_mail once the duplicate lookup has answered
      `duplicate`, for a signature whose attributes (already stamped) are
      attrs: destroyed at once on a duplicate, otherwise saved. */
  function FinishReminder(duplicate: bool, attrs: Row, original: Option<Row>, petition: Option<Petition>,
                          records: map<int, Row>, counters: CounterState, now: int, freshId: int,
                          freshToken: string, emailValid: string -> bool, cutoff: int): (r: ReminderRun)
    ensures duplicate ==> r == ReminderRun(attrs, original, true, AfterDestroy(records, original), counters, [], DestroyedAsDuplicate)
    ensures r.outcome == Mailed ==> r.jobs != [] && r.jobs[|r.jobs| - 1] == ReminderMail(r.attrs.id) && !r.destroyed
    ensures r.outcome == DestroyedAsInvalid ==> petition.Some? && r.destroyed
    ensures r.outcome == RaisedAfterRefusal ==> petition.None? && !r.destroyed && r.records == records
  {
    if duplicate then ReminderRun(attrs, original, true, AfterDestroy(records, original), counters, [], DestroyedAsDuplicate)
    else AfterReminderSave(SaveSpec(attrs, original, petition, records, counters, now, freshId, freshToken, emailValid, cutoff), petition)
  }

  /** send_reminder_mail as written: the lookup is by the in-memory e-mail
      and petition id over the whole table, the record itself included. */
  function ReminderSpec(attrs: Row, original: Option<Row>, petition: Option<Petition>, records: map<int, Row>,
                        counters: CounterState, now: int, freshId: int, freshToken: string,
                        emailValid: string -> bool, cutoff: int): (r: ReminderRun)
    ensures r.outcome == DestroyedAsDuplicate <==> ExistsByEmailAndPetition(records, attrs.personEmail, attrs.petitionId)
    ensures r.outcome == Mailed ==> !ExistsByEmailAndPetition(records, attrs.personEmail, attrs.petitionId)
  {
    var a := Reminded(attrs, now);
    FinishReminder(ExistsByEmailAndPetition(records, a.personEmail, a.petitionId), a, original, petition,
                   records, counters, now, freshId, freshToken, emailValid, cutoff)
  }

  /** send_reminder_mail with the lookup the code evidently means: another
      signature with the same e-mail for the same petition. */
  function ReminderExcludingSelfSpec(attrs: Row, original: Option<Row>, petition: Option<Petition>, records: map<int, Row>,
                                     counters: CounterState, now: int, freshId: int, freshToken: string,
                                     emailValid: string -> bool, cutoff: int): (r: ReminderRun)
    ensures r.outcome == DestroyedAsDuplicate <==> ExistsOtherByEmailAndPetition(records, attrs.personEmail, attrs.petitionId, attrs.id)
  {
    var a := Reminded(attrs, now);
    FinishReminder(ExistsOtherByEmailAndPetition(records, a.personEmail, a.petitionId, a.id), a, original, petition,
                   records, counters, now, freshId, freshToken, emailValid, cutoff)
  }

  /** A signature loaded from the table and not edited since: the table
      holds its row under its id, unchanged. */
  predicate StoredAsLoaded(attrs: Row, original: Option<Row>, records: map<int, Row>)
  {
    original == Some(attrs) && attrs.id in records && records[attrs.id] == attrs
  }

  /** As written, the reminder of a stored signature always finds the
      signature itself: it is destroyed, no mail is queued and the counters
      are not touched, whatever the rest of the table holds. */
  lemma ReminderAlwaysDestroysItself(attrs: Row, original: Option<Row>, petition: Option<Petition>, records: map<int, Row>,
                                     counters: CounterState, now: int, freshId: int, freshToken: string,
                                     emailValid: string -> bool, cutoff: int)
    requires StoredAsLoaded(attrs, original, records)
    ensures var r := ReminderSpec(attrs, original, petition, records, counters, now, freshId, freshToken, emailValid, cutoff);
      && r.outcome == DestroyedAsDuplicate && r.destroyed && r.jobs == [] && r.counters == counters
      && r.records == records - {attrs.id}
  {
    assert records[attrs.id].personEmail == attrs.personEmail && records[attrs.id].petitionId == attrs.petitionId;
    assert ExistsByEmailAndPetition(records, Reminded(attrs, now).personEmail, Reminded(attrs, now).petitionId);
  }

  /** With the lookup excluding the record itself, a stored signature with
      no twin in its petition is saved, and mailed exactly when that save
      succeeds; when the save is refused it is destroyed. */
  lemma ReminderExcludingSelfMailsUnique(attrs: Row, original: Option<Row>, petition: Option<Petition>, records: map<int, Row>,
                                         counters: CounterState, now: int, freshId: int, freshToken: string,
                                         emailValid: string -> bool, cutoff: int)
    requires StoredAsLoaded(attrs, original, records)
    requires forall k :: k in records && k != attrs.id ==>
      records[k].personEmail != attrs.personEmail || records[k].petitionId != attrs.petitionId
    ensures var r := ReminderExcludingSelfSpec(attrs, original, petition, records, counters, now, freshId, freshToken, emailValid, cutoff);
      var s := SaveSpec(Reminded(attrs, now), original, petition, records, counters, now, freshId, freshToken, emailValid, cutoff);
      && r.outcome != DestroyedAsDuplicate
      && (r.outcome == Mailed <==> s.outcome.Saved?)
      && (r.outcome == Mailed ==> r.jobs[|r.jobs| - 1] == ReminderMail(r.attrs.id))
      && (r.outcome == DestroyedAsInvalid <==> s.outcome.Rejected? && petition.Some?)
      && (r.outcome == DestroyedAsInvalid ==> r.records == records - {attrs.id})
      && (r.outcome == RaisedAfterRefusal ==> r.records == records && !r.destroyed)
  {
  }

  /** The two lookups on one table: a signature stored alone is found by
      the lookup as written and not by the lookup that excludes it; a second
      signature with the same e-mail for the same petition is found by
      both. */
  lemma LookupCounterexample(a: Row, b: Row)
    requires a.id != b.id && a.personEmail == b.personEmail && a.petitionId == b.petitionId
    ensures ExistsByEmailAndPetition(map[a.id := a], a.personEmail, a.petitionId)
    ensures !ExistsOtherByEmailAndPetition(map[a.id := a], a.personEmail, a.petitionId, a.id)
    ensures ExistsOtherByEmailAndPetition(map[a.id := a, b.id := b], a.personEmail, a.petitionId, a.id)
  {
    assert map[a.id := a][a.id] == a;
    assert map[a.id := a, b.id := b][b.id] == b;
  }
}
