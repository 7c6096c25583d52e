# Signature lifecycle and counter protocol, in Dafny

This project models the `Signature` record of an online-petition
application (`app/models/signature.rb`). A signature is normalised before
validation: name, street number and e-mail are stripped, and the e-mail is
lower-cased. It is then validated. Name, e-mail and function rules apply
on every validation. Address, birth-date and birth-city rules apply only on
update, and only when the petition's type asks for them. Next it is stamped
(`confirmed_at` before every save, `signed_at` and the secure token before
create) and written to the signatures table. After the save, when
`confirmed` changed, the signature updates the statistics kept in a Redis
counter store: the last-activity time, a daily bucket, a per-signature city
tally, the global size ranking, the size counter and the activity-rate
recomputation. The reminder flow stamps the reminder fields, looks for a
duplicate, and then destroys the signature or saves it and queues a
reminder mail.

Modules, one file each:

- `Options`: the option type.
- `Text`: Ruby's `strip` and ASCII `downcase`, `blank?`, and decimal rendering of ids with its round trip.
- `Calendar`: from epoch seconds to the UTC year, month and day.
- `Counters`: the key strings, the counter store as a value with GET/SET/INCR/ZINCRBY, and the `CounterStore` class.
- `Policy`: the petition type and the `require_*?` predicates.
- `Records`: the row, the scopes and the queries by e-mail and petition.
- `Validation`: every rule, as a set of violations.
- `Callbacks`: the attribute callbacks as functions.
- `CounterProtocol`: `update_redis_counts` as a function on the counter store.
- `Lifecycle`: one save and one reminder, as functions from the state before to the state after.
- `Signatures`: the `Signature` object, the table and the job queue as classes. Their methods run the same steps one write at a time, and each is proved to end where the matching function does.

Times are integer epoch seconds and birth dates are day numbers. The
current time, the id the database assigns, the generated token, the cutoff
date that `required_minimum_age` names and the e-mail format check are all
parameters.

The code behaves as follows, and the model follows it:

- The counters are filed under `created_at || updated_at`; `signed_at` plays no part.
- An absent last-activity key reads as 0. The `|| 3600` fallback never applies, because `nil.to_i` is 0.
- The city tally key is `p{id}-city`, built from the signature's own id.
- The reminder's duplicate lookup also finds the signature itself.
- An exception in the counter update (a missing petition or city) is not swallowed. It propagates out of `save`, the record's write is rolled back, and the counter commands already sent stay.
- `confirmed_at` is never cleared: an un-confirmed signature keeps its confirmation time.
- Un-confirming also triggers the counters, which go up again.
- When the reminder's save is refused and the signature has no petition, logging `petition.name` raises before `destroy`, so the signature is not destroyed.

## Model

| member | source | states |
|---|---|---|
| Text.Strip | app/models/signature.rb:173-177 | the result has no strip-whitespace at either end and is the input minus an all-whitespace prefix and suffix |
| Text.StripIdempotent | app/models/signature.rb:173-177 | stripping twice is stripping once |
| Text.StripOfTrimmed | app/models/signature.rb:173-177 | a string with no strip-whitespace at either end is its own strip |
| Text.Downcase | app/models/signature.rb:179-181 | same length, each character replaced by its lower-case form, so no upper-case letter is left and only the upper-case letters change |
| Text.DowncaseIdempotent | app/models/signature.rb:179-181 | lower-casing twice is lower-casing once |
| Text.StripOfDowncasedStripped | app/models/signature.rb:173-181 | a stripped then lower-cased e-mail is already stripped |
| Text.IntToString | app/models/signature.rb:132-145 | an optional minus sign followed by decimal digits, with no leading zero; "0" only for 0 |
| Text.NatToStringRoundTrip | app/models/signature.rb:132-145 | parsing the decimal rendering of a natural number gives it back |
| Text.IntToStringRoundTrip | app/models/signature.rb:132-145 | parsing the decimal rendering of an integer gives it back |
| Text.IntToStringInjective | app/models/signature.rb:132-145 | two ids render to the same string only when they are equal |
| Text.ShorterRenderingMeetsDigit | app/models/signature.rb:137 | when a shorter rendering and its rest spell a longer rendering and its rest, the rest starts with a digit |
| Text.RenderingPrefix | app/models/signature.rb:137 | a rendering followed by a non-digit is read back uniquely: same number, same rest |
| Calendar.YearOfEraFrom | app/models/signature.rb:137 | the year of a day within a 400-year era and the day's place in that year |
| Calendar.DaysInMonth | app/models/signature.rb:137 | 28 to 31 days; February has 29 exactly in a Gregorian leap year |
| Calendar.MonthOfYear | app/models/signature.rb:137 | the month and day of a day of the year, the day within that month's length, with the inverse equation |
| Calendar.MonthOfYearUnique | app/models/signature.rb:137 | a day inside its month is read back as that month and day |
| Calendar.LeapYearPeriod | app/models/signature.rb:137 | the leap rule repeats every 400 years |
| Calendar.EraYearLengthIsLeap | app/models/signature.rb:137 | a March-year has 366 days exactly when the following calendar year is a leap year |
| Calendar.EraYearStartMonotone | app/models/signature.rb:137 | later years of an era start later |
| Calendar.EraSplitUnique | app/models/signature.rb:137 | a day of an era lies in exactly one year of the era |
| Calendar.EraUnique | app/models/signature.rb:137 | a day number splits one way only into eras and a day of the era |
| Calendar.DateFromMarchParts | app/models/signature.rb:137 | a date is fixed by its March-year, its month from March and its day |
| Calendar.DateParts | app/models/signature.rb:137 | a valid date's day of the year and day of the era lie in range, and its month and day are read back from them |
| Calendar.DaysFromCivilInjective | app/models/signature.rb:137 | two valid dates with the same day number are the same date |
| Calendar.CivilRoundTrip | app/models/signature.rb:137 | every valid date is the date of its own day number |
| Calendar.DateOfExactly | app/models/signature.rb:137 | the date of t is exactly the one valid date whose day number holds t |
| Calendar.CivilFromDays | app/models/signature.rb:137 | a date that exists (month 1-12, day within the month's length, leap years included) whose day number is the input |
| Calendar.DateOf | app/models/signature.rb:137 | `t.year`, `t.month`, `t.day` in UTC: a date that exists, on the day holding t |
| Calendar.SameDateIffSameDay | app/models/signature.rb:137 | two times fall in the same daily bucket exactly when they fall on the same day |
| Counters.PetitionKeysDistinct | app/models/signature.rb:132-145 | the last-activity, daily and count keys of one petition are three different keys |
| Counters.LastKey | app/models/signature.rb:132-135 | `p-last-` followed by a rendering that parses back to the petition id |
| Counters.DateSuffix | app/models/signature.rb:137 | the `-<year>-<month>-<day>` part of the bucket key, starting with a dash |
| Counters.DateSuffixInjective | app/models/signature.rb:137 | two dates with the same date part are the same date |
| Counters.DailyKey | app/models/signature.rb:137 | a key that starts `p-d-` |
| Counters.DailyKeyParts | app/models/signature.rb:137 | equal bucket keys name the same petition and the same date |
| Counters.DailyKeyInjective | app/models/signature.rb:137 | two buckets are the same key exactly when petition and date are the same |
| Counters.CityKey | app/models/signature.rb:141 | `p`, a rendering that parses back to the signature id, then `-city` |
| Counters.CountKey | app/models/signature.rb:145 | `p`, a rendering that parses back to the petition id, then `-count` |
| Counters.CityKeyIsNotSizeRanking | app/models/signature.rb:141-143 | the city tally and the size ranking are different scored sets |
| Counters.ScoredSetKeysAreNotPlainKeys | app/models/signature.rb:132-145 | the city tally and size ranking keys differ from every last-activity, daily and count key, so the one Redis keyspace never sees a scored-set command on a plain key |
| Counters.CityKeyIsNotPlainKey | app/models/signature.rb:132-141 | a city tally key is never a last-activity, daily or count key |
| Counters.SizeRankingIsNotPlainKey | app/models/signature.rb:132-145 | the size ranking is never a last-activity, daily or count key |
| Counters.LastKeyInjective | app/models/signature.rb:132-135 | two petitions share a last-activity key exactly when they are the same petition |
| Counters.AfterSet | app/models/signature.rb:135 | SET: the key holds the value and no other key or scored set changes |
| Counters.AfterIncr | app/models/signature.rb:137 | INCR: the key goes up by one and no other key or scored set changes |
| Counters.AfterZIncrBy | app/models/signature.rb:141-143 | ZINCRBY: the member's score goes up by the increment and nothing else changes |
| Counters.CounterStore.Get | app/models/signature.rb:132 | the stored value, or none when the key is absent |
| Counters.CounterStore.Set | app/models/signature.rb:135 | the store after SET |
| Counters.CounterStore.Incr | app/models/signature.rb:137 | the store after INCR, and the new value returned |
| Counters.CounterStore.ZIncrBy | app/models/signature.rb:141-143 | the store after ZINCRBY, and the new score returned |
| Policy.TypeOf | app/models/signature.rb:41-42 | the petition type is absent when the petition is |
| Policy.RequireFullAddress | app/models/signature.rb:151-153 | false without a petition type, else the type's full-address setting |
| Policy.RequireBornAt | app/models/signature.rb:155-157 | false without a petition type, else the type's born-at setting |
| Policy.RequireMinimumAge | app/models/signature.rb:159-161 | false without a petition type, else whether the type names a minimum age |
| Policy.RequirePersonCity | app/models/signature.rb:163-165 | false without a petition type, else the type's birth-city setting |
| Policy.RequirePersonCountry | app/models/signature.rb:167-169 | true exactly when there is a petition type whose country code is set and not blank |
| Policy.AnyRequirement | app/models/signature.rb:151-169 | some `require_*?` holds exactly when one of the five does; none hold without a petition type |
| Records.Where | app/models/signature.rb:109-113 | exactly the rows meeting the condition, each as often as it occurs in the table |
| Records.Confirmed | app/models/signature.rb:109 | exactly the confirmed rows |
| Records.Hidden | app/models/signature.rb:110 | exactly the rows whose visible is false; NULL is not hidden |
| Records.Subscribed | app/models/signature.rb:111 | exactly the confirmed rows with subscribe true |
| Records.Special | app/models/signature.rb:112 | exactly the confirmed rows with special true |
| Records.Visible | app/models/signature.rb:113 | exactly the confirmed rows with visible true |
| Records.ScopesWithinConfirmed | app/models/signature.rb:109-113 | subscribed, special and visible rows are confirmed; hidden and visible are disjoint; NULL visible is in neither |
| Records.ExistsByEmailAndPetition | app/models/signature.rb:202-203 | found whenever some stored row has the e-mail and the petition; never in an empty table |
| Records.ExistsSplitsAtSelf | app/models/signature.rb:202-203 | the whole-table lookup finds a row exactly when the lookup excluding one id does or the row at that id matches |
| Validation.LengthRule | app/models/signature.rb:49 | `length: { in: min..max }`: no error exactly when the length (nil as 0) is in range, else one of too_short and too_long |
| Validation.SeparatorFrom | app/models/signature.rb:50 | a space or dot stands somewhere in the given range |
| Validation.MatchesNamePattern | app/models/signature.rb:50 | `\A.+( \|\.).+\z`: no newline and a space or dot with a character on both sides |
| Validation.NameRules | app/models/signature.rb:49-50 | no error exactly when the name has 3..255 characters and matches the pattern |
| Validation.NameExamples | app/models/signature.rb:49-50 | "Alice" is refused as invalid, "Alice B." and "Jane D." pass, a nil name is too short and invalid |
| Validation.EmailRules | app/models/signature.rb:51-52 | no error exactly when the format check passes and no other signature of the petition has the e-mail; taken exactly when one does |
| Validation.FunctionRule | app/models/signature.rb:81 | no error exactly when the function is nil, blank or at most 255 characters |
| Validation.StreetNumberRule | app/models/signature.rb:88-91 | no error exactly when the street number is an integer literal; nil is not a number |
| Validation.SuffixRule | app/models/signature.rb:93-97 | no error exactly when the suffix is nil, blank or 1..255 characters |
| Validation.BornAtRule | app/models/signature.rb:99-102 | no error exactly when the birth date is set and not after the cutoff; nil is an invalid date |
| Validation.UnconditionalRules | app/models/signature.rb:49-52 | the name, e-mail and function errors, and no error on a gated field |
| Validation.AddressRules | app/models/signature.rb:76-97 | no error exactly when city, street, street number and suffix all pass |
| Validation.ConditionalRules | app/models/signature.rb:76-107 | no error exactly when every gated rule that is switched on passes; errors only on update with some requirement |
| Validation.Validate | app/models/signature.rb:49-107 | valid exactly when every applicable rule passes; gated errors only on update under a requirement; taken exactly when the e-mail is |
| Validation.BornAtOnlyFromItsRule | app/models/signature.rb:49-107 | a birth-date violation is reported exactly when the gated birth-date rule reports it |
| Validation.UngatedValidation | app/models/signature.rb:76-107 | on create, or without a petition type, only the name, e-mail and function rules apply |
| Validation.FullAddressGate | app/models/signature.rb:76-86 | with the full-address requirement an update without city and street is refused on both; without it on neither |
| Validation.MinimumAgeGate | app/models/signature.rb:99-102 | with a minimum age an update is refused on the birth date exactly when it is missing or after the cutoff; a create never is |
| Callbacks.StripOpt | app/models/signature.rb:174-176 | nil stays nil, a string is stripped |
| Callbacks.Stripped | app/models/signature.rb:173-177 | street number, name and e-mail keep their nil-ness and are trimmed when set, the e-mail is its strip, and no other attribute changes |
| Callbacks.WithLowercaseEmail | app/models/signature.rb:179-181 | the e-mail is set, has no upper-case letter, keeps its length, is "" for nil, and no other attribute changes |
| Callbacks.Normalized | app/models/signature.rb:115 | name and street number stripped, the e-mail becomes NormalEmail of the original, nothing else changes |
| Callbacks.NormalizedIsClean | app/models/signature.rb:115 | after both callbacks name and street number are trimmed when set; the e-mail is set, trimmed, lower-case and equal to the stripped, lower-cased input ("" for nil); nothing else changes |
| Callbacks.NormalEmail | app/models/signature.rb:176-181 | the e-mail both callbacks leave: "" for nil, otherwise the stripped, lower-cased input |
| Callbacks.NormalEmailIdempotent | app/models/signature.rb:176-181 | normalising the normalised e-mail changes nothing |
| Callbacks.StripOptIdempotent | app/models/signature.rb:174-176 | stripping an optional string twice is stripping it once |
| Callbacks.NormalizedIdempotent | app/models/signature.rb:115 | normalising twice is normalising once |
| Callbacks.StampConfirmedAt | app/models/signature.rb:221-223 | a set `confirmed_at` is kept; an unset one becomes now exactly when confirmed |
| Callbacks.StampSignedAt | app/models/signature.rb:225-227 | a set `signed_at` is kept; an unset one becomes now |
| Callbacks.NextRemindersSent | app/models/signature.rb:196-200 | 1 when blank, else one more |
| Callbacks.SendsConfirmationMail | app/models/signature.rb:183-188 | the confirmation mail goes out exactly when no reminder was ever sent |
| CounterProtocol.EffectiveTime | app/models/signature.rb:127 | `created_at` when set, else `updated_at` |
| CounterProtocol.AfterLastActivity | app/models/signature.rb:131-135 | the last-activity key reads as the larger of its old value and t, exists afterwards exactly when it did or t was later, and nothing else changes |
| CounterProtocol.AfterRankings | app/models/signature.rb:139-145 | the size counter goes up by one and no other plain key changes (the scored sets: RankingWrites) |
| CounterProtocol.RedisCounts | app/models/signature.rb:126-149 | no time: nothing changes; no petition: it raises with nothing changed; counted exactly when time, petition and (batch or city) are present; the rate is recomputed exactly on a counted live call |
| CounterProtocol.ActivityWrites | app/models/signature.rb:131-137 | last-activity becomes max(old, t), the day's bucket one more, nothing else changes |
| CounterProtocol.RankingWrites | app/models/signature.rb:139-145 | city tally, size ranking and size counter each one more, nothing else changes |
| CounterProtocol.LastActivityIsMax | app/models/signature.rb:131-135 | the stored last activity never goes down and ends at max(old, t), strictly later winning, absent read as 0 |
| CounterProtocol.DailyBucketCountsOnce | app/models/signature.rb:137 | the bucket of t's day goes up by exactly one, batch or not, even when the call then raises |
| CounterProtocol.NoRankingWithoutLiveCity | app/models/signature.rb:139-148 | a batch call, or a live call without a city, changes no scored set and no key besides last-activity and the bucket, and does not recompute the rate |
| CounterProtocol.LiveCallUpdatesRankings | app/models/signature.rb:139-148 | a live call with a city adds one to the downcased city's tally, to the petition's size score and to its size counter, and recomputes the rate once |
| CounterProtocol.LiveCallTouchesOnlyItsKeys | app/models/signature.rb:139-148 | a live call changes no other key and no other scored set |
| Lifecycle.ContextOf | app/models/signature.rb:78 | the create context exactly for a new record |
| Lifecycle.ConfirmedChanged | app/models/signature.rb:123 | for a new record, whether it is confirmed; otherwise whether confirmed differs from the stored value |
| Lifecycle.WithToken | app/models/signature.rb:44 | a present token is kept and the row unchanged; otherwise the fresh token; only the token changes |
| Lifecycle.CreateStamped | app/models/signature.rb:116-117 | the assigned id; a present token kept, else the fresh one; `signed_at`, `created_at` and `updated_at` each kept when set and now when nil; nothing else changes |
| Lifecycle.UpdateStamped | app/models/signature.rb:116-117 | only `updated_at` may change: it becomes now exactly when some attribute is to be saved and `updated_at` was not assigned, otherwise the row is unchanged |
| Lifecycle.Prepared | app/models/signature.rb:116-117 | only the stamp fields, the id and the token change, and `confirmed_at` is stamped as fill_confirmed_at says |
| Lifecycle.Commit | app/models/signature.rb:119-124 | the save writes the row; when confirmed is unchanged the counters are untouched; a raise rolls the table back and queues nothing |
| Lifecycle.SaveSpec | app/models/signature.rb:115-124 | refused exactly when the normalised record is invalid, changing nothing else; a successful save writes the row and makes it the persisted one; a raise rolls the table back |
| Lifecycle.SaveWrites | app/models/signature.rb:115-117 | a save that passes validation writes the normalised and stamped attributes |
| Lifecycle.CountersIffConfirmedChanged | app/models/signature.rb:119-124 | the counters change only when the save passed validation and confirmed changed, and then as one live counter update; the save fails exactly when that update raises |
| Lifecycle.PreparedFields | app/models/signature.rb:116-117 | the attributes that validation reads are kept and only the stamp fields, the id and the token differ; a create gets the fresh id, the token unless present, and `signed_at`, `created_at`, `updated_at` each now when nil; an update keeps id, `signed_at` and `created_at` and sets `updated_at` to now exactly when something is to be saved and it was not assigned |
| Lifecycle.SaveStamps | app/models/signature.rb:221-227 | no save overwrites `confirmed_at` or `signed_at`; `confirmed_at` is stamped only when confirmed; `signed_at` only on create |
| Lifecycle.NormalizedOnlyTouchesThree | app/models/signature.rb:173-181 | normalisation reads and writes only name, street number and e-mail |
| Lifecycle.PreparedIsNormalized | app/models/signature.rb:115-117 | the written attributes need no further normalisation |
| Lifecycle.SecondSaveCountsNothing | app/models/signature.rb:119-124 | saving again after a successful save, assigning nothing, leaves the counters and the queue alone |
| Lifecycle.UnconfirmingCountsAgain | app/models/signature.rb:123 | un-confirming a valid signature with a city adds one to the petition's size counter and queues the rate update |
| Lifecycle.Reminded | app/models/signature.rb:191-200 | `last_reminder_sent_at` is now and `reminders_sent` is 1 or one more; nothing else changes |
| Lifecycle.AfterDestroy | app/models/signature.rb:206 | destroy removes the persisted row, and nothing for a new record |
| Lifecycle.AfterReminderSave | app/models/signature.rb:211-218 | mailed, with the mail queued last, exactly when the save succeeded; destroyed, with nothing queued, exactly when it was refused and there is a petition; a refusal without a petition raises in the log line and destroys nothing; a raising save is passed on with nothing changed; the counters are those of the save |
| Lifecycle.FinishReminder | app/models/signature.rb:205-218 | a duplicate is destroyed with nothing queued and the counters untouched; a mailed signature is not destroyed and its last job is its reminder mail; a destroy after a refused save needs a petition, and without one the table is left as it was |
| Lifecycle.ReminderSpec | app/models/signature.rb:190-219 | the reminder as written: destroyed as a duplicate exactly when the whole-table lookup finds a row with the e-mail and petition; mailed only when it finds none |
| Lifecycle.ReminderExcludingSelfSpec | app/models/signature.rb:202-209 | the reminder with the lookup excluding the signature: destroyed as duplicate exactly when another signature has its e-mail and petition |
| Lifecycle.ReminderAlwaysDestroysItself | app/models/signature.rb:202-209 | as written, a stored signature is always found by its own lookup, destroyed and never mailed |
| Lifecycle.ReminderExcludingSelfMailsUnique | app/models/signature.rb:202-218 | with self excluded, a signature without a twin is mailed exactly when its save succeeds; destroyed exactly when the save is refused and there is a petition; without one the refusal raises and the row stays |
| Lifecycle.LookupCounterexample | app/models/signature.rb:202-203 | a one-row table: found by the lookup as written but not by the one excluding self; a twin is found by both |
| Signatures.RecordStore.Put | app/models/signature.rb:212 | the row is stored under its id |
| Signatures.RecordStore.Delete | app/models/signature.rb:206 | the row is removed |
| Signatures.RecordStore.Restore | app/models/signature.rb:119 | the table is as it was before the save |
| Signatures.RecordStore.FindByEmailAndPetition | app/models/signature.rb:202-203 | a stored row with that e-mail and petition, found exactly when one exists |
| Signatures.RecordStore.FindOtherByEmailAndPetition | app/models/signature.rb:202-203 | a stored row other than self with that e-mail and petition, found exactly when one exists |
| Signatures.Outbox.Enqueue | app/models/signature.rb:185 | the job is appended to the queue |
| Signatures.Signature.StripWhitespace | app/models/signature.rb:173-177 | the attributes become their stripped form |
| Signatures.Signature.Normalize | app/models/signature.rb:115 | the attributes become their normalised form |
| Signatures.Signature.LowercasePersonEmail | app/models/signature.rb:179-181 | the e-mail becomes `to_s.downcase` |
| Signatures.Signature.FillConfirmedAt | app/models/signature.rb:221-223 | the attributes after fill_confirmed_at |
| Signatures.Signature.FillSignedAt | app/models/signature.rb:225-227 | the attributes after fill_signed_at |
| Signatures.Signature.FillUniqueKey | app/models/signature.rb:44 | a token unless one is present |
| Signatures.Signature.UpdateRedisCounts | app/models/signature.rb:126-149 | the store and queue end as RedisCounts says, and it returns how the call ended |
| Signatures.Signature.UpdatePetition | app/models/signature.rb:121-124 | the counter update runs exactly when confirmed changed; otherwise store and queue are unchanged |
| Signatures.Signature.Prepare | app/models/signature.rb:116-117 | the attributes end as the stamps make them |
| Signatures.Signature.Commit | app/models/signature.rb:119-124 | table, store, queue and persisted row end as Commit says |
| Signatures.Signature.PrepareAndCommit | app/models/signature.rb:116-124 | the attributes end stamped, and table, store, queue and persisted row end as Commit of the stamped row says |
| Signatures.Signature.Save | app/models/signature.rb:115-124 | every part of the state ends as SaveSpec says |
| Signatures.Signature.Destroy | app/models/signature.rb:206 | the persisted row is deleted and the record is marked destroyed |
| Signatures.Signature.SendConfirmationMail | app/models/signature.rb:183-188 | answers true; queues the confirmation mail exactly when no reminder was ever sent |
| Signatures.Signature.CompleteReminder | app/models/signature.rb:205-218 | the state ends as FinishReminder says |
| Signatures.Signature.SaveAndFollowUp | app/models/signature.rb:211-218 | the state ends as the save specified by SaveSpec followed by AfterReminderSave |
| Signatures.Signature.FollowUpReminder | app/models/signature.rb:211-218 | the state ends as AfterReminderSave says for the save that ran, raising without a destroy on a refusal with no petition |
| Signatures.Signature.SendReminderMail | app/models/signature.rb:190-219 | the state ends as ReminderSpec says |
| Signatures.Signature.SendReminderMailExcludingSelf | app/models/signature.rb:190-219 | the state ends as ReminderExcludingSelfSpec says |
| Signatures.Signature.Build | app/models/signature.rb:40 | a new record with the given attributes |
| Signatures.Signature.Load | app/models/signature.rb:40 | a record read from the table, persisted as loaded |

## Left out

- The Redis connection, ActiveRecord persistence and the mail transport. They are replaced by the `CounterStore`, `RecordStore` and `Outbox` classes. `deliver_later` and `update_active_rate!` are modelled as jobs put on the queue.
- The `email: true` format validator: it comes from a gem that is not part of this model, so it is a parameter `emailValid`.
- `required_minimum_age` is not defined in `app/models/signature.rb`. It is the parameter `cutoff`, the latest accepted birth date. `validates_date` is the comparison against it.
- `Time.now.utc`, the id the database assigns and `has_secure_token`'s random token are parameters.
- Time zones: dates and the daily bucket use UTC. Times have whole seconds, so fractional seconds in `t > last` are not modelled.
- `Text.Downcase`: only ASCII letters are lower-cased. Ruby's full Unicode case mapping is not modelled.
- Validation, Validate: violations form a set, so the order and wording of error messages are not kept. NotAnInteger stands for both `not_a_number` and `not_an_integer`.
- Records.Where: SQL gives no order, so the scopes keep multiplicity but not order.
- Signatures.Signature.Save, Signatures.Signature.SaveAndFollowUp, Signatures.Signature.CompleteReminder, Signatures.Signature.SendReminderMail and Signatures.Signature.SendReminderMailExcludingSelf: require a signature that is not destroyed. Saving or reminding a destroyed record, which raises on the frozen attributes, is not modelled.
- Lifecycle.SaveSpec: on rollback, the table and the persisted baseline are restored, so a rolled-back create is a new record again; the in-memory `id` of a rolled-back create is not reset.
- Lifecycle.SaveSpec: an update always writes the whole row. Partial writes, and changing the primary key of a persisted row, are not modelled.
- The optional `belongs_to` presence validation depends on the application's configuration, which is not part of this model. A signature without a petition is validated without a type. Its save raises in the counter update only when `confirmed` changed; a save that leaves `confirmed` alone succeeds.
- `confirmed_changed?` in `after_save` means "differs from the value in the database before the save". This is the behaviour of the Rails versions with `ActiveRecord::Base` dirty tracking at the time. The saved-change API of later versions is not modelled.
- Concurrency: the races around the last-activity read-compare-write and the reminder's lookup-then-destroy.
- The commented-out associations and validations (`app/models/signature.rb:46-47`, `54-74`) and the schema comment block.
- config/routes.rb is not part of this model: it only wires routes.

## Findings

| source | as written | input that shows it | evidently intended | confidence | as-written member | corrected member |
|---|---|---|---|---|---|---|
| app/models/signature.rb:202-209 | `find_by_person_email_and_petition_id(person_email, petition_id)` searches the whole table, so for a stored signature it finds the signature itself and always destroys it | a signature stored alone in its petition, with its e-mail; the lookup finds its own row, so it is destroyed and the reminder mail is never queued | look for another signature with the same e-mail and petition (`id != self`), destroy only on such a twin, otherwise save and mail | not executed | Lifecycle.ReminderAlwaysDestroysItself | Lifecycle.ReminderExcludingSelfMailsUnique |
