/** What the signature's own callbacks do to its attributes, as functions
    on a row: the before_validation normalisation (strip_whitespace,
    lowercase_person_email), the before_save and before_create time stamps
    (fill_confirmed_at, fill_signed_at) and the reminder counter. */
module Callbacks {
  import opened Options
  import opened Text
  import opened Records

  function StripOpt(v: Option<string>): (r: Option<string>)
    ensures r.Some? <==> v.Some?
    ensures r.Some? ==> r.value == Strip(v.value)
  {
    if v.Some? then Some(Strip(v.value)) else None
  }

  /** strip_whitespace: street number, name and e-mail lose their leading
      and trailing white space; nil stays nil. */
  function Stripped(row: Row): (r: Row)
    ensures r.personStreetNumber.Some? <==> row.personStreetNumber.Some?
    ensures r.personName.Some? <==> row.personName.Some?
    ensures r.personEmail.Some? <==> row.personEmail.Some?
    ensures r.personStreetNumber.Some? ==> IsTrimmed(r.personStreetNumber.value)
    ensures r.personName.Some? ==> IsTrimmed(r.personName.value)
    ensures r.personEmail.Some? ==> IsTrimmed(r.personEmail.value) && r.personEmail.value == Strip(row.personEmail.value)
    ensures r == row.(personStreetNumber := r.personStreetNumber, personName := r.personName, personEmail := r.personEmail)
  {
    row.(personStreetNumber := StripOpt(row.personStreetNumber),
         personName := StripOpt(row.personName),
         personEmail := StripOpt(row.personEmail))
  }

  /** lowercase_person_email: person_email.to_s.downcase, so nil becomes "". */
  function WithLowercaseEmail(row: Row): (r: Row)
    ensures r.personEmail.Some?
    ensures forall i :: 0 <= i < |r.personEmail.value| ==> !IsUpper(r.personEmail.value[i])
    ensures row.personEmail.None? ==> r.personEmail == Some("")
    ensures row.personEmail.Some? ==> |r.personEmail.value| == |row.personEmail.value|
    ensures r == row.(personEmail := r.personEmail)
  {
    row.(personEmail := Some(Downcase(if row.personEmail.Some? then row.personEmail.value else "")))
  }

  /** The two before_validation callbacks, in their declared order: the
      e-mail ends up as NormalEmail of the original, name and street number
      stripped, the rest untouched. */
  function Normalized(row: Row): (r: Row)
    ensures r == row.(personStreetNumber := StripOpt(row.personStreetNumber), personName := StripOpt(row.personName),
                      personEmail := Some(NormalEmail(row.personEmail)))
  {
    WithLowercaseEmail(Stripped(row))
  }

  /** No white space that strip removes at either end. */
  predicate IsTrimmed(s: string)
  {
    s == [] || (!IsStripSpace(s[0]) && !IsStripSpace(s[|s| - 1]))
  }

  /** After normalisation the name and street number are trimmed when set,
      the e-mail is set, trimmed and free of upper-case letters, it is what
      the original e-mail becomes when trimmed and lower-cased, and no other
      attribute has changed. */
  lemma NormalizedIsClean(row: Row)
    ensures var n := Normalized(row);
      && (n.personName.Some? <==> row.personName.Some?)
      && (n.personName.Some? ==> IsTrimmed(n.personName.value))
      && (n.personStreetNumber.Some? <==> row.personStreetNumber.Some?)
      && (n.personStreetNumber.Some? ==> IsTrimmed(n.personStreetNumber.value))
      && n.personEmail.Some? && IsTrimmed(n.personEmail.value)
      && (forall i :: 0 <= i < |n.personEmail.value| ==> !IsUpper(n.personEmail.value[i]))
      && n.personEmail.value == (if row.personEmail.Some? then Downcase(Strip(row.personEmail.value)) else "")
      && n == row.(personName := n.personName, personStreetNumber := n.personStreetNumber, personEmail := n.personEmail)
  {
    if row.personEmail.Some? {
      var s := Strip(row.personEmail.value);
      var d := Downcase(s);
      if d != [] {
        assert IsStripSpace(d[0]) <==> IsStripSpace(s[0]);
        assert IsStripSpace(d[|d| - 1]) <==> IsStripSpace(s[|s| - 1]);
      }
    }
  }

  /** The e-mail after lowercase_person_email of a stripped e-mail. */
  function NormalEmail(v: Option<string>): (r: string)
    ensures v.None? ==> r == ""
    ensures v.Some? ==> r == Downcase(Strip(v.value))
  {
    Downcase(if StripOpt(v).Some? then StripOpt(v).value else "")
  }

  lemma NormalEmailIdempotent(v: Option<string>)
    ensures NormalEmail(Some(NormalEmail(v))) == NormalEmail(v)
  {
    var e := NormalEmail(v);
    if v.Some? {
      StripOfDowncasedStripped(v.value);
      DowncaseIdempotent(Strip(v.value));
    } else {
      assert Strip("") == "";
    }
  }

  lemma StripOptIdempotent(v: Option<string>)
    ensures StripOpt(StripOpt(v)) == StripOpt(v)
  {
    if v.Some? {
      StripIdempotent(v.value);
    }
  }

  /** Normalising twice is normalising once: validating a record again
      does not change it further. */
  lemma NormalizedIdempotent(row: Row)
    ensures Normalized(Normalized(row)) == Normalized(row)
  {
    var n := Normalized(row);
    assert n == row.(personStreetNumber := StripOpt(row.personStreetNumber), personName := StripOpt(row.personName),
                     personEmail := Some(NormalEmail(row.personEmail)));
    StripOptIdempotent(row.personName);
    StripOptIdempotent(row.personStreetNumber);
    NormalEmailIdempotent(row.personEmail);
    assert Normalized(n) == n.(personStreetNumber := StripOpt(n.personStreetNumber), personName := StripOpt(n.personName),
                               personEmail := Some(NormalEmail(n.personEmail)));
  }

  /** fill_confirmed_at: stamps the confirmation time when the signature is
      confirmed and has none yet. */
  function StampConfirmedAt(confirmedAt: Option<int>, confirmed: bool, now: int): (r: Option<int>)
    ensures confirmedAt.Some? ==> r == confirmedAt
    ensures confirmedAt.None? ==> (r.Some? <==> confirmed)
    ensures r.Some? && confirmedAt.None? ==> r.value == now
    ensures confirmed ==> r.Some?
  {
    if confirmedAt.None? && confirmed then Some(now) else confirmedAt
  }

  /** fill_signed_at: stamps the signing time when there is none yet. */
  function StampSignedAt(signedAt: Option<int>, now: int): (r: Option<int>)
    ensures r.Some?
    ensures signedAt.Some? ==> r == signedAt
    ensures signedAt.None? ==> r == Some(now)
  {
    if signedAt.None? then Some(now) else signedAt
  }

  /** reminders_sent: 1 when blank (only nil is blank for an integer),
      otherwise one more. */
  function NextRemindersSent(sent: Option<int>): (r: int)
    ensures sent.None? ==> r == 1
    ensures sent.Some? ==> r == sent.value + 1
  {
    if sent.None? then 1 else sent.value + 1
  }

  /** send_confirmation_mail mails only a signature never reminded; only
      the reminder time decides. */
  function SendsConfirmationMail(row: Row): (b: bool)
    ensures row.lastReminderSentAt.Some? ==> !b
    ensures row.lastReminderSentAt.None? ==> b
  {
    row.lastReminderSentAt.None?
  }
}
