/** The validation rules of a signature (app/models/signature.rb:49-52,
    76-107): the name, e-mail and function rules run on every validation,
    the address, birth date and birth city rules only on update and only
    when the petition type asks for them. */
module Validation {
  import opened Options
  import opened Text
  import opened Records
  import opened Policy

  /** Rails' validation context: :create for a new record, :update otherwise. */
  datatype Context = OnCreate | OnUpdate

  datatype Field =
    | PersonName | PersonEmail | PersonCity | PersonFunction | PersonStreet
    | PersonStreetNumber | PersonStreetNumberSuffix | PersonBornAt | PersonBirthCity

  /** The error keys the rules add. NotAnInteger stands for both of the
      numericality validator's keys (not_a_number, not_an_integer). */
  datatype Reason = TooShort | TooLong | Invalid | Taken | NotAnInteger | InvalidDate | AfterCutoff

  datatype Violation = Violation(field: Field, reason: Reason)

  /** The fields whose rules are gated by the petition type. */
  predicate IsConditional(f: Field)
  {
    f in {PersonCity, PersonStreet, PersonStreetNumber, PersonStreetNumberSuffix, PersonBornAt, PersonBirthCity}
  }

  /** nil.to_s: the value a validator measures. */
  function TextOf(v: Option<string>): string
  {
    if v.Some? then v.value else ""
  }

  /** The length validator (length: { in: min..max }): nil has length 0;
      it finds too_short or too_long, never both. */
  function LengthRule(f: Field, v: Option<string>, min: nat, max: nat): (r: set<Violation>)
    requires min <= max
    ensures r == {} <==> min <= |TextOf(v)| <= max
    ensures r == {} || r == {Violation(f, TooShort)} || r == {Violation(f, TooLong)}
    ensures r == {Violation(f, TooShort)} <==> |TextOf(v)| < min
  {
    if |TextOf(v)| < min then {Violation(f, TooShort)}
    else if |TextOf(v)| > max then {Violation(f, TooLong)}
    else {}
  }

  predicate IsNameSeparator(c: char)
  {
    c == ' ' || c == '.'
  }

  /** Whether a separator stands at some index in [from, |s| - 1). */
  function SeparatorFrom(s: string, from: nat): (b: bool)
    ensures b <==> exists i :: from <= i < |s| - 1 && IsNameSeparator(s[i])
    decreases |s| - from
  {
    if from + 1 >= |s| then false
    else IsNameSeparator(s[from]) || SeparatorFrom(s, from + 1)
  }

  /** /\A.+( |\.).+\z/: a space or a period with at least one character on
      each side, and (`.` does not match a line feed) no line feed at all. */
  function MatchesNamePattern(s: string): (b: bool)
    ensures b <==> ('\n' !in s && exists i :: 1 <= i < |s| - 1 && IsNameSeparator(s[i]))
  {
    '\n' !in s && SeparatorFrom(s, 1)
  }

  /** person_name: length in 3..255 (line 49) and the name pattern (line 50). */
  function NameRules(name: Option<string>): (r: set<Violation>)
    ensures r == {} <==> 3 <= |TextOf(name)| <= 255 && MatchesNamePattern(TextOf(name))
    ensures forall v :: v in r ==> v.field == PersonName
  {
    LengthRule(PersonName, name, 3, 255)
    + (if MatchesNamePattern(TextOf(name)) then {} else {Violation(PersonName, Invalid)})
  }

  /** A single word is refused as a name; a first name with an initial is accepted. */
  lemma NameExamples()
    ensures NameRules(Some("Alice")) == {Violation(PersonName, Invalid)}
    ensures NameRules(Some("Alice B.")) == {}
    ensures NameRules(Some("Jane D.")) == {}
    ensures NameRules(None) == {Violation(PersonName, TooShort), Violation(PersonName, Invalid)}
  {
    assert IsNameSeparator("Alice B."[5]);
    assert IsNameSeparator("Jane D."[4]);
    var alice := "Alice";
    assert forall i :: 1 <= i < |alice| - 1 ==> !IsNameSeparator(alice[i]);
  }

  /** Another row of the table with the same e-mail and petition; on update
      the record itself is excluded (uniqueness: { scope: :petition_id }). */
  predicate EmailTaken(rows: map<int, Row>, row: Row, ctx: Context)
  {
    exists k :: k in rows && (ctx == OnUpdate ==> k != row.id)
      && rows[k].personEmail == row.personEmail && rows[k].petitionId == row.petitionId
  }

  /** person_email: the e-mail format check (an opaque predicate here) and
      uniqueness within the petition (lines 51-52). */
  function EmailRules(row: Row, ctx: Context, rows: map<int, Row>, emailValid: string -> bool): (r: set<Violation>)
    ensures r == {} <==> emailValid(TextOf(row.personEmail)) && !EmailTaken(rows, row, ctx)
    ensures Violation(PersonEmail, Taken) in r <==> EmailTaken(rows, row, ctx)
    ensures forall v :: v in r ==> v.field == PersonEmail
  {
    (if emailValid(TextOf(row.personEmail)) then {} else {Violation(PersonEmail, Invalid)})
    + (if EmailTaken(rows, row, ctx) then {Violation(PersonEmail, Taken)} else {})
  }

  /** person_function: at most 255 characters, blank is allowed (line 81). */
  function FunctionRule(function_: Option<string>): (r: set<Violation>)
    ensures r == {} <==> function_.None? || IsBlank(function_.value) || |function_.value| <= 255
    ensures r == {} || r == {Violation(PersonFunction, TooLong)}
  {
    if function_.None? || IsBlank(function_.value) then {}
    else if |function_.value| > 255 then {Violation(PersonFunction, TooLong)}
    else {}
  }

  /** A rule that runs only on update and only when its require_* question
      is answered yes (`on: :update, if: ...`). */
  function Gated(ctx: Context, required: bool, rule: set<Violation>): (r: set<Violation>)
    ensures r == (if ctx == OnUpdate && required then rule else {})
  {
    if ctx == OnUpdate && required then rule else {}
  }

  /** person_street_number: an integer literal; nil is not a number. */
  function StreetNumberRule(number: Option<string>): (r: set<Violation>)
    ensures r == {} <==> number.Some? && IsIntegerLiteral(number.value)
    ensures forall v :: v in r ==> v.field == PersonStreetNumber
  {
    if number.Some? && IsIntegerLiteral(number.value) then {} else {Violation(PersonStreetNumber, NotAnInteger)}
  }

  /** person_street_number_suffix: 1..255 characters, blank is allowed. */
  function SuffixRule(suffix: Option<string>): (r: set<Violation>)
    ensures r == {} <==> suffix.None? || IsBlank(suffix.value) || 1 <= |suffix.value| <= 255
    ensures forall v :: v in r ==> v.field == PersonStreetNumberSuffix
  {
    if suffix.None? || IsBlank(suffix.value) then {} else LengthRule(PersonStreetNumberSuffix, suffix, 1, 255)
  }

  /** person_born_at: a date on or before the minimum-age cutoff date
      (validates_date ... on_or_before); no date is an invalid date. */
  function BornAtRule(bornAt: Option<int>, cutoff: int): (r: set<Violation>)
    ensures r == {} <==> bornAt.Some? && bornAt.value <= cutoff
    ensures bornAt.None? ==> r == {Violation(PersonBornAt, InvalidDate)}
    ensures forall v :: v in r ==> v.field == PersonBornAt
  {
    if bornAt.None? then {Violation(PersonBornAt, InvalidDate)}
    else if bornAt.value > cutoff then {Violation(PersonBornAt, AfterCutoff)}
    else {}
  }

  /** The rules that run on every validation: name, e-mail, function. */
  function UnconditionalRules(row: Row, ctx: Context, rows: map<int, Row>, emailValid: string -> bool): (r: set<Violation>)
    ensures r == {} <==> UnconditionallyValid(row, ctx, rows, emailValid)
    ensures forall v :: v in r ==> !IsConditional(v.field)
    ensures Violation(PersonEmail, Taken) in r <==> EmailTaken(rows, row, ctx)
  {
    NameRules(row.personName) + EmailRules(row, ctx, rows, emailValid) + FunctionRule(row.personFunction)
  }

  predicate UnconditionallyValid(row: Row, ctx: Context, rows: map<int, Row>, emailValid: string -> bool)
  {
    && 3 <= |TextOf(row.personName)| <= 255 && MatchesNamePattern(TextOf(row.personName))
    && emailValid(TextOf(row.personEmail)) && !EmailTaken(rows, row, ctx)
    && (row.personFunction.None? || IsBlank(row.personFunction.value) || |row.personFunction.value| <= 255)
  }

  /** The address rules (lines 76-97), all gated by require_full_address?. */
  function AddressRules(row: Row): (r: set<Violation>)
    ensures r == {} <==> AddressValid(row)
    ensures forall v :: v in r ==> v.field in {PersonCity, PersonStreet, PersonStreetNumber, PersonStreetNumberSuffix}
  {
    LengthRule(PersonCity, row.personCity, 3, 255)
    + LengthRule(PersonStreet, row.personStreet, 3, 255)
    + StreetNumberRule(row.personStreetNumber)
    + SuffixRule(row.personStreetNumberSuffix)
  }

  predicate AddressValid(row: Row)
  {
    && 3 <= |TextOf(row.personCity)| <= 255
    && 3 <= |TextOf(row.personStreet)| <= 255
    && row.personStreetNumber.Some? && IsIntegerLiteral(row.personStreetNumber.value)
    && (row.personStreetNumberSuffix.None? || IsBlank(row.personStreetNumberSuffix.value)
        || |row.personStreetNumberSuffix.value| <= 255)
  }

  /** The rules that run only on update, each behind its require_* question. */
  function ConditionalRules(row: Row, ctx: Context, t: Option<PetitionType>, cutoff: int): (r: set<Violation>)
    ensures r == {} <==> ConditionallyValid(row, ctx, t, cutoff)
    ensures forall v :: v in r ==> IsConditional(v.field) && ctx == OnUpdate && AnyRequirement(t)
  {
    Gated(ctx, RequireFullAddress(t), AddressRules(row))
    + Gated(ctx, RequireMinimumAge(t), BornAtRule(row.personBornAt, cutoff))
    + Gated(ctx, RequirePersonCity(t), LengthRule(PersonBirthCity, row.personBirthCity, 3, 255))
  }

  predicate ConditionallyValid(row: Row, ctx: Context, t: Option<PetitionType>, cutoff: int)
  {
    && (ctx == OnUpdate && RequireFullAddress(t) ==> AddressValid(row))
    && (ctx == OnUpdate && RequireMinimumAge(t) ==> row.personBornAt.Some? && row.personBornAt.value <= cutoff)
    && (ctx == OnUpdate && RequirePersonCity(t) ==> 3 <= |TextOf(row.personBirthCity)| <= 255)
  }

  /** The violations all rules find together (Rails collects them all, it
      does not stop at the first). cutoff is the date required_minimum_age
      names, the latest acceptable birth date. */
  function Validate(row: Row, ctx: Context, t: Option<PetitionType>, rows: map<int, Row>,
                    emailValid: string -> bool, cutoff: int): (r: set<Violation>)
    ensures r == {} <==> UnconditionallyValid(row, ctx, rows, emailValid) && ConditionallyValid(row, ctx, t, cutoff)
    ensures forall v :: v in r && IsConditional(v.field) ==> ctx == OnUpdate && AnyRequirement(t)
    ensures Violation(PersonEmail, Taken) in r <==> EmailTaken(rows, row, ctx)
  {
    UnconditionalRules(row, ctx, rows, emailValid) + ConditionalRules(row, ctx, t, cutoff)
  }

  /** On create, and on update when the petition has no type, only the
      name, e-mail and function rules apply: a signature passes with every
      address, birth date and birth city field empty. */
  lemma {:induction false} UngatedValidation(row: Row, ctx: Context, t: Option<PetitionType>, rows: map<int, Row>,
                                             emailValid: string -> bool, cutoff: int)
    requires ctx == OnCreate || t.None?
    ensures Validate(row, ctx, t, rows, emailValid, cutoff) == UnconditionalRules(row, ctx, rows, emailValid)
  {
    assert ConditionalRules(row, ctx, t, cutoff) == {};
  }

  /** With the full-address requirement on, an update that leaves city and
      street empty is refused on both; with it off the same update is not
      refused on either. */
  lemma FullAddressGate(row: Row, t: PetitionType, rows: map<int, Row>, emailValid: string -> bool, cutoff: int)
    requires row.personCity.None? && row.personStreet.None?
    ensures var r := Validate(row, OnUpdate, Some(t), rows, emailValid, cutoff);
      (t.requireSignatureFullAddress ==> Violation(PersonCity, TooShort) in r && Violation(PersonStreet, TooShort) in r)
      && (!t.requireSignatureFullAddress ==> forall v :: v in r ==> v.field != PersonCity && v.field != PersonStreet)
  {
    assert LengthRule(PersonCity, row.personCity, 3, 255) == {Violation(PersonCity, TooShort)};
    assert LengthRule(PersonStreet, row.personStreet, 3, 255) == {Violation(PersonStreet, TooShort)};
  }

  /** A birth-date violation can come from the birth-date rule alone. */
  lemma BornAtOnlyFromItsRule(row: Row, ctx: Context, t: Option<PetitionType>, rows: map<int, Row>,
                              emailValid: string -> bool, cutoff: int, v: Violation)
    requires v.field == PersonBornAt
    ensures v in Validate(row, ctx, t, rows, emailValid, cutoff)
        <==> v in Gated(ctx, RequireMinimumAge(t), BornAtRule(row.personBornAt, cutoff))
  {
    assert v !in UnconditionalRules(row, ctx, rows, emailValid);
    assert v !in Gated(ctx, RequireFullAddress(t), AddressRules(row));
    assert v !in Gated(ctx, RequirePersonCity(t), LengthRule(PersonBirthCity, row.personBirthCity, 3, 255));
  }

  /** With a minimum age set, an update is refused on the birth date exactly
      when the date is later than the cutoff (and as invalid when it is
      missing); a create is never refused on the birth date. */
  lemma MinimumAgeGate(row: Row, t: PetitionType, rows: map<int, Row>, emailValid: string -> bool, cutoff: int)
    requires t.requiredMinimumAge.Some?
    ensures var r := Validate(row, OnUpdate, Some(t), rows, emailValid, cutoff);
      && (Violation(PersonBornAt, AfterCutoff) in r <==> row.personBornAt.Some? && row.personBornAt.value > cutoff)
      && (Violation(PersonBornAt, InvalidDate) in r <==> row.personBornAt.None?)
    ensures forall v :: v in Validate(row, OnCreate, Some(t), rows, emailValid, cutoff) ==> v.field != PersonBornAt
  {
    BornAtOnlyFromItsRule(row, OnUpdate, Some(t), rows, emailValid, cutoff, Violation(PersonBornAt, AfterCutoff));
    BornAtOnlyFromItsRule(row, OnUpdate, Some(t), rows, emailValid, cutoff, Violation(PersonBornAt, InvalidDate));
  }
}
