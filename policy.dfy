/** The petition configuration a signature is validated against, and the
    require_* questions the signature asks of it
    (app/models/signature.rb, require_full_address? .. require_person_country?). */
module Policy {
  import opened Options
  import Text

  /** The petition type's settings that the signature reads. A nil boolean
      setting reads as false, as ActiveRecord's attribute query does. */
  datatype PetitionType = PetitionType(
    requireSignatureFullAddress: bool,
    requirePersonBornAt: bool,
    requiredMinimumAge: Option<int>,
    requirePersonBirthCity: bool,
    countryCode: Option<string>)

  /** The petition a signature belongs to, with its (optional) type. */
  datatype Petition = Petition(id: int, petitionType: Option<PetitionType>)

  /** The signature's petition_type, reached through its petition. */
  function TypeOf(petition: Option<Petition>): (t: Option<PetitionType>)
    ensures petition.None? ==> t.None?
    ensures petition.Some? ==> t == petition.value.petitionType
  {
    if petition.Some? then petition.value.petitionType else None
  }

  /** Object#present? on an optional string: set and not blank. */
  predicate IsPresent(s: Option<string>)
  {
    s.Some? && !Text.IsBlank(s.value)
  }

  /** require_full_address?: only a petition type can ask for it. */
  function RequireFullAddress(t: Option<PetitionType>): (b: bool)
    ensures t.None? ==> !b
    ensures t.Some? ==> (b <==> t.value.requireSignatureFullAddress)
  {
    t.Some? && t.value.requireSignatureFullAddress
  }

  /** require_born_at?: asked for by the type's born-at setting. */
  function RequireBornAt(t: Option<PetitionType>): (b: bool)
    ensures t.None? ==> !b
    ensures t.Some? ==> (b <==> t.value.requirePersonBornAt)
  {
    t.Some? && t.value.requirePersonBornAt
  }

  /** require_minimum_age?: the type names a minimum age at all (an integer
      is never blank, so only nil fails present?). */
  function RequireMinimumAge(t: Option<PetitionType>): (b: bool)
    ensures t.None? ==> !b
    ensures t.Some? ==> (b <==> t.value.requiredMinimumAge.Some?)
  {
    t.Some? && t.value.requiredMinimumAge.Some?
  }

  /** require_person_city?: asked for by the birth city setting. */
  function RequirePersonCity(t: Option<PetitionType>): (b: bool)
    ensures t.None? ==> !b
    ensures t.Some? ==> (b <==> t.value.requirePersonBirthCity)
  {
    t.Some? && t.value.requirePersonBirthCity
  }

  /** require_person_country?: the type's country code is set and not blank. */
  function RequirePersonCountry(t: Option<PetitionType>): (b: bool)
    ensures t.None? ==> !b
    ensures b ==> t.value.countryCode.Some? && !Text.IsBlank(t.value.countryCode.value)
    ensures t.Some? && t.value.countryCode.Some? && !Text.IsBlank(t.value.countryCode.value) ==> b
  {
    t.Some? && IsPresent(t.value.countryCode)
  }

  /** Whether any of the require_* questions is answered yes; without a
      petition type none is. */
  function AnyRequirement(t: Option<PetitionType>): (b: bool)
    ensures b <==> (RequireFullAddress(t) || RequireBornAt(t) || RequireMinimumAge(t)
                    || RequirePersonCity(t) || RequirePersonCountry(t))
    ensures t.None? ==> !b
  {
    match t
    case None => false
    case Some(pt) =>
      pt.requireSignatureFullAddress || pt.requirePersonBornAt || pt.requiredMinimumAge.Some?
      || pt.requirePersonBirthCity || IsPresent(pt.countryCode)
  }
}
