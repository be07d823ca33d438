/** What the model serializers' `is_valid()` checks for each record kind, and
    the per-field errors it reports. Every field is checked and every
    violation reported together; the payload is valid exactly when no
    violation is reported. Email syntax is the opaque predicate `isEmail`. */
module Validation {
  import opened Models

  /** The field names errors are keyed by. */
  datatype Field =
    | Cpf | Name | Zipcode | Email | PhoneNumber
    | Cnpj | SocialReason | FantasyName | StateRegistration | Owner
    | GoodType

  /** One reported violation, attached to the field it concerns. */
  datatype Violation =
    | TooLong(field: Field)
    | NotUnique(field: Field)
    | InvalidChoice(field: Field)
    | InvalidEmail(field: Field)

  function Flag(failed: bool, v: Violation): set<Violation> {
    if failed then {v} else {}
  }

  /** The errors for a natural-person payload. `instance` is the id of the
      record a PUT updates, which the cpf uniqueness check ignores. */
  function PhysicalErrors(p: PhysicalPerson, people: map<nat, PhysicalPerson>,
                          instance: Option<nat>, isEmail: string -> bool): (errs: set<Violation>)
    ensures errs == {} <==> PhysicalFits(p) && isEmail(p.email) && CpfFree(people, p.cpf, instance)
    ensures TooLong(Cpf) in errs <==> |p.cpf| > MaxCpf
    ensures NotUnique(Cpf) in errs <==> !CpfFree(people, p.cpf, instance)
    ensures TooLong(Name) in errs <==> |p.name| > MaxName
    ensures TooLong(Zipcode) in errs <==> |p.zipcode| > MaxZipcode
    ensures InvalidEmail(Email) in errs <==> !isEmail(p.email)
    ensures TooLong(PhoneNumber) in errs <==> |p.phoneNumber| > MaxPhoneNumber
    ensures forall v :: v in errs ==>
      v in {TooLong(Cpf), NotUnique(Cpf), TooLong(Name), TooLong(Zipcode), InvalidEmail(Email), TooLong(PhoneNumber)}
  {
    Flag(|p.cpf| > MaxCpf, TooLong(Cpf))
    + Flag(!CpfFree(people, p.cpf, instance), NotUnique(Cpf))
    + Flag(|p.name| > MaxName, TooLong(Name))
    + Flag(|p.zipcode| > MaxZipcode, TooLong(Zipcode))
    + Flag(!isEmail(p.email), InvalidEmail(Email))
    + Flag(|p.phoneNumber| > MaxPhoneNumber, TooLong(PhoneNumber))
  }

  /** The errors for a legal-entity payload; `owner` is checked for length
      only, its existence is the view's separate concern. */
  function LegalErrors(l: LegalPerson, legal: map<nat, LegalPerson>,
                       instance: Option<nat>, isEmail: string -> bool): (errs: set<Violation>)
    ensures errs == {} <==> LegalFits(l) && isEmail(l.email) && CnpjFree(legal, l.cnpj, instance)
    ensures TooLong(Cnpj) in errs <==> |l.cnpj| > MaxCnpj
    ensures NotUnique(Cnpj) in errs <==> !CnpjFree(legal, l.cnpj, instance)
    ensures TooLong(SocialReason) in errs <==> |l.socialReason| > MaxSocialReason
    ensures TooLong(FantasyName) in errs <==> |l.fantasyName| > MaxFantasyName
    ensures TooLong(StateRegistration) in errs <==> |l.stateRegistration| > MaxStateRegistration
    ensures TooLong(Zipcode) in errs <==> |l.zipcode| > MaxZipcode
    ensures InvalidEmail(Email) in errs <==> !isEmail(l.email)
    ensures TooLong(PhoneNumber) in errs <==> |l.phoneNumber| > MaxPhoneNumber
    ensures TooLong(Owner) in errs <==> |l.owner| > MaxOwner
    ensures forall v :: v in errs ==>
      v in LegalKeyViolations + LegalLengthViolations
  {
    LegalKeyErrors(l, legal, instance, isEmail) + LegalLengthErrors(l)
  }

  /** The violations a legal entity's cnpj, email and owner can raise. */
  const LegalKeyViolations: set<Violation> :=
    {TooLong(Cnpj), NotUnique(Cnpj), InvalidEmail(Email), TooLong(Owner)}

  /** The violations the remaining fields of a legal entity can raise. */
  const LegalLengthViolations: set<Violation> :=
    {TooLong(SocialReason), TooLong(FantasyName), TooLong(StateRegistration), TooLong(Zipcode), TooLong(PhoneNumber)}

  /** The errors on the cnpj, the email and the owner of a legal entity. */
  function LegalKeyErrors(l: LegalPerson, legal: map<nat, LegalPerson>,
                          instance: Option<nat>, isEmail: string -> bool): (errs: set<Violation>)
    ensures errs == {} <==>
      |l.cnpj| <= MaxCnpj && CnpjFree(legal, l.cnpj, instance) && isEmail(l.email) && |l.owner| <= MaxOwner
    ensures TooLong(Cnpj) in errs <==> |l.cnpj| > MaxCnpj
    ensures NotUnique(Cnpj) in errs <==> !CnpjFree(legal, l.cnpj, instance)
    ensures InvalidEmail(Email) in errs <==> !isEmail(l.email)
    ensures TooLong(Owner) in errs <==> |l.owner| > MaxOwner
    ensures errs <= LegalKeyViolations
  {
    Flag(|l.cnpj| > MaxCnpj, TooLong(Cnpj))
    + Flag(!CnpjFree(legal, l.cnpj, instance), NotUnique(Cnpj))
    + Flag(!isEmail(l.email), InvalidEmail(Email))
    + Flag(|l.owner| > MaxOwner, TooLong(Owner))
  }

  /** The maximum-length errors on the remaining fields of a legal entity. */
  function LegalLengthErrors(l: LegalPerson): (errs: set<Violation>)
    ensures errs == {} <==>
      && |l.socialReason| <= MaxSocialReason
      && |l.fantasyName| <= MaxFantasyName
      && |l.stateRegistration| <= MaxStateRegistration
      && |l.zipcode| <= MaxZipcode
      && |l.phoneNumber| <= MaxPhoneNumber
    ensures TooLong(SocialReason) in errs <==> |l.socialReason| > MaxSocialReason
    ensures TooLong(FantasyName) in errs <==> |l.fantasyName| > MaxFantasyName
    ensures TooLong(StateRegistration) in errs <==> |l.stateRegistration| > MaxStateRegistration
    ensures TooLong(Zipcode) in errs <==> |l.zipcode| > MaxZipcode
    ensures TooLong(PhoneNumber) in errs <==> |l.phoneNumber| > MaxPhoneNumber
    ensures errs <= LegalLengthViolations
  {
    Flag(|l.socialReason| > MaxSocialReason, TooLong(SocialReason))
    + Flag(|l.fantasyName| > MaxFantasyName, TooLong(FantasyName))
    + Flag(|l.stateRegistration| > MaxStateRegistration, TooLong(StateRegistration))
    + Flag(|l.zipcode| > MaxZipcode, TooLong(Zipcode))
    + Flag(|l.phoneNumber| > MaxPhoneNumber, TooLong(PhoneNumber))
  }

  /** The errors for a good payload. A field with choices is checked against
      the choices only; GoodsTypeFitsMaxLength shows that this also keeps
      `good_type` within its declared length. No field of a good is unique. */
  function GoodErrors(g: Good): (errs: set<Violation>)
    ensures errs == {} <==> GoodFits(g)
    ensures errs == {} ==> |g.goodType| <= MaxGoodType
    ensures InvalidChoice(GoodType) in errs <==> g.goodType !in GoodsType
    ensures TooLong(Owner) in errs <==> |g.owner| > MaxOwner
    ensures errs <= {InvalidChoice(GoodType), TooLong(Owner)}
  {
    GoodsTypeFitsMaxLength(g.goodType);
    Flag(g.goodType !in GoodsType, InvalidChoice(GoodType))
    + Flag(|g.owner| > MaxOwner, TooLong(Owner))
  }
}
