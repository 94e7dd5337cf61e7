/**
 * ValidPhoneNumberWithCountryValidator: the class-level constraint that
 * checks a DTO's phone number against its country code. libphonenumber's
 * parse and isValidNumber are parameters.
 */
module Phone {
  import opened Wrappers
  import opened JavaStrings

  /** The attributes of the @ValidPhoneNumberWithCountry annotation. */
  datatype Constraint = Constraint(phoneField: string, countryCodeField: string, message: string, allowNullFields: bool)

  /** The validated object: null, one whose properties cannot be read, or the two property values. */
  datatype Subject =
    | NullDto
    | Unreadable
    | Readable(phone: Option<string>, countryCode: Option<string>)

  /** The parsed number, as far as the validator uses it. */
  datatype PhoneNumber = PhoneNumber(countryCode: nat, nationalNumber: nat)

  /**
   * libphonenumber: parse(number, region) yields None where it throws
   * NumberParseException; a null region accepts only numbers in
   * international form.
   */
  datatype PhoneLib = PhoneLib(parse: (string, Option<string>) -> Option<PhoneNumber>, isValidNumber: PhoneNumber -> bool)

  /** The verdict, with the violation the validator builds when it rejects. */
  datatype Verdict =
    | Valid
    | Invalid(message: string, propertyNode: Option<string>)

  const ReadFailureMessage: string := "Internal error while accessing DTO properties for validation."
  const PhoneRequiredMessage: string := "Phone number is required when country code is provided for validation."
  const CountryRequiredMessage: string := "Country code is required to validate the provided phone number."

  function UnrecognizedMessage(country: string): string {
    "The phone number format is not recognized for the country " + ToUpper(country) + "."
  }

  /** A field counts as provided when it is non-null and not blank. */
  predicate Provided(s: Option<string>) {
    s.Some? && !IsBlank(s.value)
  }

  /** The phone number parsed without a region is a valid number. */
  predicate ValidInternational(lib: PhoneLib, phone: string) {
    var n := lib.parse(phone, None);
    n.Some? && lib.isValidNumber(n.value)
  }

  /** The phone number parsed for the upper-cased country is a valid number. */
  predicate ValidForCountry(lib: PhoneLib, phone: string, country: string) {
    var n := lib.parse(phone, Some(ToUpper(country)));
    n.Some? && lib.isValidNumber(n.value)
  }

  /** isValid: the validator's decision tree. */
  function IsValid(c: Constraint, lib: PhoneLib, dto: Subject): (v: Verdict)
    ensures dto.NullDto? ==> v == Valid
    ensures dto.Unreadable? ==> v == Invalid(ReadFailureMessage, None)
    ensures dto.Readable? && !Provided(dto.phone) && !Provided(dto.countryCode) ==> v == Valid
    ensures dto.Readable? && !Provided(dto.phone) && Provided(dto.countryCode)
            ==> (v.Invalid? <==> !c.allowNullFields) && (v.Invalid? ==> v == Invalid(PhoneRequiredMessage, Some(c.phoneField)))
    ensures dto.Readable? && Provided(dto.phone) && !Provided(dto.countryCode)
            ==> (v.Invalid? <==> !ValidInternational(lib, dto.phone.value) && !c.allowNullFields)
                && (v.Invalid? ==> v == Invalid(CountryRequiredMessage, Some(c.countryCodeField)))
    ensures dto.Readable? && Provided(dto.phone) && Provided(dto.countryCode)
            ==> (v.Valid? <==> ValidForCountry(lib, dto.phone.value, dto.countryCode.value))
    ensures v.Invalid? && dto.Readable? ==> v.propertyNode.Some?
  {
    match dto
    case NullDto => Valid
    case Unreadable => Invalid(ReadFailureMessage, None)
    case Readable(phone, country) =>
      var phoneProvided := Provided(phone);
      var countryProvided := Provided(country);
      if c.allowNullFields && !phoneProvided && !countryProvided then Valid
      else if !phoneProvided || !countryProvided then
        if !phoneProvided && countryProvided then
          if !c.allowNullFields then Invalid(PhoneRequiredMessage, Some(c.phoneField)) else Valid
        else if phoneProvided && !countryProvided then
          if ValidInternational(lib, phone.value) then Valid
          else if !c.allowNullFields then Invalid(CountryRequiredMessage, Some(c.countryCodeField))
          else Valid
        else Valid
      else
        match lib.parse(phone.value, Some(ToUpper(country.value)))
        case None => Invalid(UnrecognizedMessage(country.value), Some(c.phoneField))
        case Some(n) => if lib.isValidNumber(n) then Valid else Invalid(c.message, Some(c.phoneField))
  }

  /**
   * An independent reading of the rules: a readable DTO is rejected
   * exactly when its properties cannot be read, when both fields are given
   * and do not form a valid number, or, without allowNullFields, when
   * exactly one is given and it is not an internationally valid phone.
   */
  predicate Rejects(c: Constraint, lib: PhoneLib, dto: Subject) {
    match dto
    case NullDto => false
    case Unreadable => true
    case Readable(phone, country) =>
      if Provided(phone) && Provided(country) then !ValidForCountry(lib, phone.value, country.value)
      else if Provided(phone) then !c.allowNullFields && !ValidInternational(lib, phone.value)
      else Provided(country) && !c.allowNullFields
  }

  lemma IsValidMatchesRules(c: Constraint, lib: PhoneLib, dto: Subject)
    ensures IsValid(c, lib, dto).Invalid? <==> Rejects(c, lib, dto)
  {
  }

  /** allowNullFields only ever relaxes the constraint. */
  lemma AllowNullFieldsOnlyRelaxes(c: Constraint, lib: PhoneLib, dto: Subject)
    ensures IsValid(c.(allowNullFields := false), lib, dto).Valid? ==> IsValid(c.(allowNullFields := true), lib, dto).Valid?
  {
  }

  /** Without a phone number libphonenumber is never consulted. */
  lemma NoPhoneNoLibrary(c: Constraint, lib1: PhoneLib, lib2: PhoneLib, phone: Option<string>, country: Option<string>)
    requires !Provided(phone)
    ensures IsValid(c, lib1, Readable(phone, country)) == IsValid(c, lib2, Readable(phone, country))
  {
  }

  /** Upper-casing a string twice is upper-casing it once. */
  lemma ToUpperIdempotent(s: string)
    ensures ToUpper(ToUpper(s)) == ToUpper(s)
  {
  }

  /** Upper-casing keeps blank strings blank and others not blank. */
  lemma ToUpperKeepsBlank(s: string)
    ensures IsBlank(ToUpper(s)) <==> IsBlank(s)
  {
    if !IsBlank(s) {
      var i :| 0 <= i < |s| && !IsWhitespace(s[i]);
      assert !IsWhitespace(ToUpper(s)[i]);
    }
  }

  /** The country code's case does not matter. */
  lemma CountryCaseIrrelevant(c: Constraint, lib: PhoneLib, phone: Option<string>, country: string)
    ensures IsValid(c, lib, Readable(phone, Some(ToUpper(country)))).Valid?
        <==> IsValid(c, lib, Readable(phone, Some(country))).Valid?
  {
    ToUpperIdempotent(country);
    ToUpperKeepsBlank(country);
  }
}
