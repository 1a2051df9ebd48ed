/**
  The contact form and its validation rules (src/form.rs).

  The email-syntax check of the `validator` crate and the HTML cleaner of the
  `ammonia` crate are foreign code: they enter the model as the parameters
  `isEmail` and `clean`, about which nothing is assumed.
*/
module Form {
  import opened Wrappers

  /** A submitted contact form: four text fields and an optional language. */
  datatype FormData = FormData(
    name: string,
    country: string,
    email: string,
    message: string,
    language: Option<string>)

  /** The fields that carry a validation rule; `language` carries none. */
  datatype Field = Name | Country | Email | Message

  const AllFields: seq<Field> := [Name, Country, Email, Message]

  /** Upper bound on `name`, counted in characters. */
  const MaxNameLength: nat := 30
  /** Upper bound on `country`, counted in characters. */
  const MaxCountryLength: nat := 30
  /** Lower bound on `message`, counted in characters. */
  const MinMessageLength: nat := 1

  /** Every field occurs in `AllFields`. */
  lemma AllFieldsComplete()
    ensures forall fld: Field :: fld in AllFields
  {
    forall fld: Field
      ensures fld in AllFields
    {
      match fld
      case Name => assert AllFields[0] == fld;
      case Country => assert AllFields[1] == fld;
      case Email => assert AllFields[2] == fld;
      case Message => assert AllFields[3] == fld;
    }
  }

  /** The identifier under which the validator reports a field. */
  function FieldName(fld: Field): string
  {
    match fld
    case Name => "name"
    case Country => "country"
    case Email => "email"
    case Message => "message"
  }

  /** The rule attached to one field holds of the form. */
  predicate FieldOk(form: FormData, fld: Field, isEmail: string -> bool)
  {
    match fld
    case Name => |form.name| <= MaxNameLength
    case Country => |form.country| <= MaxCountryLength
    case Email => isEmail(form.email)
    case Message => |form.message| >= MinMessageLength
  }

  /** Every field rule holds: what the derived `validate()` accepts. */
  predicate Valid(form: FormData, isEmail: string -> bool)
  {
    forall fld: Field :: FieldOk(form, fld, isEmail)
  }

  /** The fields whose rule fails, i.e. the keys of `field_errors()`. */
  function FailingFields(form: FormData, isEmail: string -> bool): (r: set<Field>)
    ensures forall fld: Field :: fld in r <==> !FieldOk(form, fld, isEmail)
  {
    AllFieldsComplete();
    set fld | fld in AllFields && !FieldOk(form, fld, isEmail)
  }

  /**
    Validity is exactly the conjunction of the four field rules: at most 30
    characters of name and of country (no lower bound), a syntactically valid
    email, and a non-empty message. The language takes no part.
  */
  lemma ValidIff(form: FormData, isEmail: string -> bool)
    ensures Valid(form, isEmail) <==>
      && |form.name| <= 30
      && |form.country| <= 30
      && isEmail(form.email)
      && |form.message| >= 1
  {
    if Valid(form, isEmail) {
      assert FieldOk(form, Name, isEmail);
      assert FieldOk(form, Country, isEmail);
      assert FieldOk(form, Email, isEmail);
      assert FieldOk(form, Message, isEmail);
    }
  }

  /** A form is valid exactly when no field fails. */
  lemma ValidIffNoFailingField(form: FormData, isEmail: string -> bool)
    ensures Valid(form, isEmail) <==> FailingFields(form, isEmail) == {}
  {
    if !Valid(form, isEmail) {
      var fld: Field :| !FieldOk(form, fld, isEmail);
      assert fld in FailingFields(form, isEmail);
    }
  }

  /** The language never affects validity, whether it is absent or any string. */
  lemma LanguageUnconstrained(form: FormData, isEmail: string -> bool, language: Option<string>)
    ensures Valid(form.(language := language), isEmail) == Valid(form, isEmail)
  {
    ValidIff(form, isEmail);
    ValidIff(form.(language := language), isEmail);
  }

  /**
    No minimum length is enforced on name or country: a form whose name and
    country are empty is valid as soon as its email and message are.
  */
  lemma EmptyNameAndCountryAccepted(form: FormData, isEmail: string -> bool)
    requires form.name == [] && form.country == []
    requires isEmail(form.email) && form.message != []
    ensures Valid(form, isEmail)
  {
    ValidIff(form, isEmail);
  }

  /** The message has no upper bound: any non-empty message passes its rule. */
  lemma MessageUnbounded(form: FormData, isEmail: string -> bool, message: string)
    requires Valid(form, isEmail)
    requires message != []
    ensures Valid(form.(message := message), isEmail)
  {
    ValidIff(form, isEmail);
    ValidIff(form.(message := message), isEmail);
  }

  /**
    `FormData::sanitize`: every text field is replaced by `clean` of its old
    value; an absent language stays absent and a present one is cleaned.
  */
  function Sanitize(form: FormData, clean: string -> string): (r: FormData)
    ensures r.name == clean(form.name)
    ensures r.country == clean(form.country)
    ensures r.email == clean(form.email)
    ensures r.message == clean(form.message)
    ensures r.language.None? <==> form.language.None?
    ensures form.language.Some? ==> r.language == Some(clean(form.language.value))
  {
    var language := match form.language
      case None => None
      case Some(l) => Some(clean(l));
    FormData(clean(form.name), clean(form.country), clean(form.email), clean(form.message), language)
  }

  /** Sanitising twice is sanitising once when the cleaner is idempotent. */
  lemma SanitizeIdempotent(form: FormData, clean: string -> string)
    requires forall s :: clean(clean(s)) == clean(s)
    ensures Sanitize(Sanitize(form, clean), clean) == Sanitize(form, clean)
  {
  }

  /** A cleaner that changes nothing leaves the whole form unchanged. */
  lemma SanitizeWithIdentity(form: FormData, clean: string -> string)
    requires forall s :: clean(s) == s
    ensures Sanitize(form, clean) == form
  {
  }
}
