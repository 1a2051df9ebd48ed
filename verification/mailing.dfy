/**
  The `/contact` handler (`relay_message`, src/mailing.rs:58-119): validation
  errors, the plain-text body, and the decision between rejecting the form
  and handing a message to the mail transport.

  The transport is foreign: it enters as the parameter `send`, which says for
  a given message whether delivery succeeded. The order in which the
  validator's error map yields its keys is unspecified, so it enters as the
  parameter `order`, any arrangement of the four fields.
*/
module Mailing {
  import opened Wrappers
  import opened Text
  import opened Form
  import opened Subject

  /** `order` lists each field exactly once. */
  predicate IsFieldOrder(order: seq<Field>)
  {
    && |order| == |AllFields|
    && Distinct(order)
    && forall fld: Field :: fld in order
  }

  /** The message reported for one failing field. */
  function ErrorMessage(fld: Field): string
  {
    "Invalid input in the " + FieldName(fld) + " field"
  }

  /** Different fields are reported with different messages. */
  lemma ErrorMessageInjective(a: Field, b: Field)
    ensures ErrorMessage(a) == ErrorMessage(b) ==> a == b
  {
    // Position 21 is the first letter of the field name, which tells the four apart.
    assert ErrorMessage(a)[21] == FieldName(a)[0];
    assert ErrorMessage(b)[21] == FieldName(b)[0];
  }

  /** The failing fields, in the order the error map yields them. */
  function ReportedFields(order: seq<Field>, form: FormData, isEmail: string -> bool): (r: seq<Field>)
    ensures forall fld :: fld in r <==> fld in order && !FieldOk(form, fld, isEmail)
    ensures Distinct(order) ==> Distinct(r)
    ensures |r| <= |order|
  {
    if order == [] then []
    else
      var rest := ReportedFields(order[1..], form, isEmail);
      if FieldOk(form, order[0], isEmail) then rest
      else
        assert order[0] !in order[1..] ==> order[0] !in rest;
        [order[0]] + rest
  }

  /** One message per field, in the same order. */
  function Messages(fields: seq<Field>): seq<string>
  {
    seq(|fields|, i requires 0 <= i < |fields| => ErrorMessage(fields[i]))
  }

  /** The messages name exactly the given fields, and repeat none when the fields repeat none. */
  lemma MessagesNameFields(fields: seq<Field>)
    requires Distinct(fields)
    ensures Distinct(Messages(fields))
    ensures forall fld: Field :: ErrorMessage(fld) in Messages(fields) <==> fld in fields
  {
    var r := Messages(fields);
    forall i, j | 0 <= i < j < |r|
      ensures r[i] != r[j]
    {
      ErrorMessageInjective(fields[i], fields[j]);
    }
    forall fld: Field
      ensures ErrorMessage(fld) in r <==> fld in fields
    {
      if ErrorMessage(fld) in r {
        var i :| 0 <= i < |r| && r[i] == ErrorMessage(fld);
        ErrorMessageInjective(fields[i], fld);
      }
      if fld in fields {
        var i :| 0 <= i < |fields| && fields[i] == fld;
        assert r[i] == ErrorMessage(fld);
      }
    }
  }

  /**
    The JSON error list of a rejected form: exactly one message per failing
    field, each naming its field, and no message at all for a valid form.
  */
  function ErrorMessages(form: FormData, isEmail: string -> bool, order: seq<Field>): (r: seq<string>)
    requires IsFieldOrder(order)
    ensures |r| == |FailingFields(form, isEmail)|
    ensures Distinct(r)
    ensures forall fld: Field :: ErrorMessage(fld) in r <==> !FieldOk(form, fld, isEmail)
    ensures forall i :: 0 <= i < |r| ==> exists fld: Field :: !FieldOk(form, fld, isEmail) && r[i] == ErrorMessage(fld)
    ensures r == [] <==> Valid(form, isEmail)
  {
    var fields := ReportedFields(order, form, isEmail);
    assert (set x | x in fields) == FailingFields(form, isEmail);
    DistinctCardinality(fields);
    MessagesNameFields(fields);
    ValidIffNoFailingField(form, isEmail);
    var r := Messages(fields);
    assert forall i :: 0 <= i < |r| ==> fields[i] in fields && r[i] == ErrorMessage(fields[i]);
    r
  }

  /** A form whose only fault is its email is rejected with the single email message. */
  lemma MalformedEmailReported(form: FormData, isEmail: string -> bool, order: seq<Field>)
    requires IsFieldOrder(order)
    requires !isEmail(form.email)
    requires |form.name| <= MaxNameLength && |form.country| <= MaxCountryLength
    requires |form.message| >= MinMessageLength
    ensures ErrorMessages(form, isEmail, order) == ["Invalid input in the email field"]
  {
    assert FailingFields(form, isEmail) == {Email};
    var r := ErrorMessages(form, isEmail, order);
    assert |r| == 1;
    assert ErrorMessage(Email) in r;
    assert r == [ErrorMessage(Email)];
    assert ErrorMessage(Email) == "Invalid input in the email field";
  }

  const NameLabel: string := "Name: "
  const LocationLabel: string := "\n\nLocation: "
  const EmailLabel: string := "\n\nEmail: "
  const MessageLabel: string := "\n\nMessage: "

  /** The plain-text body of the relayed message. */
  function Body(form: FormData): (r: string)
    ensures |r| == |form.name| + |form.country| + |form.email| + |form.message| + 38
  {
    NameLabel + form.name + LocationLabel + form.country + EmailLabel + form.email + MessageLabel + form.message
  }

  /** The four fields a body carries. */
  datatype BodyFields = BodyFields(name: string, country: string, email: string, message: string)

  /** Splits `s` before its first line break. */
  function SplitLine(s: string): (r: (string, string))
    ensures r.0 + r.1 == s
    ensures '\n' !in r.0
    ensures r.1 == [] || r.1[0] == '\n'
  {
    var i := IndexOf(s, '\n');
    assert s[..i] + s[i..] == s;
    (s[..i], s[i..])
  }

  /** Removes `lead` from the front of `s`, if it is there. */
  function StripLabel(lead: string, s: string): (r: Option<string>)
    ensures r.Some? <==> lead <= s
    ensures r.Some? ==> s == lead + r.value
  {
    if lead <= s then
      assert s == lead + s[|lead|..];
      Some(s[|lead|..])
    else None
  }

  /** Removes `lead` from the front of `s` and splits what follows before its first line break. */
  function TakeField(lead: string, s: string): (r: Option<(string, string)>)
    ensures r.Some? ==> s == lead + (r.value.0 + r.value.1) && '\n' !in r.value.0
  {
    match StripLabel(lead, s)
    case None => None
    case Some(rest) => Some(SplitLine(rest))
  }

  /**
    Reads a body back into its fields: name, country and email each run to the
    next line break, the message takes the rest.
  */
  function ParseBody(body: string): Option<BodyFields>
  {
    match TakeField(NameLabel, body)
    case None => None
    case Some((name, s1)) =>
      match TakeField(LocationLabel, s1)
      case None => None
      case Some((country, s2)) =>
        match TakeField(EmailLabel, s2)
        case None => None
        case Some((email, s3)) =>
          match StripLabel(MessageLabel, s3)
          case None => None
          case Some(message) => Some(BodyFields(name, country, email, message))
  }

  /** A lead followed by anything strips back to that thing. */
  lemma StripLabelAppend(lead: string, rest: string)
    ensures StripLabel(lead, lead + rest) == Some(rest)
  {
    assert lead <= lead + rest;
    assert (lead + rest)[|lead|..] == rest;
  }

  /** A line without breaks, followed by something that starts with one, splits where they meet. */
  lemma SplitLineAt(a: string, b: string)
    requires '\n' !in a
    requires b != [] && b[0] == '\n'
    ensures SplitLine(a + b) == (a, b)
  {
    IndexOfAfter(a, b, '\n');
    assert IndexOf(b, '\n') == 0;
    var s := a + b;
    assert s[..|a|] == a;
    assert s[|a|..] == b;
  }

  /** The body, grouped from the right: each label or field followed by the rest. */
  lemma BodyGrouped(form: FormData)
    ensures Body(form) ==
      NameLabel + (form.name + (LocationLabel + (form.country + (EmailLabel + (form.email + (MessageLabel + form.message))))))
  {
    var t6 := MessageLabel + form.message;
    var t5 := form.email + t6;
    var t4 := EmailLabel + t5;
    var t3 := form.country + t4;
    var t2 := LocationLabel + t3;
    var t1 := form.name + t2;
    assert NameLabel + form.name + LocationLabel + form.country + EmailLabel + form.email + t6
        == NameLabel + form.name + LocationLabel + form.country + EmailLabel + t5;
    assert NameLabel + form.name + LocationLabel + form.country + EmailLabel + t5
        == NameLabel + form.name + LocationLabel + form.country + t4;
    assert NameLabel + form.name + LocationLabel + form.country + t4
        == NameLabel + form.name + LocationLabel + t3;
    assert NameLabel + form.name + LocationLabel + t3 == NameLabel + form.name + t2;
    assert NameLabel + form.name + t2 == NameLabel + t1;
  }

  /** A field without line breaks, between its lead and a later label, is taken whole. */
  lemma TakeFieldAt(lead: string, a: string, b: string)
    requires '\n' !in a
    requires b != [] && b[0] == '\n'
    ensures TakeField(lead, lead + (a + b)) == Some((a, b))
  {
    StripLabelAppend(lead, a + b);
    SplitLineAt(a, b);
  }

  /**
    The body layout can be read back: when name, country and email contain no
    line break, parsing the body returns the four fields unchanged.
  */
  lemma BodyRoundTrip(form: FormData)
    requires '\n' !in form.name && '\n' !in form.country && '\n' !in form.email
    ensures ParseBody(Body(form)) == Some(BodyFields(form.name, form.country, form.email, form.message))
  {
    var t3 := MessageLabel + form.message;
    var t2 := EmailLabel + (form.email + t3);
    var t1 := LocationLabel + (form.country + t2);
    BodyGrouped(form);
    TakeFieldAt(NameLabel, form.name, t1);
    TakeFieldAt(LocationLabel, form.country, t2);
    TakeFieldAt(EmailLabel, form.email, t3);
    StripLabelAppend(MessageLabel, form.message);
  }

  /** Whatever parses is exactly the body of the fields it parses to, whatever the language. */
  lemma ParseBodySound(body: string, language: Option<string>)
    ensures ParseBody(body).Some? ==>
      var f := ParseBody(body).value;
      && '\n' !in f.name && '\n' !in f.country && '\n' !in f.email
      && body == Body(FormData(f.name, f.country, f.email, f.message, language))
  {
    if ParseBody(body).None? {
      return;
    }
    var (name, s1) := TakeField(NameLabel, body).value;
    var (country, s2) := TakeField(LocationLabel, s1).value;
    var (email, s3) := TakeField(EmailLabel, s2).value;
    var message := StripLabel(MessageLabel, s3).value;
    assert ParseBody(body) == Some(BodyFields(name, country, email, message));
    BodyGrouped(FormData(name, country, email, message, language));
  }

  /** The parts of the configuration file the handler reads. */
  datatype Config = Config(user: string, pwd: string, forwardAddress: string, server: string, listenAddress: string)

  /** The message handed to the transport. */
  datatype Mail = Mail(from: string, replyTo: string, to: string, subject: string, body: string)

  /** The transport's verdict on one message. */
  datatype Delivery = Delivered | DeliveryFailed(reason: string)

  /** The HTTP response of the handler. */
  datatype Response =
    | BadRequest(errors: seq<string>)
    | Ok(text: string)
    | InternalServerError(text: string)

  /** What one request produced: the response, and the message sent, if any. */
  datatype Handled = Handled(response: Response, sent: Option<Mail>)

  const SuccessText: string := "Message sent successfully"
  const FailurePrefix: string := "Failed to send message: "

  /** The HTTP status of a response. */
  function StatusCode(r: Response): nat
  {
    match r
    case BadRequest(_) => 400
    case Ok(_) => 200
    case InternalServerError(_) => 500
  }

  /** The message built from a sanitised form: sent from and replying to the submitter. */
  function BuildMail(form: FormData, config: Config): Mail
  {
    Mail(form.email, form.email, config.forwardAddress, SubjectOf(form), Body(form))
  }

  /**
    `relay_message`: an invalid form is rejected with its error list before
    anything is cleaned or sent; a valid one is sanitised, turned into a
    message, and the transport's verdict decides between 200 and 500.
  */
  function RelayMessage(
    config: Config,
    form: FormData,
    isEmail: string -> bool,
    clean: string -> string,
    order: seq<Field>,
    send: Mail -> Delivery
  ): (h: Handled)
    requires IsFieldOrder(order)
    ensures h.sent.None? <==> !Valid(form, isEmail)
    ensures h.response.BadRequest? <==> !Valid(form, isEmail)
    ensures !Valid(form, isEmail) ==> h.response == BadRequest(ErrorMessages(form, isEmail, order))
    ensures h.sent.Some? ==> h.sent.value == BuildMail(Sanitize(form, clean), config)
    ensures h.sent.Some? ==> (h.response == Ok(SuccessText) <==> send(h.sent.value) == Delivered)
    ensures h.sent.Some? && send(h.sent.value).DeliveryFailed? ==>
      h.response == InternalServerError(FailurePrefix + send(h.sent.value).reason)
  {
    if !Valid(form, isEmail) then
      Handled(BadRequest(ErrorMessages(form, isEmail, order)), None)
    else
      var cleaned := Sanitize(form, clean);
      var mail := BuildMail(cleaned, config);
      match send(mail)
      case Delivered => Handled(Ok(SuccessText), Some(mail))
      case DeliveryFailed(reason) => Handled(InternalServerError(FailurePrefix + reason), Some(mail))
  }

  /**
    A rejected request depends on nothing downstream of validation: neither
    the cleaner, nor the transport, nor the configuration changes it, and its
    error list is never empty.
  */
  lemma RejectionPrecedesRelay(
    config1: Config, config2: Config,
    form: FormData,
    isEmail: string -> bool,
    clean1: string -> string, clean2: string -> string,
    order: seq<Field>,
    send1: Mail -> Delivery, send2: Mail -> Delivery)
    requires IsFieldOrder(order)
    requires !Valid(form, isEmail)
    ensures RelayMessage(config1, form, isEmail, clean1, order, send1)
         == RelayMessage(config2, form, isEmail, clean2, order, send2)
    ensures RelayMessage(config1, form, isEmail, clean1, order, send1).response.errors != []
  {
  }

  /**
    The status of the response: 400 for an invalid form, otherwise 200 or 500
    as the transport delivers the message built from the sanitised form or not.
  */
  lemma RelayStatusCode(
    config: Config,
    form: FormData,
    isEmail: string -> bool,
    clean: string -> string,
    order: seq<Field>,
    send: Mail -> Delivery)
    requires IsFieldOrder(order)
    ensures StatusCode(RelayMessage(config, form, isEmail, clean, order, send).response) ==
      if !Valid(form, isEmail) then 400
      else if send(BuildMail(Sanitize(form, clean), config)) == Delivered then 200
      else 500
  {
    var h := RelayMessage(config, form, isEmail, clean, order, send);
    if Valid(form, isEmail) {
      assert h.sent == Some(BuildMail(Sanitize(form, clean), config));
    }
  }

  /**
    Every accepted form's message is addressed from and to the right parties,
    and its subject reads back as the cleaned language branch and the cleaned
    country.
  */
  lemma AcceptedMailSubject(
    config: Config,
    form: FormData,
    isEmail: string -> bool,
    clean: string -> string,
    order: seq<Field>,
    send: Mail -> Delivery)
    requires IsFieldOrder(order)
    requires Valid(form, isEmail)
    ensures var h := RelayMessage(config, form, isEmail, clean, order, send);
      && h.sent.Some?
      && h.sent.value.from == clean(form.email)
      && h.sent.value.replyTo == clean(form.email)
      && h.sent.value.to == config.forwardAddress
      && h.sent.value.subject == TableSubject(Sanitize(form, clean).language, clean(form.country))
      && (form.language.None? ==>
            ClassifySubject(h.sent.value.subject) == Some(LanguageMissing(clean(form.country))))
      && (forall i :: 0 <= i < |Templates| && Sanitize(form, clean).language == Some(Templates[i].language) ==>
            ClassifySubject(h.sent.value.subject) == Some(Answer(Templates[i].language, clean(form.country))))
  {
    var cleaned := Sanitize(form, clean);
    SubjectMatchesTable(cleaned);
    ClassifySubjectRoundTrip(cleaned);
  }

  /**
    When the cleaned name, country and email contain no line break, an
    accepted form's message body reads back as the four cleaned fields.
  */
  lemma AcceptedMailBody(
    config: Config,
    form: FormData,
    isEmail: string -> bool,
    clean: string -> string,
    order: seq<Field>,
    send: Mail -> Delivery)
    requires IsFieldOrder(order)
    requires Valid(form, isEmail)
    requires '\n' !in clean(form.name) && '\n' !in clean(form.country) && '\n' !in clean(form.email)
    ensures var h := RelayMessage(config, form, isEmail, clean, order, send);
      && h.sent.Some?
      && ParseBody(h.sent.value.body)
         == Some(BodyFields(clean(form.name), clean(form.country), clean(form.email), clean(form.message)))
  {
    BodyRoundTrip(Sanitize(form, clean));
  }
}
