# relay-mailer: verified model of the contact-form handler

relay-mailer is a small Rust web service with one endpoint, `POST /contact`.
The endpoint takes a contact form (name, country, email, message and an
optional language). It validates the form and cleans its fields of HTML.
It then forwards the form as an email to a configured address. The subject of
that email depends on the submitter's language.

This Dafny project models the logic the repository itself implements:

- `form.dfy` (module `Form`) covers `FormData` and its validation rules as a
  validity predicate, plus `FormData::sanitize`.
- `subject.dfy` (module `Subject`) covers `create_subject_by_lang`: six fixed
  language templates, the placeholder for a missing language, and the
  catch-all subject.
- `mailing.dfy` (module `Mailing`) covers `relay_message`. That means the
  validation error list, the plain-text body, the message handed to the
  transport, and the HTTP response.
- `text.dfy` (module `Text`) holds string facts shared by the above (first
  line break, prefixes that diverge). `wrappers.dfy` holds the `Option` type.

Foreign code enters as function-typed parameters, and nothing is assumed
about it:

- `isEmail` is the `validator` crate's email-syntax check.
- `clean` is `ammonia::clean`.
- `send` is the SMTP transport's verdict on one message.
- `order` is the unspecified iteration order of the validator's error map.

The subject, the body and validity are each paired with an independent
partner and lemmas linking the two:

- The subject chain of string comparisons is proved equal to a lookup in a
  table of templates. A decoder, `ClassifySubject`, reads any subject back
  into its language branch and country.
- The body has a parser, `ParseBody`, and round-trip lemmas in both
  directions.
- Validity is proved to be exactly "no failing field". It is also proved to
  hold exactly when the error list is empty.

Lengths are counted in Unicode scalar values, as the validator counts
`chars()`. The language match compares strings exactly. There is no case
folding and no Unicode normalisation.

The doc comment on `FormData` (src/form.rs:6-9) says name and country have a
minimum length of 1. The validation attributes (src/form.rs:15-19) enforce
only the maximum of 30. The model follows the attributes: an empty name or country is valid.
`Form.EmptyNameAndCountryAccepted` states this.

## Model

| member | source | states |
|---|---|---|
| Form.ValidIff | src/form.rs:13-28 | a form is valid exactly when name and country have at most 30 characters, the email passes the email check, and the message has at least 1 character |
| Form.FailingFields | src/form.rs:15-25 | a field fails exactly when its own rule (length bound or email check) does not hold |
| Form.ValidIffNoFailingField | src/form.rs:13-28 | validation succeeds exactly when no field fails |
| Form.LanguageUnconstrained | src/form.rs:27 | replacing the language with `None` or any string never changes validity |
| Form.EmptyNameAndCountryAccepted | src/form.rs:6-19 | no minimum length is enforced on name or country, despite the doc comment; empty ones pass |
| Form.MessageUnbounded | src/form.rs:24-25 | the message has no upper bound: a valid form stays valid with any non-empty message |
| Form.Sanitize | src/form.rs:32-40 | name, country, email and message become `clean` of their old values; an absent language stays absent; a present one is cleaned |
| Form.SanitizeIdempotent | src/form.rs:32-40 | with an idempotent cleaner, sanitising twice equals sanitising once |
| Form.SanitizeWithIdentity | src/form.rs:32-40 | with a cleaner that changes nothing, sanitising changes nothing |
| Subject.SubjectMatchesTable | src/mailing.rs:19-56 | the subject equals the one read off the template table: table prefix + country for a recognised language, the "detwermine" sentence + country for a missing or placeholder language, otherwise the constant |
| Subject.RecognisedLanguageSubject | src/mailing.rs:26-49 | each of English, Español, Français, Português, Italiano and Deutsch yields its fixed prefix followed directly by the country |
| Subject.MissingLanguageSubject | src/mailing.rs:20-23 | a missing language yields "Unable to detwermine language, the listener is from " + country, typo included |
| Subject.PlaceholderActsAsMissing | src/mailing.rs:23-53 | submitting "UNKNOWN LANGUAGE" gives exactly the subject of submitting no language |
| Subject.UnrecognisedLanguageSubject | src/mailing.rs:54 | any other language yields "Unable to determine language and location", whatever the country |
| Subject.LowerCaseEnglishUnrecognised | src/mailing.rs:26-54 | "english" in lower case falls through to the catch-all subject |
| Subject.SubjectIgnoresOtherFields | src/mailing.rs:19-55 | forms that agree on language and country get the same subject, whatever their name, email and message |
| Subject.ClassifySubjectRoundTrip | src/mailing.rs:19-56 | decoding a subject recovers the language branch and the exact country; only an unrecognised language is lost |
| Subject.ClassifySubjectSound | src/mailing.rs:19-56 | any subject the decoder accepts is exactly the subject of the language and country it decodes to |
| Mailing.ReportedFields | src/mailing.rs:71-73 | the reported fields are exactly the failing ones, each reported once |
| Mailing.ErrorMessageInjective | src/mailing.rs:74 | different fields produce different error messages |
| Mailing.ErrorMessages | src/mailing.rs:70-77 | the error list has exactly one "Invalid input in the <field> field" entry per failing field, none twice, and is empty exactly when the form is valid |
| Mailing.MalformedEmailReported | src/mailing.rs:70-77 | a form whose only fault is its email is rejected with the single message for the email field |
| Mailing.Body | src/mailing.rs:94-97 | the body is as long as the four fields plus the 38 characters of its labels |
| Mailing.BodyRoundTrip | src/mailing.rs:94-97 | when name, country and email contain no line break, parsing the body gives back the four fields |
| Mailing.ParseBodySound | src/mailing.rs:94-97 | any text that parses is exactly the body of the fields it parses to |
| Mailing.RelayMessage | src/mailing.rs:69-119 | an invalid form gets 400 with its error list and no message is sent; a valid form is sanitised and sent; the transport's verdict gives 200 "Message sent successfully" or 500 "Failed to send message: " + reason |
| Mailing.RejectionPrecedesRelay | src/mailing.rs:70-80 | a rejected request is the same whatever the cleaner, transport or configuration, and its error list is never empty |
| Mailing.RelayStatusCode | src/mailing.rs:70-117 | the status is 400 exactly for an invalid form; for a valid one it is 200 when the transport delivers the message built from the sanitised form, and 500 otherwise |
| Mailing.AcceptedMailSubject | src/mailing.rs:80-98 | every accepted form's message is from and replies to the cleaned email, goes to the forward address, and has the subject of the cleaned language and country; for a missing or recognised language that subject decodes back to the language branch and the cleaned country |
| Mailing.AcceptedMailBody | src/mailing.rs:80-98 | when the cleaned name, country and email contain no line break, an accepted form's message body parses back to the four cleaned fields |

## Left out

- The per-client rate limiter (src/main.rs:1, 25-28, 34): it lives in the external `actix_route_rate_limiter` crate, whose code is not part of this model. Its configuration is 4 requests per client per 1 day.
- The HTTP server, routing, default headers and form extraction (src/main.rs:17-42, src/mailing.rs:68-69): framework plumbing.
- SMTP transport construction and delivery (src/mailing.rs:100-108): network I/O in the `lettre` crate. Its outcome is the parameter `send`.
- Mailing.RelayMessage: the `.expect` panics on mailbox parsing, message building and relay-server parsing (src/mailing.rs:90-101) are not modelled. The model assumes those library calls succeed.
- Mailing.AcceptedMailBody: promises that the body reads back only when the cleaned name, country and email contain no line break. The validation rules (src/form.rs:15-19) let line breaks through, and with one the body layout is ambiguous.
- Mailing.ErrorMessages: the order of the error list follows the validator's hash map, which is unspecified. The model takes that order as a parameter and states only what holds for every order.
- Configuration loading (src/config.rs:30-36): file I/O and TOML parsing by a foreign crate. `Config` is kept as a plain record.
- The internals of `ammonia::clean` and of the `validator` email check: foreign code, taken as parameters.
- Logging (src/mailing.rs:82-85, 110, 114): no effect on behaviour.
