/**
  Subject-line templating by language (`create_subject_by_lang`,
  src/mailing.rs:19-56).

  The match in the source compares the language string exactly, character by
  character: there is no case folding and no Unicode normalisation, so
  "english" or a decomposed "Español" falls through to the catch-all branch.
*/
module Subject {
  import opened Wrappers
  import opened Text
  import opened Form

  /** The string the handler substitutes for a missing language. */
  const UnknownLanguage: string := "UNKNOWN LANGUAGE"

  const EnglishPrefix: string := "Answer to your question in English from "
  const SpanishPrefix: string := "Respuesta a su pregunta en español desde "
  const FrenchPrefix: string := "Répondez à votre question en français de "
  const PortuguesePrefix: string := "Responda a sua pergunta em português da "
  const ItalianPrefix: string := "Rispondi alla tua domanda in italiano dal "
  const GermanPrefix: string := "Antworten zu Ihrer Frage auf Deutsch von "
  /** Prefix for a missing language; the misspelling "detwermine" is the source's own. */
  const UnknownPrefix: string := "Unable to detwermine language, the listener is from "
  /** The whole subject for a language that is present but not recognised. */
  const Undetermined: string := "Unable to determine language and location"

  /** A recognised language and the text that precedes the country in its subject. */
  datatype Template = Template(language: string, prefix: string)

  /** The six recognised languages, in the order the source matches them. */
  const Templates: seq<Template> := [
    Template("English", EnglishPrefix),
    Template("Español", SpanishPrefix),
    Template("Français", FrenchPrefix),
    Template("Português", PortuguesePrefix),
    Template("Italiano", ItalianPrefix),
    Template("Deutsch", GermanPrefix)
  ]

  /** `create_subject_by_lang`: only the language and the country are read. */
  function SubjectOf(form: FormData): string
  {
    var lang := form.language.GetOr(UnknownLanguage);
    if lang == "English" then EnglishPrefix + form.country
    else if lang == "Español" then SpanishPrefix + form.country
    else if lang == "Français" then FrenchPrefix + form.country
    else if lang == "Português" then PortuguesePrefix + form.country
    else if lang == "Italiano" then ItalianPrefix + form.country
    else if lang == "Deutsch" then GermanPrefix + form.country
    else if lang == UnknownLanguage then UnknownPrefix + form.country
    else Undetermined
  }

  /** Index of the first template for `language`, if any. */
  function LanguageIndex(table: seq<Template>, language: string): (r: Option<nat>)
    ensures r.Some? ==> r.value < |table| && table[r.value].language == language
    ensures r.None? <==> forall j :: 0 <= j < |table| ==> table[j].language != language
  {
    if table == [] then None
    else if table[0].language == language then Some(0)
    else match LanguageIndex(table[1..], language)
      case None => None
      case Some(j) => Some(j + 1)
  }

  /** Index of the first template whose prefix begins `s`, if any. */
  function PrefixIndex(table: seq<Template>, s: string): (r: Option<nat>)
    ensures r.Some? ==> r.value < |table| && table[r.value].prefix <= s
    ensures r.None? <==> forall j :: 0 <= j < |table| ==> !(table[j].prefix <= s)
  {
    if table == [] then None
    else if table[0].prefix <= s then Some(0)
    else match PrefixIndex(table[1..], s)
      case None => None
      case Some(j) => Some(j + 1)
  }

  /**
    Reference definition of the subject, read off the template table rather
    than the chain of string comparisons.
  */
  function TableSubject(language: Option<string>, country: string): string
  {
    match language
    case None => UnknownPrefix + country
    case Some(l) =>
      match LanguageIndex(Templates, l)
      case Some(i) => Templates[i].prefix + country
      case None => if l == UnknownLanguage then UnknownPrefix + country else Undetermined
  }

  /** What a subject line tells its reader. */
  datatype SubjectKind =
    | Answer(language: string, country: string)
    | LanguageMissing(country: string)
    | LanguageUnrecognised

  /** Reads a subject line back into the language and country it was made from. */
  function ClassifySubject(s: string): Option<SubjectKind>
  {
    if s == Undetermined then Some(LanguageUnrecognised)
    else match PrefixIndex(Templates, s)
      case Some(i) => Some(Answer(Templates[i].language, s[|Templates[i].prefix|..]))
      case None =>
        if UnknownPrefix <= s then Some(LanguageMissing(s[|UnknownPrefix|..])) else None
  }

  /** The languages of a table, in order. */
  function Languages(table: seq<Template>): seq<string>
  {
    seq(|table|, i requires 0 <= i < |table| => table[i].language)
  }

  /** No template prefix is a prefix of an extension of another. */
  ghost predicate PrefixesDiverge(table: seq<Template>)
  {
    forall i, j :: 0 <= i < j < |table| ==> Diverge(table[i].prefix, table[j].prefix)
  }

  /** The English prefix disagrees with every later one at some position. */
  lemma EnglishPrefixDiverges()
    ensures Diverge(EnglishPrefix, SpanishPrefix)
    ensures Diverge(EnglishPrefix, FrenchPrefix)
    ensures Diverge(EnglishPrefix, PortuguesePrefix)
    ensures Diverge(EnglishPrefix, ItalianPrefix)
    ensures Diverge(EnglishPrefix, GermanPrefix)
  {
    DivergeAt(EnglishPrefix, SpanishPrefix, 0);
    DivergeAt(EnglishPrefix, FrenchPrefix, 0);
    DivergeAt(EnglishPrefix, PortuguesePrefix, 0);
    DivergeAt(EnglishPrefix, ItalianPrefix, 0);
    DivergeAt(EnglishPrefix, GermanPrefix, 2);
  }

  /** The Spanish prefix disagrees with every later one at some position. */
  lemma SpanishPrefixDiverges()
    ensures Diverge(SpanishPrefix, FrenchPrefix)
    ensures Diverge(SpanishPrefix, PortuguesePrefix)
    ensures Diverge(SpanishPrefix, ItalianPrefix)
    ensures Diverge(SpanishPrefix, GermanPrefix)
  {
    DivergeAt(SpanishPrefix, FrenchPrefix, 1);
    DivergeAt(SpanishPrefix, PortuguesePrefix, 4);
    DivergeAt(SpanishPrefix, ItalianPrefix, 1);
    DivergeAt(SpanishPrefix, GermanPrefix, 0);
  }

  /** The French prefix disagrees with every later one at some position. */
  lemma FrenchPrefixDiverges()
    ensures Diverge(FrenchPrefix, PortuguesePrefix)
    ensures Diverge(FrenchPrefix, ItalianPrefix)
    ensures Diverge(FrenchPrefix, GermanPrefix)
  {
    DivergeAt(FrenchPrefix, PortuguesePrefix, 1);
    DivergeAt(FrenchPrefix, ItalianPrefix, 1);
    DivergeAt(FrenchPrefix, GermanPrefix, 0);
  }

  /** The Portuguese prefix disagrees with every later one at some position. */
  lemma PortuguesePrefixDiverges()
    ensures Diverge(PortuguesePrefix, ItalianPrefix)
    ensures Diverge(PortuguesePrefix, GermanPrefix)
  {
    DivergeAt(PortuguesePrefix, ItalianPrefix, 1);
    DivergeAt(PortuguesePrefix, GermanPrefix, 0);
  }

  /** The Italian prefix disagrees with every later one at some position. */
  lemma ItalianPrefixDiverges()
    ensures Diverge(ItalianPrefix, GermanPrefix)
  {
    DivergeAt(ItalianPrefix, GermanPrefix, 0);
  }

  /** The template prefixes diverge from each other. */
  lemma TemplatePrefixesDiverge()
    ensures PrefixesDiverge(Templates)
  {
    forall i, j | 0 <= i < j < |Templates|
      ensures Diverge(Templates[i].prefix, Templates[j].prefix)
    {
      if i == 0 {
        EnglishPrefixDiverges();
      } else if i == 1 {
        SpanishPrefixDiverges();
      } else if i == 2 {
        FrenchPrefixDiverges();
      } else if i == 3 {
        PortuguesePrefixDiverges();
      } else {
        ItalianPrefixDiverges();
      }
    }
  }

  /** The recognised language names are distinct and differ from the placeholder. */
  lemma TemplateLanguagesDistinct()
    ensures Distinct(Languages(Templates))
    ensures forall i :: 0 <= i < |Templates| ==> Templates[i].language != UnknownLanguage
  {
  }

  /** Neither fallback subject can be mistaken for a recognised-language subject, nor for each other. */
  lemma FallbacksDiverge()
    ensures forall i :: 0 <= i < |Templates| ==> Diverge(Templates[i].prefix, UnknownPrefix)
    ensures forall i :: 0 <= i < |Templates| ==> Diverge(Templates[i].prefix, Undetermined)
    ensures Diverge(UnknownPrefix, Undetermined)
  {
    forall i | 0 <= i < |Templates|
      ensures Diverge(Templates[i].prefix, UnknownPrefix)
      ensures Diverge(Templates[i].prefix, Undetermined)
    {
      // The prefixes end in their own closing words, where they differ from both fallbacks.
      var k := if i == 1 || i == 2 then 38 else 39;
      if i == 0 {
        DivergeAt(EnglishPrefix, UnknownPrefix, k);
        DivergeAt(EnglishPrefix, Undetermined, k);
      } else if i == 1 {
        DivergeAt(SpanishPrefix, UnknownPrefix, k);
        DivergeAt(SpanishPrefix, Undetermined, k);
      } else if i == 2 {
        DivergeAt(FrenchPrefix, UnknownPrefix, k);
        DivergeAt(FrenchPrefix, Undetermined, k);
      } else if i == 3 {
        DivergeAt(PortuguesePrefix, UnknownPrefix, k);
        DivergeAt(PortuguesePrefix, Undetermined, k);
      } else if i == 4 {
        DivergeAt(ItalianPrefix, UnknownPrefix, k);
        DivergeAt(ItalianPrefix, Undetermined, k);
      } else {
        DivergeAt(GermanPrefix, UnknownPrefix, k);
        DivergeAt(GermanPrefix, Undetermined, k);
      }
    }
    DivergeAt(UnknownPrefix, Undetermined, 13);
  }

  /** The subject computed by the source's comparisons is the one the template table prescribes. */
  lemma SubjectMatchesTable(form: FormData)
    ensures SubjectOf(form) == TableSubject(form.language, form.country)
  {
    TemplateLanguagesDistinct();
    match form.language
    case None =>
    case Some(l) =>
      var r := LanguageIndex(Templates, l);
      if r.Some? {
        var i := r.value;
        assert Templates[i].language == l;
        if i == 0 {
          assert l == "English";
        } else if i == 1 {
          assert l == "Español";
        } else if i == 2 {
          assert l == "Français";
        } else if i == 3 {
          assert l == "Português";
        } else if i == 4 {
          assert l == "Italiano";
        } else {
          assert l == "Deutsch";
        }
      } else {
        assert Templates[0].language != l;
        assert Templates[1].language != l;
        assert Templates[2].language != l;
        assert Templates[3].language != l;
        assert Templates[4].language != l;
        assert Templates[5].language != l;
      }
  }

  /** Each recognised language yields its fixed prefix followed directly by the country. */
  lemma RecognisedLanguageSubject(form: FormData, i: nat)
    requires i < |Templates|
    requires form.language == Some(Templates[i].language)
    ensures SubjectOf(form) == Templates[i].prefix + form.country
  {
    SubjectMatchesTable(form);
    TemplateLanguagesDistinct();
  }

  /** A missing language yields the misspelt "detwermine" sentence followed by the country. */
  lemma MissingLanguageSubject(form: FormData)
    requires form.language.None?
    ensures SubjectOf(form) == "Unable to detwermine language, the listener is from " + form.country
  {
  }

  /** Submitting the placeholder "UNKNOWN LANGUAGE" is indistinguishable from submitting no language. */
  lemma PlaceholderActsAsMissing(form: FormData)
    ensures SubjectOf(form.(language := Some(UnknownLanguage))) == SubjectOf(form.(language := None))
  {
  }

  /**
    Any other language, including case variants of a recognised one, yields a
    constant subject that does not mention the country.
  */
  lemma UnrecognisedLanguageSubject(form: FormData, l: string)
    requires form.language == Some(l)
    requires l != UnknownLanguage
    requires forall i :: 0 <= i < |Templates| ==> Templates[i].language != l
    ensures SubjectOf(form) == "Unable to determine language and location"
    ensures forall country :: SubjectOf(form.(country := country)) == SubjectOf(form)
  {
    SubjectMatchesTable(form);
    forall country
      ensures SubjectOf(form.(country := country)) == SubjectOf(form)
    {
      SubjectMatchesTable(form.(country := country));
    }
  }

  /** "english" in lower case is not recognised. */
  lemma LowerCaseEnglishUnrecognised(form: FormData)
    requires form.language == Some("english")
    ensures SubjectOf(form) == Undetermined
  {
    assert "english"[0] != "English"[0];
  }

  /** Name, email and message never influence the subject. */
  lemma SubjectIgnoresOtherFields(f: FormData, g: FormData)
    requires f.language == g.language && f.country == g.country
    ensures SubjectOf(f) == SubjectOf(g)
  {
  }

  /** A subject built from a template is recognised as that template. */
  lemma PrefixIndexOfTemplate(i: nat, c: string)
    requires i < |Templates|
    ensures PrefixIndex(Templates, Templates[i].prefix + c) == Some(i)
  {
    TemplatePrefixesDiverge();
    var s := Templates[i].prefix + c;
    var r := PrefixIndex(Templates, s);
    assert Templates[i].prefix <= s;
    if r != Some(i) {
      var j := r.value;
      if j < i {
        DivergeNoPrefix(Templates[j].prefix, Templates[i].prefix, c);
      } else {
        DivergeNoPrefix(Templates[i].prefix, Templates[j].prefix, c);
      }
    }
  }

  /**
    Reading a subject line back recovers the branch taken and the country:
    the subject line loses no information beyond the unrecognised language.
  */
  lemma {:induction false} ClassifySubjectRoundTrip(form: FormData)
    ensures form.language.None? ==> ClassifySubject(SubjectOf(form)) == Some(LanguageMissing(form.country))
    ensures form.language == Some(UnknownLanguage) ==>
      ClassifySubject(SubjectOf(form)) == Some(LanguageMissing(form.country))
    ensures forall i :: 0 <= i < |Templates| && form.language == Some(Templates[i].language) ==>
      ClassifySubject(SubjectOf(form)) == Some(Answer(Templates[i].language, form.country))
    ensures (&& form.language.Some?
             && form.language.value != UnknownLanguage
             && forall i :: 0 <= i < |Templates| ==> Templates[i].language != form.language.value) ==>
      ClassifySubject(SubjectOf(form)) == Some(LanguageUnrecognised)
  {
    SubjectMatchesTable(form);
    TemplateLanguagesDistinct();
    FallbacksDiverge();
    var c := form.country;
    var s := SubjectOf(form);
    match form.language
    case None =>
      MissingRoundTrip(c);
    case Some(l) =>
      match LanguageIndex(Templates, l)
      case Some(i) =>
        DivergeNoPrefix(Templates[i].prefix, Undetermined, c);
        PrefixIndexOfTemplate(i, c);
        assert s[|Templates[i].prefix|..] == c;
      case None =>
        if l == UnknownLanguage {
          MissingRoundTrip(c);
        }
  }

  /** The subject for a missing language reads back as such, with its country. */
  lemma MissingRoundTrip(c: string)
    ensures ClassifySubject(UnknownPrefix + c) == Some(LanguageMissing(c))
  {
    FallbacksDiverge();
    var s := UnknownPrefix + c;
    DivergeNoPrefix(UnknownPrefix, Undetermined, c);
    var r := PrefixIndex(Templates, s);
    if r.Some? {
      DivergeNoPrefix(Templates[r.value].prefix, UnknownPrefix, c);
    }
    assert s[|UnknownPrefix|..] == c;
  }

  /** Whatever a subject line reads back as, it is exactly the subject of that reading. */
  lemma ClassifySubjectSound(s: string)
    ensures ClassifySubject(s) == Some(LanguageUnrecognised) ==> s == Undetermined
    ensures forall l, c :: ClassifySubject(s) == Some(Answer(l, c)) ==> s == TableSubject(Some(l), c)
    ensures forall c :: ClassifySubject(s) == Some(LanguageMissing(c)) ==> s == TableSubject(None, c)
  {
    TemplateLanguagesDistinct();
    if s != Undetermined {
      match PrefixIndex(Templates, s)
      case Some(i) =>
        var p := Templates[i].prefix;
        assert s == p + s[|p|..];
        var j := LanguageIndex(Templates, Templates[i].language);
        assert j == Some(i);
      case None =>
    }
  }
}
