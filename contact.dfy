/**
 * The contact form (src/components/ContactSection.tsx): four text inputs, and the
 * Gmail compose link built from them, with the subject and the body passed as
 * `su` and `body` query parameters through `encodeURIComponent`.
 */
module Contact {
  import opened Wrappers
  import opened Text
  import opened PercentEncoding

  datatype ContactForm = ContactForm(name: string, email: string, subject: string, message: string)

  /** The `name` attributes of the four inputs. */
  datatype Field = NameField | EmailField | SubjectField | MessageField

  const InitialForm := ContactForm("", "", "", "")

  function Value(form: ContactForm, field: Field): string {
    match field
    case NameField => form.name
    case EmailField => form.email
    case SubjectField => form.subject
    case MessageField => form.message
  }

  /** `handleInputChange`: the edited input takes the typed value; the others keep theirs. */
  function WithInput(form: ContactForm, field: Field, value: string): (r: ContactForm)
    ensures Value(r, field) == value
    ensures forall other :: other != field ==> Value(r, other) == Value(form, other)
  {
    match field
    case NameField => form.(name := value)
    case EmailField => form.(email := value)
    case SubjectField => form.(subject := value)
    case MessageField => form.(message := value)
  }

  /** Typing the same value again changes nothing, and the last edit of an input wins. */
  lemma InputEditsOverwrite(form: ContactForm, field: Field, first: string, second: string)
    ensures WithInput(WithInput(form, field, first), field, second) == WithInput(form, field, second)
    ensures WithInput(form, field, Value(form, field)) == form
  {
  }

  const BaseUrl := "https://mail.google.com/mail/?view=cm&fs=1&to=officialsurag@gmail.com"
  const DefaultSubject := "Paid Resume Service Inquiry"
  /** The fixed body of ContactSection.tsx:36. It is written as two literals because the
      verifier cannot see the characters of one literal this long. */
  const DefaultBody :=
    "Hi," + " I am interested in your paid resume service. Please provide more details about pricing and features."

  /** The subject the user typed, or the fixed one when the input is empty. */
  function Subject(form: ContactForm): string {
    if form.subject != "" then form.subject else DefaultSubject
  }

  function Line(present: bool, text: string): string {
    if present then text else ""
  }

  /** The fixed greeting when name, email and message are all empty; otherwise the
      composed body. */
  function Body(form: ContactForm): string {
    if form.name == "" && form.email == "" && form.message == "" then DefaultBody else ComposedBody(form)
  }

  /** A line for each of name, email and message that is set, in that order. */
  function ComposedBody(form: ContactForm): string {
    Line(form.name != "", "Name: " + form.name + "\n")
    + Line(form.email != "", "Email: " + form.email + "\n")
    + Line(form.message != "", "\nMessage:\n" + form.message)
  }

  /** `${baseUrl}&su=${encodedSubject}&body=${encodedBody}` */
  function ComposeUrl(base: string, subject: string, body: string): string {
    base + "&su=" + Encode(subject) + "&body=" + Encode(body)
  }

  function GmailUrl(form: ContactForm): string {
    ComposeUrl(BaseUrl, Subject(form), Body(form))
  }

  /** `buildGmailUrl`, with `subject` and `body` reassigned and extended step by step. */
  method BuildGmailUrl(form: ContactForm) returns (url: string)
    ensures url == GmailUrl(form)
  {
    var subject := DefaultSubject;
    if form.subject != "" {
      subject := form.subject;
    }
    var body := DefaultBody;
    if form.name != "" || form.email != "" || form.message != "" {
      body := "";
      if form.name != "" {
        body := body + "Name: " + form.name + "\n";
      }
      assert body == Line(form.name != "", "Name: " + form.name + "\n");
      if form.email != "" {
        body := body + "Email: " + form.email + "\n";
      }
      assert body == Line(form.name != "", "Name: " + form.name + "\n")
                     + Line(form.email != "", "Email: " + form.email + "\n");
      if form.message != "" {
        body := body + "\nMessage:\n" + form.message;
      }
      assert body == ComposedBody(form);
    }
    var encodedSubject := Encode(subject);
    var encodedBody := Encode(body);
    url := BaseUrl + "&su=" + encodedSubject + "&body=" + encodedBody;
  }

  /** The greeting is sent exactly when name, email and message are all empty: a composed
      body starts with `N`, `E` or a line break, the greeting with `H`. */
  lemma DefaultBodyIff(form: ContactForm)
    ensures Body(form) == DefaultBody <==> form.name == "" && form.email == "" && form.message == ""
  {
    if form.name != "" || form.email != "" || form.message != "" {
      ComposedBodyStart(form);
      assert DefaultBody[0] == 'H';
    }
  }

  lemma ComposedBodyStart(form: ContactForm)
    requires form.name != "" || form.email != "" || form.message != ""
    ensures ComposedBody(form) != [] && ComposedBody(form)[0] in {'N', 'E', '\n'}
  {
    var b := ComposedBody(form);
    if form.name != "" {
      assert b[0] == 'N';
    } else if form.email != "" {
      assert b[0] == 'E';
    } else {
      assert b[0] == '\n';
    }
  }

  /** A non-empty message ends the composed body; a non-empty name opens it. */
  lemma ComposedBodyEnds(form: ContactForm)
    ensures form.message != "" ==> IsSuffix(form.message, ComposedBody(form))
    ensures form.name != "" ==> IsPrefix("Name: " + form.name + "\n", ComposedBody(form))
  {
    var l1 := Line(form.name != "", "Name: " + form.name + "\n");
    var l2 := Line(form.email != "", "Email: " + form.email + "\n");
    if form.message != "" {
      assert ComposedBody(form) == (l1 + l2 + "\nMessage:\n") + form.message;
    }
    if form.name != "" {
      var tail := l2 + Line(form.message != "", "\nMessage:\n" + form.message);
      assert ComposedBody(form) == l1 + tail;
    }
  }

  predicate IsSuffix(p: string, s: string) {
    |p| <= |s| && s[|s| - |p|..] == p
  }

  /** Encoded text holds no `&`, so it ends no query field. */
  lemma NoAmpersand(key: string, text: string)
    requires forall i :: 0 <= i < |key| ==> key[i] != '&'
    ensures '&' !in key + Encode(text)
  {
    var f, e := key + Encode(text), Encode(text);
    forall i | 0 <= i < |f| ensures f[i] != '&' {
      if i >= |key| {
        assert f[i] == e[i - |key|];
      }
    }
  }

  /** The address is the base followed by exactly two more query fields, `su` and `body`. */
  lemma ComposeUrlSplit(base: string, subject: string, body: string)
    ensures Split(ComposeUrl(base, subject, body), '&')
            == Split(base, '&') + ["su=" + Encode(subject), "body=" + Encode(body)]
  {
    var su, bo := "su=" + Encode(subject), "body=" + Encode(body);
    UrlRegroup(base, Encode(subject), Encode(body));
    NoAmpersand("su=", subject);
    NoAmpersand("body=", body);
    SplitBeforeLast(base, '&', su);
    SplitBeforeLast(base + "&" + su, '&', bo);
  }

  lemma UrlRegroup(base: string, e1: string, e2: string)
    ensures base + "&su=" + e1 + "&body=" + e2 == (base + "&" + ("su=" + e1)) + "&" + ("body=" + e2)
  {
    assert "&su=" == "&" + "su=";
    assert "&body=" == "&" + "body=";
  }

  /** The values of the last two fields decode back to the subject and the body. */
  lemma ComposeUrlFields(base: string, subject: string, body: string)
    ensures var f := Split(ComposeUrl(base, subject, body), '&');
      |f| >= 2 && Decode(Drop(f[|f| - 2], 3)) == Some(subject) && Decode(Drop(f[|f| - 1], 5)) == Some(body)
  {
    ComposeUrlSplit(base, subject, body);
    var f := Split(ComposeUrl(base, subject, body), '&');
    assert f[|f| - 2] == "su=" + Encode(subject);
    assert f[|f| - 1] == "body=" + Encode(body);
    assert Drop(f[|f| - 2], 3) == Encode(subject);
    assert Drop(f[|f| - 1], 5) == Encode(body);
    DecodeEncode(subject);
    DecodeEncode(body);
  }

  /** What follows the first `n` characters (`s.slice(n)`). */
  function Drop(s: string, n: nat): string {
    if n <= |s| then s[n..] else ""
  }

  /** The Gmail link ends in the `su` and `body` fields, which decode back to the chosen
      subject and body. */
  lemma GmailUrlFields(form: ContactForm)
    ensures var f := Split(GmailUrl(form), '&');
      |f| >= 2 && Decode(Drop(f[|f| - 2], 3)) == Some(Subject(form)) && Decode(Drop(f[|f| - 1], 5)) == Some(Body(form))
  {
    ComposeUrlFields(BaseUrl, Subject(form), Body(form));
  }

  lemma ComposeUrlStartsWithBase(base: string, subject: string, body: string)
    ensures IsPrefix(base, ComposeUrl(base, subject, body))
  {
    var rest := "&su=" + Encode(subject) + "&body=" + Encode(body);
    assert ComposeUrl(base, subject, body) == base + rest;
  }

  /** The link always opens the compose window addressed to the service. */
  lemma GmailUrlStartsWithBase(form: ContactForm)
    ensures IsPrefix(BaseUrl, GmailUrl(form))
  {
    ComposeUrlStartsWithBase(BaseUrl, Subject(form), Body(form));
  }

  /** An untouched form links with the fixed subject and the greeting. */
  lemma InitialFormUrl()
    ensures GmailUrl(InitialForm) == ComposeUrl(BaseUrl, DefaultSubject, DefaultBody)
  {
  }
}
