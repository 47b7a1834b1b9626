/** The contact form: the trim-and-bounds schema and the single row a valid submission inserts. */
module ContactForm {
  import opened Wrappers
  import Text

  datatype ContactInput = ContactInput(name: string, email: string, message: string)

  /** The field an issue's path names: `name`, `email` or `message`. */
  datatype Field = NameField | EmailField | MessageField

  /** One schema failure: the field and its message. */
  datatype Issue = Issue(field: Field, message: string)

  /** The row sent to `contact_messages`. */
  datatype ContactInsert = ContactInsert(name: string, email: string, message: string, status: string)

  /** Why a submission failed: the schema rejected it (nothing is sent), or the database refused it. */
  datatype SubmitError = Invalid(issues: seq<Issue>) | Database(message: string)

  predicate NameAccepted(name: string)
  {
    2 <= |name| <= 100
  }

  predicate EmailAccepted(email: string, isEmail: string -> bool)
  {
    isEmail(email) && |email| <= 255
  }

  predicate MessageAccepted(message: string)
  {
    10 <= |message| <= 2000
  }

  function NameIssues(name: string): (r: seq<Issue>)
    ensures r == [] <==> NameAccepted(name)
    ensures forall i :: i in r ==> i.field == NameField
  {
    (if |name| < 2 then [Issue(NameField, "Name must be at least 2 characters")] else []) +
    (if |name| > 100 then [Issue(NameField, "Name must be less than 100 characters")] else [])
  }

  function EmailIssues(email: string, isEmail: string -> bool): (r: seq<Issue>)
    ensures r == [] <==> EmailAccepted(email, isEmail)
    ensures forall i :: i in r ==> i.field == EmailField
  {
    (if !isEmail(email) then [Issue(EmailField, "Invalid email address")] else []) +
    (if |email| > 255 then [Issue(EmailField, "Email must be less than 255 characters")] else [])
  }

  function MessageIssues(message: string): (r: seq<Issue>)
    ensures r == [] <==> MessageAccepted(message)
    ensures forall i :: i in r ==> i.field == MessageField
  {
    (if |message| < 10 then [Issue(MessageField, "Message must be at least 10 characters")] else []) +
    (if |message| > 2000 then [Issue(MessageField, "Message must be less than 2000 characters")] else [])
  }

  /** Every field with surrounding whitespace removed, as the schema's `trim` steps do first. */
  function Trimmed(input: ContactInput): ContactInput
  {
    ContactInput(Text.Trim(input.name), Text.Trim(input.email), Text.Trim(input.message))
  }

  predicate Accepted(t: ContactInput, isEmail: string -> bool)
  {
    NameAccepted(t.name) && EmailAccepted(t.email, isEmail) && MessageAccepted(t.message)
  }

  /** Some issue in `r` is about field `f`. */
  predicate HasIssueFor(r: seq<Issue>, f: Field)
  {
    exists i :: i in r && i.field == f
  }

  /** A field's own issue list has an issue about that field exactly when it is not empty. */
  lemma OwnIssues(r: seq<Issue>, f: Field)
    requires forall i :: i in r ==> i.field == f
    ensures HasIssueFor(r, f) <==> r != []
    ensures forall g :: g != f ==> !HasIssueFor(r, g)
  {
    if r != [] {
      assert r[0] in r;
    }
  }

  lemma HasIssueForConcat(a: seq<Issue>, b: seq<Issue>, f: Field)
    ensures HasIssueFor(a + b, f) <==> HasIssueFor(a, f) || HasIssueFor(b, f)
  {
    if HasIssueFor(a + b, f) {
      var i :| i in a + b && i.field == f;
      assert i in a || i in b;
    }
    if HasIssueFor(a, f) {
      var i :| i in a && i.field == f;
      assert i in a + b;
    }
    if HasIssueFor(b, f) {
      var i :| i in b && i.field == f;
      assert i in a + b;
    }
  }

  /** All failing checks, field by field; a field appears among them exactly when it is rejected. */
  function Issues(t: ContactInput, isEmail: string -> bool): (r: seq<Issue>)
    ensures r == [] <==> Accepted(t, isEmail)
    ensures HasIssueFor(r, NameField) <==> !NameAccepted(t.name)
    ensures HasIssueFor(r, EmailField) <==> !EmailAccepted(t.email, isEmail)
    ensures HasIssueFor(r, MessageField) <==> !MessageAccepted(t.message)
  {
    var nameIssues, emailIssues, messageIssues := NameIssues(t.name), EmailIssues(t.email, isEmail), MessageIssues(t.message);
    OwnIssues(nameIssues, NameField);
    OwnIssues(emailIssues, EmailField);
    OwnIssues(messageIssues, MessageField);
    HasIssueForConcat(nameIssues + emailIssues, messageIssues, NameField);
    HasIssueForConcat(nameIssues + emailIssues, messageIssues, EmailField);
    HasIssueForConcat(nameIssues + emailIssues, messageIssues, MessageField);
    HasIssueForConcat(nameIssues, emailIssues, NameField);
    HasIssueForConcat(nameIssues, emailIssues, EmailField);
    HasIssueForConcat(nameIssues, emailIssues, MessageField);
    nameIssues + emailIssues + messageIssues
  }

  /** `contactSchema.parse`: every field is trimmed first, and all failing checks are reported together.
      The email check is zod's email pattern, a parameter here. */
  function Validate(input: ContactInput, isEmail: string -> bool): (r: Result<ContactInput, seq<Issue>>)
    ensures r.Ok? <==> Accepted(Trimmed(input), isEmail)
    ensures r.Ok? ==> r.value == Trimmed(input)
    ensures r.Err? ==> r.error == Issues(Trimmed(input), isEmail) && r.error != []
  {
    var t := Trimmed(input);
    var issues := Issues(t, isEmail);
    if issues == [] then Ok(t) else Err(issues)
  }

  /** Validating the schema's own output again accepts it unchanged. */
  lemma ValidateIdempotent(input: ContactInput, isEmail: string -> bool)
    requires Validate(input, isEmail).Ok?
    ensures Validate(Validate(input, isEmail).value, isEmail) == Validate(input, isEmail)
  {
    Text.TrimIdempotent(input.name);
    Text.TrimIdempotent(input.email);
    Text.TrimIdempotent(input.message);
  }

  /** The length bounds are inclusive: a trimmed name of exactly 100 characters is accepted even though
      the message says "less than 100". */
  lemma NameBoundsInclusive(name: string)
    requires |name| == 100 && !Text.IsWhitespace(name[0]) && !Text.IsWhitespace(name[99])
    ensures NameAccepted(Text.Trim(name)) && Text.Trim(name) == name
  {
    Text.TrimUnchanged(name);
  }

  /** The mutation: validate, then insert exactly one row built from the validated fields with status
      `"unread"`; `dbError` is the database's answer to that insert. */
  function Submit(input: ContactInput, isEmail: string -> bool, dbError: Option<string>): (r: Result<ContactInsert, SubmitError>)
    ensures Validate(input, isEmail).Err? ==> r == Err(Invalid(Validate(input, isEmail).error))
    ensures r.Ok? <==> Validate(input, isEmail).Ok? && dbError.None?
    ensures r.Ok? ==> var v := Validate(input, isEmail).value;
      r.value == ContactInsert(v.name, v.email, v.message, "unread")
  {
    match Validate(input, isEmail)
    case Err(issues) => Err(Invalid(issues))
    case Ok(v) =>
      match dbError
      case Some(e) => Err(Database(e))
      case None => Ok(ContactInsert(v.name, v.email, v.message, "unread"))
  }
}
