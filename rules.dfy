/** The contact form's per-field validation rules: the two patterns, the message table
    and the rule evaluation of `validateField` (trim, required-and-empty, per-name check),
    separated from the writes to the page that `validateField` performs afterwards. */
module Rules {
  import opened Options
  import opened Text

  // ---- Patterns -------------------------------------------------------------

  /** `[a-zA-Z0-9._-]`: a character of the part before '@'. */
  predicate IsLocalChar(c: char) {
    IsAsciiLetter(c) || IsAsciiDigit(c) || c == '.' || c == '_' || c == '-'
  }

  /** `[a-zA-Z0-9.-]`: a character of the domain between '@' and the last '.'. */
  predicate IsDomainChar(c: char) {
    IsAsciiLetter(c) || IsAsciiDigit(c) || c == '.' || c == '-'
  }

  /** `[\d\s+()-]`: a character a phone number may contain. */
  predicate IsPhoneChar(c: char) {
    IsAsciiDigit(c) || IsWhitespace(c) || c == '+' || c == '(' || c == ')' || c == '-'
  }

  /** `s` read as local part `s[..i]`, '@', domain `s[i+1..j]`, '.', top-level part
      `s[j+1..]`, each part drawn from its character class: the local part and the domain
      non-empty, the top-level part at least two letters. */
  predicate EmailSplit(s: string, i: int, j: int) {
    && 0 < i && i + 1 < j && j + 3 <= |s|
    && s[i] == '@' && s[j] == '.'
    && (forall k :: 0 <= k < i ==> IsLocalChar(s[k]))
    && (forall k :: i < k < j ==> IsDomainChar(s[k]))
    && (forall k :: j < k < |s| ==> IsAsciiLetter(s[k]))
  }

  /** What the email pattern `^[a-zA-Z0-9._-]+@[a-zA-Z0-9.-]+\.[a-zA-Z]{2,}$` accepts:
      some split of `s` into local part, domain and top-level part. */
  ghost predicate EmailPattern(s: string) {
    exists i, j :: EmailSplit(s, i, j)
  }

  /** Decides the email pattern without a search over splits: the '@' can only be the
      first one and the dot before the top-level part can only be the last one. */
  function IsEmail(s: string): bool
    ensures IsEmail(s) ==> EmailPattern(s)
  {
    var at := IndexFrom(s, '@', 0);
    var dot := IndexBefore(s, '.', |s|);
    at.Some? && dot.Some? && EmailSplit(s, at.value, dot.value)
  }

  lemma IsEmailDecidesPattern(s: string)
    ensures IsEmail(s) <==> EmailPattern(s)
  {
    if EmailPattern(s) {
      var i, j :| EmailSplit(s, i, j);
      assert forall k :: 0 <= k < i ==> s[k] != '@';
      assert IndexFrom(s, '@', 0) == Some(i);
      assert forall k :: j < k < |s| ==> s[k] != '.';
      assert IndexBefore(s, '.', |s|) == Some(j);
    }
  }

  /** What the phone pattern `^[\d\s+()-]{7,20}$` accepts. Every character it admits is
      a single UTF-16 code unit, so counting characters is counting code units. */
  predicate IsPhone(s: string)
    ensures IsPhone(s) ==> Utf16Length(s) == |s| && 7 <= Utf16Length(s) <= 20
  {
    7 <= |s| <= 20 && forall k :: 0 <= k < |s| ==> IsPhoneChar(s[k])
  }

  // ---- Messages -------------------------------------------------------------

  const NameRequired := "Il nome è obbligatorio"
  const NameTooShort := "Il nome deve avere almeno 2 caratteri"
  const EmailRequired := "L'email è obbligatoria"
  const EmailInvalid := "Inserisci un'email valida"
  const PhoneInvalid := "Inserisci un numero valido"
  const MessageRequired := "Il messaggio è obbligatorio"
  const MessageTooShort := "Il messaggio deve avere almeno 20 caratteri"
  const FallbackRequired := "Campo obbligatorio"

  /** `messages[name]?.required || 'Campo obbligatorio'`: only name, email and message have
      a required message of their own; phone has a table entry without one. */
  function RequiredMessage(name: string): (m: string)
    ensures m != ""
    ensures name !in {"name", "email", "message"} ==> m == FallbackRequired
  {
    if name == "name" then NameRequired
    else if name == "email" then EmailRequired
    else if name == "message" then MessageRequired
    else FallbackRequired
  }

  // ---- Rule evaluation ------------------------------------------------------

  /** The decision `validateField` takes: validity and the message to show. */
  datatype Verdict = Verdict(valid: bool, message: string)

  /** The rules applied to an already trimmed value. */
  function Decide(name: string, required: bool, value: string): (v: Verdict)
    ensures v.valid <==> v.message == ""
    ensures value == "" ==> v.valid == !required
  {
    if required && value == "" then Verdict(false, RequiredMessage(name))
    else if value == "" then Verdict(true, "")
    else if name == "name" && Utf16Length(value) < 2 then Verdict(false, NameTooShort)
    else if name == "email" && !IsEmail(value) then Verdict(false, EmailInvalid)
    else if name == "message" && Utf16Length(value) < 20 then Verdict(false, MessageTooShort)
    else if name == "phone" && !IsPhone(value) then Verdict(false, PhoneInvalid)
    else Verdict(true, "")
  }

  /** Rule evaluation of `validateField` for a field with the given name, `required`
      attribute and raw value. */
  function Check(name: string, required: bool, raw: string): (v: Verdict)
    ensures v.valid <==> v.message == ""
    ensures Trim(raw) == "" ==> v.valid == !required
  {
    Decide(name, required, Trim(raw))
  }

  // ---- What the rules promise -----------------------------------------------

  /** A blank value: a required field fails with its required message, any other field
      passes with no message, whatever its name. */
  lemma BlankValueRule(name: string, required: bool, raw: string)
    requires forall k :: 0 <= k < |raw| ==> IsWhitespace(raw[k])
    ensures required ==> Check(name, required, raw) == Verdict(false, RequiredMessage(name))
    ensures !required ==> Check(name, required, raw) == Verdict(true, "")
  {
    TrimBlank(raw);
  }

  /** A filled-in name passes iff it has at least two UTF-16 code units once trimmed. */
  lemma NameRule(required: bool, raw: string)
    requires Trim(raw) != ""
    ensures Check("name", required, raw).valid <==> Utf16Length(Trim(raw)) >= 2
    ensures !Check("name", required, raw).valid ==> Check("name", required, raw).message == NameTooShort
    ensures |Trim(raw)| >= 2 ==> Check("name", required, raw).valid
  {
  }

  /** A filled-in message passes iff it has at least twenty UTF-16 code units once trimmed. */
  lemma MessageRule(required: bool, raw: string)
    requires Trim(raw) != ""
    ensures Check("message", required, raw).valid <==> Utf16Length(Trim(raw)) >= 20
    ensures !Check("message", required, raw).valid ==> Check("message", required, raw).message == MessageTooShort
    ensures |Trim(raw)| >= 20 ==> Check("message", required, raw).valid
  {
  }

  /** A filled-in email passes iff its trimmed value has the shape local@domain.tld. */
  lemma EmailRule(required: bool, raw: string)
    requires Trim(raw) != ""
    ensures Check("email", required, raw).valid <==> EmailPattern(Trim(raw))
    ensures !Check("email", required, raw).valid ==> Check("email", required, raw).message == EmailInvalid
  {
    IsEmailDecidesPattern(Trim(raw));
  }

  /** A filled-in phone number passes iff it is 7 to 20 characters drawn from digits,
      white space, '+', '(', ')' and '-'. */
  lemma PhoneRule(required: bool, raw: string)
    requires Trim(raw) != ""
    ensures Check("phone", required, raw).valid <==>
      (7 <= |Trim(raw)| <= 20 && forall k :: 0 <= k < |Trim(raw)| ==> IsPhoneChar(Trim(raw)[k]))
    ensures !Check("phone", required, raw).valid ==> Check("phone", required, raw).message == PhoneInvalid
  {
  }

  /** Any other field name adds no check: only presence matters. */
  lemma OtherNameRule(name: string, required: bool, raw: string)
    requires name !in {"name", "email", "message", "phone"}
    ensures Check(name, required, raw).valid <==> (!required || Trim(raw) != "")
  {
  }

  /** The rules look only at the trimmed value: surrounding white space never changes
      the verdict. */
  lemma CheckSeesTrimmedValue(name: string, required: bool, raw: string)
    ensures Check(name, required, raw) == Check(name, required, Trim(raw))
  {
    TrimIdempotent(raw);
  }

  // ---- Examples ---------------------------------------------------------------

  /** A two-letter name passes. */
  lemma ShortNameExample()
    ensures Check("name", true, "Al").valid
  {
    TrimKeepsTrimmed("Al");
    NameRule(true, "Al");
  }

  lemma ExampleAddressSplit()
    ensures EmailSplit("al@example.com", 2, 10)
  {
    var s := "al@example.com";
    assert s[2] == '@' && s[10] == '.';
    assert forall k :: 0 <= k < 2 ==> IsLocalChar(s[k]);
    assert forall k :: 2 < k < 10 ==> IsDomainChar(s[k]);
    assert forall k :: 10 < k < |s| ==> IsAsciiLetter(s[k]);
  }

  lemma ExampleAddressTrim()
    ensures Trim(" al@example.com ") == "al@example.com"
  {
    var raw, s := " al@example.com ", "al@example.com";
    assert raw[1..15] == s;
    assert TrimsTo(raw, 1, 15);
    TrimIsTheTrim(raw, s);
  }

  /** An ordinary address passes, surrounding spaces notwithstanding. */
  lemma GoodEmailExample()
    ensures Check("email", true, " al@example.com ").valid
  {
    ExampleAddressSplit();
    ExampleAddressTrim();
    EmailRule(true, " al@example.com ");
  }

  /** An address without '@' fails with the email message. */
  lemma BadEmailExample()
    ensures Check("email", true, "bad-email") == Verdict(false, EmailInvalid)
  {
    var s := "bad-email";
    TrimKeepsTrimmed(s);
    assert !EmailPattern(s) by {
      assert forall k :: 0 <= k < |s| ==> s[k] != '@';
    }
    EmailRule(true, s);
  }

  /** A phone field left blank passes when optional and gets the generic message when
      required, since the phone entry of the message table has no required message. */
  lemma BlankPhoneExample()
    ensures Check("phone", false, "") == Verdict(true, "")
    ensures Check("phone", true, "  ") == Verdict(false, FallbackRequired)
  {
    BlankValueRule("phone", false, "");
    BlankValueRule("phone", true, "  ");
  }
}
