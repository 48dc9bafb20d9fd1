/** The sign-up form (`src/pages/Register.tsx`): when it may be submitted, and
    what the two requests it then sends carry. */
module Register {
  import opened Text

  /** The form's state: the three inputs and whether a submission is in flight. */
  datatype Form = Form(name: string, email: string, password: string, loading: bool)

  /** JavaScript `s.length`: UTF-16 code units, two for a character outside
      the Basic Multilingual Plane. */
  function Utf16Length(s: string): (n: nat)
    ensures |s| <= n <= 2 * |s|
    ensures (forall k | 0 <= k < |s| :: s[k] as int < 0x1_0000) ==> n == |s|
  {
    if |s| == 0 then 0
    else CodeUnits(s[0]) + Utf16Length(s[1..])
  }

  /** The UTF-16 code units of one character: a surrogate pair outside the
      Basic Multilingual Plane. */
  function CodeUnits(c: char): (n: nat)
    ensures n == 1 || n == 2
    ensures n == 2 <==> c as int >= 0x1_0000
  {
    if c as int < 0x1_0000 then 1 else 2
  }

  /** The length of a concatenation is the sum of the lengths, so a string
      counts `CodeUnits` for each of its characters. */
  lemma {:induction false} Utf16LengthAppend(a: string, b: string)
    ensures Utf16Length(a + b) == Utf16Length(a) + Utf16Length(b)
  {
    if |a| > 0 {
      assert (a + b)[0] == a[0];
      assert (a + b)[1..] == a[1..] + b;
      Utf16LengthAppend(a[1..], b);
    } else {
      assert a + b == b;
    }
  }

  lemma Utf16LengthOne(c: char)
    ensures Utf16Length([c]) == CodeUnits(c)
  {
    assert [c][1..] == [];
  }

  const MinNameLength: nat := 2
  const MinPasswordLength: nat := 6

  /** `canSubmit`: trimmed name of at least 2 units, trimmed email of more than
      3, password (untrimmed) of at least 6. */
  predicate CanSubmit(f: Form): (ok: bool)
    ensures ok ==> !AllSpace(JavaScript, f.name) && !AllSpace(JavaScript, f.email)
    ensures ok ==> |f.password| >= MinPasswordLength / 2
    ensures (&& |Trim(JavaScript, f.name)| >= MinNameLength
             && |Trim(JavaScript, f.email)| > 3
             && |f.password| >= MinPasswordLength) ==> ok
  {
    TrimEmptyIff(JavaScript, f.name);
    TrimEmptyIff(JavaScript, f.email);
    Utf16Length(Trim(JavaScript, f.name)) >= MinNameLength
    && Utf16Length(Trim(JavaScript, f.email)) > 3
    && Utf16Length(f.password) >= MinPasswordLength
  }

  /** `disabled={!canSubmit || loading}` of the submit button. */
  function SubmitDisabled(f: Form): (disabled: bool)
    ensures !disabled ==> CanSubmit(f) && !f.loading
    ensures f.loading ==> disabled
    ensures !CanSubmit(f) ==> disabled
  {
    !CanSubmit(f) || f.loading
  }

  datatype RegisterRequest = RegisterRequest(name: string, email: string, password: string)

  datatype LoginRequest = LoginRequest(email: string, password: string)

  /** `onSubmit`: the registration request, then the automatic login. */
  function Submission(f: Form): (r: (RegisterRequest, LoginRequest))
    ensures r.0.name == Trim(JavaScript, f.name) && r.0.email == Trim(JavaScript, f.email)
    ensures IsTrimmed(JavaScript, r.0.name) && IsTrimmed(JavaScript, r.0.email)
    ensures r.1.email == r.0.email && r.1.password == r.0.password == f.password
  {
    var email := Trim(JavaScript, f.email);
    (RegisterRequest(Trim(JavaScript, f.name), email, f.password), LoginRequest(email, f.password))
  }

  /** What an enabled button sends meets the minimums the form displays. */
  lemma EnabledSubmissionMeetsMinimums(f: Form)
    requires !SubmitDisabled(f)
    ensures var (reg, login) := Submission(f);
            && Utf16Length(reg.name) >= MinNameLength
            && Utf16Length(reg.email) > 3
            && Utf16Length(login.password) >= MinPasswordLength
  {
  }

  /** Sent fields are already trimmed: trimming them again changes nothing. */
  lemma SubmittedFieldsAreTrimmed(f: Form)
    ensures var (reg, login) := Submission(f);
            && Trim(JavaScript, reg.name) == reg.name
            && Trim(JavaScript, login.email) == login.email
  {
    TrimIdempotent(JavaScript, f.name);
    TrimIdempotent(JavaScript, f.email);
  }

  /** A name of whitespace alone never enables the button. */
  lemma BlankNameCannotSubmit(f: Form)
    requires AllSpace(JavaScript, f.name)
    ensures SubmitDisabled(f)
  {
    TrimEmptyIff(JavaScript, f.name);
  }

  /** Length counts UTF-16 units: one emoji is a long enough name, and six
      spaces are a long enough password. */
  lemma LengthExamples()
    ensures CanSubmit(Form("\U{1F600}", "a@b.c", "      ", false))
  {
    EmojiNameIsLongEnough();
    ShortEmailIsLongEnough();
    assert Utf16Length("      ") == 6;
  }

  /** One character outside the Basic Multilingual Plane is two units. */
  lemma EmojiNameIsLongEnough()
    ensures Utf16Length(Trim(JavaScript, "\U{1F600}")) == 2
  {
    EmojiIsTrimmed();
    EmojiUnits();
  }

  lemma EmojiIsTrimmed()
    ensures Trim(JavaScript, "\U{1F600}") == "\U{1F600}"
  {
    var emoji := "\U{1F600}";
    assert !IsSpace(JavaScript, emoji[0]);
    TrimOfTrimmed(JavaScript, emoji);
  }

  lemma EmojiUnits()
    ensures Utf16Length("\U{1F600}") == 2
  {
    var emoji := "\U{1F600}";
    assert emoji[1..] == [];
  }

  lemma ShortEmailIsLongEnough()
    ensures Utf16Length(Trim(JavaScript, "a@b.c")) == 5
  {
    ShortEmailIsTrimmed();
    ShortEmailUnits();
  }

  lemma ShortEmailIsTrimmed()
    ensures Trim(JavaScript, "a@b.c") == "a@b.c"
  {
    var email := "a@b.c";
    assert !IsSpace(JavaScript, email[0]) && !IsSpace(JavaScript, email[4]);
    TrimOfTrimmed(JavaScript, email);
  }

  lemma ShortEmailUnits()
    ensures Utf16Length("a@b.c") == 5
  {
    var email := "a@b.c";
    assert forall k | 0 <= k < |email| :: email[k] as int < 0x1_0000;
  }
}
