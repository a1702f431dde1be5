/** Recipient handling of `POST /api/send-email`: parsing the recipient
    fields, validating every address against the address shape and the
    domain allow-list, the recipient-count checks `sendEmail` makes before it
    builds a message, and the mapping of a failure to an HTTP status. */
module Email {
  import opened Common
  import opened Text
  import opened Seqs

  const MaxRecipients: nat := 50

  const AllowedDomains: seq<string> := ["amdocs.com", "gmail.com", "outlook.com", "yahoo.com"]

  /** A run of characters matched by `[^\s@]`. */
  predicate Plain(s: string) {
    s == "" || (!IsSpace(s[0]) && s[0] != '@' && Plain(s[1..]))
  }

  lemma {:induction false} PlainMeaning(s: string)
    ensures Plain(s) <==> forall k :: 0 <= k < |s| ==> !IsSpace(s[k]) && s[k] != '@'
  {
    if s != "" {
      PlainMeaning(s[1..]);
      assert forall k :: 1 <= k < |s| ==> s[k] == s[1..][k - 1];
    }
  }

  /** The index of the first '@' in `t`, or -1. */
  function FirstAt(t: string): (i: int)
    ensures -1 <= i < |t|
    ensures i >= 0 ==> t[i] == '@' && forall k :: 0 <= k < i ==> t[k] != '@'
    ensures i == -1 ==> forall k :: 0 <= k < |t| ==> t[k] != '@'
  {
    if t == "" then -1
    else if t[0] == '@' then 0
    else
      var i := FirstAt(t[1..]);
      if i == -1 then -1 else i + 1
  }

  /** `[^\s@]+\.[^\s@]+` on a run of plain characters: a dot with at least
      one character on each side. */
  predicate InnerDot(d: string) {
    |d| >= 3 && '.' in d[1..|d| - 1]
  }

  /** The address shape `^[^\s@]+@[^\s@]+\.[^\s@]+$`: a non-empty plain local
      part, one '@', and a plain domain with an inner dot. */
  predicate IsEmailShape(t: string) {
    var i := FirstAt(t);
    i > 0 && Plain(t[..i]) && Plain(t[i + 1..]) && InnerDot(t[i + 1..])
  }

  /** The shape as the regular expression reads: some split of `t` at an '@'
      into a non-empty local part and a domain, both free of white space and
      '@', the domain with a dot at neither end. */
  lemma EmailShapeMeaning(t: string)
    ensures IsEmailShape(t) <==>
              exists i :: 0 < i < |t| && t[i] == '@'
                && (forall k :: 0 <= k < |t| && k != i ==> !IsSpace(t[k]) && t[k] != '@')
                && (exists j :: i + 1 < j < |t| - 1 && t[j] == '.')
  {
    var i := FirstAt(t);
    if i >= 0 {
      PlainMeaning(t[..i]);
      PlainMeaning(t[i + 1..]);
      var d := t[i + 1..];
      if IsEmailShape(t) {
        var m :| 0 <= m < |d[1..|d| - 1]| && d[1..|d| - 1][m] == '.';
        assert t[i + 2 + m] == '.';
        forall k | 0 <= k < |t| && k != i ensures !IsSpace(t[k]) && t[k] != '@' {
          if k < i { assert t[k] == t[..i][k]; } else { assert t[k] == d[k - i - 1]; }
        }
      }
      if exists i' :: 0 < i' < |t| && t[i'] == '@'
                && (forall k :: 0 <= k < |t| && k != i' ==> !IsSpace(t[k]) && t[k] != '@')
                && (exists j :: i' + 1 < j < |t| - 1 && t[j] == '.') {
        var i' :| 0 < i' < |t| && t[i'] == '@'
                && (forall k :: 0 <= k < |t| && k != i' ==> !IsSpace(t[k]) && t[k] != '@')
                && (exists j :: i' + 1 < j < |t| - 1 && t[j] == '.');
        assert i == i';
        var j :| i + 1 < j < |t| - 1 && t[j] == '.';
        assert d[1..|d| - 1][j - i - 2] == '.';
      }
    }
  }

  /** `t.split("@")[1]`, or "" when there is no '@'. */
  function DomainPart(t: string): string {
    var parts := Split(t, {'@'});
    if |parts| > 1 then parts[1] else ""
  }

  /** On a well-shaped address the domain is everything after the '@'. */
  lemma DomainPartOfShape(t: string)
    requires IsEmailShape(t)
    ensures DomainPart(t) == t[FirstAt(t) + 1..]
  {
    var i := FirstAt(t);
    assert t == t[..i] + ['@'] + t[i + 1..];
    PlainMeaning(t[i + 1..]);
    SplitAtFirst(t[..i], '@', t[i + 1..], {'@'});
    SplitNoSep(t[i + 1..], {'@'});
  }

  /** What `validateEmailAddresses` decides about one input. */
  datatype Verdict = Accepted(address: string) | Rejected(error: string)

  function Check(email: string): (v: Verdict)
    ensures v.Accepted? ==> v.address == Trim(email) && v.address != ""
    ensures IsBlank(email) ==> v == Rejected("Empty email address found")
  {
    var t := Trim(email);
    if t == "" then Rejected("Empty email address found")
    else if !IsEmailShape(t) then Rejected("Invalid email format: " + t)
    else
      var domain := Lower(DomainPart(t));
      if |AllowedDomains| > 0 && domain !in AllowedDomains then Rejected(DomainRefusal(domain, t))
      else Accepted(t)
  }

  function DomainRefusal(domain: string, t: string): string {
    "Domain not allowed: " + domain + " (" + t + ")"
  }

  /** An address is accepted exactly when, trimmed, it is non-empty, well
      shaped and has an allowed domain; each refusal carries its message. */
  lemma CheckSpec(email: string)
    ensures var v := Check(email);
            (v.Accepted? <==> !IsBlank(email) && IsEmailShape(Trim(email)) && Lower(DomainPart(Trim(email))) in AllowedDomains)
            && (v.Accepted? ==> v.address == Trim(email))
            && (IsBlank(email) ==> v == Rejected("Empty email address found"))
            && (!IsBlank(email) && !IsEmailShape(Trim(email)) ==> v == Rejected("Invalid email format: " + Trim(email)))
  {
  }

  function TrimAll(parts: seq<string>): (r: seq<string>)
    ensures |r| == |parts| && forall k :: 0 <= k < |r| ==> r[k] == Trim(parts[k])
  {
    seq(|parts|, k requires 0 <= k < |parts| => Trim(parts[k]))
  }

  /** Each input is decided on its own. */
  function Verdicts(emails: seq<string>): (vs: seq<Verdict>)
    ensures |vs| == |emails|
  {
    if emails == [] then [] else Verdicts(emails[..|emails| - 1]) + [Check(emails[|emails| - 1])]
  }

  lemma {:induction false} VerdictAt(emails: seq<string>, k: nat)
    requires k < |emails|
    ensures Verdicts(emails)[k] == Check(emails[k])
  {
    var init := emails[..|emails| - 1];
    if k < |init| {
      VerdictAt(init, k);
      assert emails[k] == init[k];
    }
  }

  /** The address a verdict contributes: one when accepted, none otherwise. */
  function AddressOf(v: Verdict): seq<string> {
    if v.Accepted? then [v.address] else []
  }

  /** The error message a verdict contributes. */
  function ErrorOf(v: Verdict): seq<string> {
    if v.Rejected? then [v.error] else []
  }

  /** The accepted addresses among `vs`, in order. */
  function AcceptedAddresses(vs: seq<Verdict>): seq<string> {
    if vs == [] then [] else AcceptedAddresses(vs[..|vs| - 1]) + AddressOf(vs[|vs| - 1])
  }

  /** The refusal messages among `vs`, in order. */
  function RejectionErrors(vs: seq<Verdict>): seq<string> {
    if vs == [] then [] else RejectionErrors(vs[..|vs| - 1]) + ErrorOf(vs[|vs| - 1])
  }

  /** The accepted addresses of `emails`, in input order. */
  function ValidOnes(emails: seq<string>): seq<string> {
    AcceptedAddresses(Verdicts(emails))
  }

  /** The error messages for `emails`, in input order. */
  function ErrorsOf(emails: seq<string>): seq<string> {
    RejectionErrors(Verdicts(emails))
  }

  lemma {:induction false} VerdictsPartition(vs: seq<Verdict>)
    ensures |AcceptedAddresses(vs)| + |RejectionErrors(vs)| == |vs|
  {
    if vs != [] {
      VerdictsPartition(vs[..|vs| - 1]);
    }
  }

  /** Every input lands in exactly one of the two lists. */
  lemma ValidOnesPartition(emails: seq<string>)
    ensures |ValidOnes(emails)| + |ErrorsOf(emails)| == |emails|
  {
    VerdictsPartition(Verdicts(emails));
  }

  /** Every accepted address comes from an accepting verdict. */
  lemma {:induction false} AcceptedAddressesFrom(vs: seq<Verdict>)
    ensures forall k :: 0 <= k < |AcceptedAddresses(vs)| ==>
              exists j :: 0 <= j < |vs| && vs[j] == Accepted(AcceptedAddresses(vs)[k])
  {
    if vs != [] {
      var init := vs[..|vs| - 1];
      AcceptedAddressesFrom(init);
      var r := AcceptedAddresses(vs);
      var last := vs[|vs| - 1];
      assert r == AcceptedAddresses(init) + AddressOf(last);
      forall k | 0 <= k < |r| ensures exists j :: 0 <= j < |vs| && vs[j] == Accepted(r[k]) {
        if k < |AcceptedAddresses(init)| {
          assert r[k] == AcceptedAddresses(init)[k];
          var j :| 0 <= j < |init| && init[j] == Accepted(AcceptedAddresses(init)[k]);
          assert vs[j] == init[j];
        } else {
          assert last.Accepted? && r[k] == last.address;
          assert vs[|vs| - 1] == Accepted(r[k]);
        }
      }
    } else {
      assert AcceptedAddresses(vs) == [];
    }
  }

  /** Without a refusal every verdict is an acceptance, and the addresses
      are theirs, one for one. */
  lemma {:induction false} NoRejectionsKeepsAll(vs: seq<Verdict>)
    requires RejectionErrors(vs) == []
    ensures |AcceptedAddresses(vs)| == |vs|
    ensures forall k :: 0 <= k < |vs| ==> vs[k].Accepted? && AcceptedAddresses(vs)[k] == vs[k].address
  {
    if vs != [] {
      var init := vs[..|vs| - 1];
      var last := vs[|vs| - 1];
      assert RejectionErrors(vs) == RejectionErrors(init) + ErrorOf(last);
      assert RejectionErrors(init) == [] && ErrorOf(last) == [];
      NoRejectionsKeepsAll(init);
      var r := AcceptedAddresses(vs);
      assert r == AcceptedAddresses(init) + [last.address];
      forall k | 0 <= k < |vs| ensures vs[k].Accepted? && r[k] == vs[k].address {
        if k < |init| { assert vs[k] == init[k]; }
      }
    }
  }

  /** An accepted address is trimmed, well shaped, and has an allowed
      domain once lower-cased. */
  predicate Deliverable(v: string) {
    Trim(v) == v && IsEmailShape(v) && Lower(DomainPart(v)) in AllowedDomains
  }

  lemma ValidOnesAreValid(emails: seq<string>)
    ensures forall k :: 0 <= k < |ValidOnes(emails)| ==> Deliverable(ValidOnes(emails)[k])
  {
    var vs := Verdicts(emails);
    AcceptedAddressesFrom(vs);
    forall k | 0 <= k < |ValidOnes(emails)| ensures Deliverable(ValidOnes(emails)[k]) {
      var j :| 0 <= j < |vs| && vs[j] == Accepted(ValidOnes(emails)[k]);
      VerdictAt(emails, j);
      CheckSpec(emails[j]);
      TrimIdempotent(emails[j]);
    }
  }

  /** A list without errors is accepted whole, each address trimmed. */
  lemma NoErrorsKeepsAll(emails: seq<string>)
    requires ErrorsOf(emails) == []
    ensures ValidOnes(emails) == TrimAll(emails)
  {
    var vs := Verdicts(emails);
    assert RejectionErrors(vs) == [];
    NoRejectionsKeepsAll(vs);
    forall k | 0 <= k < |emails| ensures ValidOnes(emails)[k] == Trim(emails[k]) {
      VerdictAt(emails, k);
      CheckSpec(emails[k]);
    }
  }

  /** `Array.isArray(emails) ? emails : [emails]`. */
  datatype Addresses = One(address: string) | Many(addresses: seq<string>)

  function AsArray(emails: Addresses): (r: seq<string>)
    ensures emails.One? ==> r == [emails.address]
    ensures emails.Many? ==> r == emails.addresses
  {
    match emails
    case One(a) => [a]
    case Many(l) => l
  }

  /** `validateEmailAddresses`: the `forEach` over the inputs, pushing each
      trimmed valid address or the error for it. */
  method ValidateEmailAddresses(emails: Addresses) returns (validEmails: seq<string>, errors: seq<string>)
    ensures validEmails == ValidOnes(AsArray(emails)) && errors == ErrorsOf(AsArray(emails))
    ensures |validEmails| + |errors| == |AsArray(emails)|
  {
    var list := AsArray(emails);
    ghost var vs := Verdicts(list);
    validEmails := [];
    errors := [];
    var i := 0;
    while i < |list|
      invariant 0 <= i <= |list|
      invariant validEmails == AcceptedAddresses(vs[..i]) && errors == RejectionErrors(vs[..i])
    {
      assert vs[..i + 1][..i] == vs[..i];
      VerdictAt(list, i);
      match Check(list[i]) {
        case Accepted(address) => validEmails := validEmails + [address];
        case Rejected(error) => errors := errors + [error];
      }
      i := i + 1;
    }
    assert vs[..|list|] == vs;
    ValidOnesPartition(list);
  }

  function Prefixed(prefix: string, errors: seq<string>): (r: seq<string>)
    ensures |r| == |errors| && forall k :: 0 <= k < |r| ==> r[k] == prefix + errors[k]
  {
    seq(|errors|, k requires 0 <= k < |errors| => prefix + errors[k])
  }

  /** What `sendEmail` decides before building the message. */
  datatype Preflight = Proceed(to: seq<string>, cc: seq<string>, bcc: seq<string>) | Refuse(message: string)

  /** "Email validation failed: " followed by the errors joined with "; ". */
  function ValidationFailure(errors: seq<string>): string {
    "Email validation failed" + ": " + Join(errors, "; ")
  }

  /** "Total recipients (n) exceeds maximum allowed (50)". */
  function TooManyRecipients(total: nat): string {
    "Total recipients" + " (" + NatToString(total) + ") " + "exceeds maximum" + " allowed (" + NatToString(MaxRecipients) + ")"
  }

  /** The result object of `validateEmailAddresses`. */
  datatype Validation = Validation(validEmails: seq<string>, errors: seq<string>)

  function Validate(emails: seq<string>): (v: Validation)
    ensures v.validEmails == ValidOnes(emails) && v.errors == ErrorsOf(emails)
    ensures |v.validEmails| + |v.errors| == |emails|
  {
    ValidOnesPartition(emails);
    Validation(ValidOnes(emails), ErrorsOf(emails))
  }

  /** CC and BCC are validated only when given and non-empty; otherwise
      they contribute no address and no error. */
  function ValidateIfGiven(emails: seq<string>): (v: Validation)
    ensures |emails| == 0 ==> v == Validation([], [])
    ensures |emails| > 0 ==> v == Validate(emails)
  {
    if |emails| > 0 then Validate(emails) else Validation([], [])
  }

  function Total(to: Validation, cc: Validation, bcc: Validation): nat {
    |to.validEmails| + |cc.validEmails| + |bcc.validEmails|
  }

  /** The checks `sendEmail` makes on the three validations: any error
      refuses with all of them, CC and BCC errors tagged; then the count
      must be positive and at most the maximum. */
  function Decide(to: Validation, cc: Validation, bcc: Validation): (p: Preflight)
    ensures p.Proceed? <==>
              to.errors == [] && cc.errors == [] && bcc.errors == [] && 0 < Total(to, cc, bcc) <= MaxRecipients
    ensures p.Proceed? ==> p == Proceed(to.validEmails, cc.validEmails, bcc.validEmails)
    ensures p.Refuse? && (to.errors != [] || cc.errors != [] || bcc.errors != []) ==>
              p.message == ValidationFailure(to.errors + Prefixed("CC: ", cc.errors) + Prefixed("BCC: ", bcc.errors))
  {
    var allErrors := to.errors + Prefixed("CC: ", cc.errors) + Prefixed("BCC: ", bcc.errors);
    var total := Total(to, cc, bcc);
    if |allErrors| > 0 then Refuse(ValidationFailure(allErrors))
    else if total == 0 then Refuse("No valid recipients found")
    else if total > MaxRecipients then Refuse(TooManyRecipients(total))
    else Proceed(to.validEmails, cc.validEmails, bcc.validEmails)
  }

  /** The validation of TO, and of CC and BCC when they are non-empty, then
      the two count checks. */
  function SendPreflight(to: seq<string>, cc: seq<string>, bcc: seq<string>): (p: Preflight)
    ensures p.Proceed? <==>
              ErrorsOf(to) == [] && (|cc| > 0 ==> ErrorsOf(cc) == []) && (|bcc| > 0 ==> ErrorsOf(bcc) == [])
              && 0 < |ValidOnes(to)| + (if |cc| > 0 then |ValidOnes(cc)| else 0) + (if |bcc| > 0 then |ValidOnes(bcc)| else 0) <= MaxRecipients
    ensures p.Proceed? ==> p.to == ValidOnes(to) && 0 < |p.to| + |p.cc| + |p.bcc| <= MaxRecipients
    ensures p.Proceed? ==> p.cc == (if |cc| > 0 then ValidOnes(cc) else []) && p.bcc == (if |bcc| > 0 then ValidOnes(bcc) else [])
  {
    Decide(Validate(to), ValidateIfGiven(cc), ValidateIfGiven(bcc))
  }

  /** "No valid recipients found" needs a TO validation with neither an address
      nor an error, which a non-empty TO list never gives. */
  lemma NoValidRecipientsNeedsEmptyTo(to: Validation, cc: Validation, bcc: Validation)
    requires |to.validEmails| + |to.errors| > 0
    ensures Decide(to, cc, bcc) != Refuse("No valid recipients found")
  {
    var p := Decide(to, cc, bcc);
    if |to.errors| > 0 {
      assert p.message[0] == 'E';
    } else {
      assert Total(to, cc, bcc) > 0;
    }
  }

  /** The fields of a thrown error the handler inspects; `code` is "" and
      `responseCode` None when absent. */
  datatype Failure = Failure(message: string, code: string, responseCode: Option<int>)

  /** A failure `sendEmail` throws before it builds a message, recognised by its text. */
  predicate IsValidationFailure(e: Failure) {
    Contains(e.message, "Email validation failed")
  }

  predicate IsCountFailure(e: Failure) {
    Contains(e.message, "Total recipients") && Contains(e.message, "exceeds maximum")
  }

  predicate IsRefusal(e: Failure) {
    IsValidationFailure(e) || IsCountFailure(e)
  }

  /** The transport error codes the handler names. */
  predicate IsKnownCode(code: string) {
    code == "ECONNREFUSED" || code == "ETIMEDOUT" || code == "ENOTFOUND"
  }

  /** The status the send endpoint answers a failure with: the first branch
      of the handler's chain whose test holds decides. */
  function ErrorStatus(e: Failure): (status: int)
    ensures status in {400, 500, 502, 503, 504}
    ensures IsRefusal(e) ==> status == 400
    ensures !IsRefusal(e) && e.code == "ECONNREFUSED" ==> status == 503
    ensures !IsRefusal(e) && e.code == "ETIMEDOUT" ==> status == 504
    ensures !IsRefusal(e) && e.code == "ENOTFOUND" ==> status == 503
    ensures !IsRefusal(e) && !IsKnownCode(e.code) && e.responseCode.Some? && e.responseCode.value >= 500 ==> status == 502
    ensures !IsRefusal(e) && !IsKnownCode(e.code) && e.responseCode.Some? && 400 <= e.responseCode.value < 500 ==> status == 400
    ensures !IsRefusal(e) && !IsKnownCode(e.code) && (e.responseCode.None? || e.responseCode.value < 400) ==> status == 500
  {
    if IsValidationFailure(e) then 400
    else if IsCountFailure(e) then 400
    else if e.code == "ECONNREFUSED" then 503
    else if e.code == "ETIMEDOUT" then 504
    else if e.code == "ENOTFOUND" then 503
    else if e.responseCode.Some? && e.responseCode.value >= 500 then 502
    else if e.responseCode.Some? && e.responseCode.value >= 400 then 400
    else 500
  }

  /** The fixed replies of the transport branches. */
  const RefusedText: string := "Cannot connect to SMTP server umg.corp.amdocs.com:25. Please check network connectivity."
  const TimedOutText: string := "SMTP connection timed out. Please check network connectivity."
  const NotFoundText: string := "SMTP server umg.corp.amdocs.com not found. Please check DNS resolution."
  const ServerErrorText: string := "SMTP server error. Please try again later."
  const RejectedText: string := "Email rejected by server. Please check recipient addresses."
  const DefaultText: string := "Failed to send email"

  /** The message the endpoint answers a failure with: a refusal's own
      text, otherwise the fixed text of the branch that decides. */
  function ErrorMessage(e: Failure): (m: string)
    ensures IsRefusal(e) ==> m == e.message
    ensures !IsRefusal(e) && e.code == "ECONNREFUSED" ==> m == RefusedText
    ensures !IsRefusal(e) && e.code == "ETIMEDOUT" ==> m == TimedOutText
    ensures !IsRefusal(e) && e.code == "ENOTFOUND" ==> m == NotFoundText
    ensures !IsRefusal(e) && !IsKnownCode(e.code) && e.responseCode.Some? && e.responseCode.value >= 500 ==> m == ServerErrorText
    ensures !IsRefusal(e) && !IsKnownCode(e.code) && e.responseCode.Some? && 400 <= e.responseCode.value < 500 ==> m == RejectedText
    ensures !IsRefusal(e) && !IsKnownCode(e.code) && (e.responseCode.None? || e.responseCode.value < 400) ==> m == DefaultText
  {
    if IsValidationFailure(e) then e.message
    else if IsCountFailure(e) then e.message
    else if e.code == "ECONNREFUSED" then RefusedText
    else if e.code == "ETIMEDOUT" then TimedOutText
    else if e.code == "ENOTFOUND" then NotFoundText
    else if e.responseCode.Some? && e.responseCode.value >= 500 then ServerErrorText
    else if e.responseCode.Some? && e.responseCode.value >= 400 then RejectedText
    else DefaultText
  }

  lemma ValidationFailureAnswer(errors: seq<string>)
    ensures var m := ValidationFailure(errors);
            ErrorStatus(Failure(m, "", None)) == 400 && ErrorMessage(Failure(m, "", None)) == m
  {
    ContainsStart("Email validation failed", ": ");
    ContainsExtend("Email validation failed" + ": ", "Email validation failed", Join(errors, "; "));
  }

  lemma TooManyRecipientsAnswer(n: nat)
    ensures var m := TooManyRecipients(n);
            ErrorStatus(Failure(m, "", None)) == 400 && ErrorMessage(Failure(m, "", None)) == m
  {
    var t, e := "Total recipients", "exceeds maximum";
    var a := t + " (";
    var b := a + NatToString(n);
    var c := b + ") ";
    var d := c + e;
    var f := d + " allowed (";
    var g := f + NatToString(MaxRecipients);
    ContainsStart(t, " (");
    ContainsExtend(a, t, NatToString(n));
    ContainsExtend(b, t, ") ");
    ContainsExtend(c, t, e);
    ContainsExtend(d, t, " allowed (");
    ContainsExtend(f, t, NatToString(MaxRecipients));
    ContainsExtend(g, t, ")");
    ContainsEnd(c, e);
    ContainsExtend(d, e, " allowed (");
    ContainsExtend(f, e, NatToString(MaxRecipients));
    ContainsExtend(g, e, ")");
  }

  lemma NoRecipientsAnswer()
    ensures ErrorStatus(Failure("No valid recipients found", "", None)) == 500
  {
    NotContainsByFirstChar("No valid recipients found", "Email validation failed");
    NotContainsByFirstChar("No valid recipients found", "Total recipients");
  }

  /** A refused validation or an exceeded maximum is answered with 400 and
      its own message; the empty-recipients refusal falls through to 500. */
  lemma PreflightRefusalStatus(to: Validation, cc: Validation, bcc: Validation)
    requires Decide(to, cc, bcc).Refuse?
    ensures var m := Decide(to, cc, bcc).message;
            m != "No valid recipients found" ==>
              ErrorStatus(Failure(m, "", None)) == 400 && ErrorMessage(Failure(m, "", None)) == m
    ensures Decide(to, cc, bcc).message == "No valid recipients found" ==>
              ErrorStatus(Failure("No valid recipients found", "", None)) == 500
  {
    var allErrors := to.errors + Prefixed("CC: ", cc.errors) + Prefixed("BCC: ", bcc.errors);
    NoRecipientsAnswer();
    if |allErrors| > 0 {
      ValidationFailureAnswer(allErrors);
    } else {
      TooManyRecipientsAnswer(Total(to, cc, bcc));
    }
  }

  /** The raw `to`, `cc` and `bcc` fields of the request body. */
  datatype RecipientsField = Absent | Text(text: string) | Items(items: seq<string>) | OtherValue

  predicate Truthy(f: RecipientsField) {
    !f.Absent? && f != Text("")
  }

  /** The recipient separators of `split(/[,;\n]/)`. */
  const Separators: set<char> := {',', ';', '\n'}

  predicate NotEmpty(s: string) {
    |s| > 0
  }

  /** The pieces of `split(/[,;\n]/).map((email) => email.trim())`. */
  function Pieces(text: string): (ps: seq<string>)
    ensures |ps| >= 1
  {
    TrimAll(Split(text, Separators))
  }

  /** `parseRecipients`: a text field gives its pieces between separators,
      trimmed, with the empty ones dropped and the rest in order. */
  function ParseRecipients(f: RecipientsField): (r: seq<string>)
    ensures !Truthy(f) || f.OtherValue? ==> r == []
    ensures f.Items? ==> r == f.items
    ensures f.Text? ==> IsSubseq(r, Pieces(f.text)) && |r| == Count(NotEmpty, Pieces(f.text))
    ensures f.Text? ==> forall j :: 0 <= j < |Pieces(f.text)| && Pieces(f.text)[j] != "" ==> Pieces(f.text)[j] in r
    ensures f.Text? ==> forall k :: 0 <= k < |r| ==> r[k] in Pieces(f.text)
    ensures f.Text? ==> forall k :: 0 <= k < |r| ==> r[k] != ""
  {
    match f
    case Absent => []
    case Text(s) =>
      var r := Filter(NotEmpty, Pieces(s));
      FilterIsSubseq(NotEmpty, Pieces(s));
      r
    case Items(l) => l
    case OtherValue => []
  }

  /** A text field parses to pieces that are trimmed already. */
  lemma ParsedRecipientsAreTrimmed(s: string)
    ensures forall k :: 0 <= k < |ParseRecipients(Text(s))| ==> Trim(ParseRecipients(Text(s))[k]) == ParseRecipients(Text(s))[k]
  {
    var r := ParseRecipients(Text(s));
    var parts := Split(s, Separators);
    forall k | 0 <= k < |r| ensures Trim(r[k]) == r[k] {
      var j :| 0 <= j < |parts| && Pieces(s)[j] == r[k];
      TrimIdempotent(parts[j]);
    }
  }

  /** A text field parses to its non-blank pieces, each trimmed, with no
      separator left inside. */
  lemma ParsedRecipientsHaveNoSeparator(s: string)
    ensures forall k, c :: 0 <= k < |ParseRecipients(Text(s))| && c in Separators ==> c !in ParseRecipients(Text(s))[k]
  {
    var parts := Split(s, Separators);
    var r := ParseRecipients(Text(s));
    forall k, c | 0 <= k < |r| && c in Separators ensures c !in r[k] {
      var j :| 0 <= j < |parts| && Pieces(s)[j] == r[k];
      assert c !in parts[j];
      TrimKeepsAbsent(parts[j], c);
    }
  }

  /** The endpoint's first check and its empty-TO check both pass. */
  predicate Submitted(to: RecipientsField, subject: string, body: string) {
    Truthy(to) && subject != "" && body != "" && ParseRecipients(to) != []
  }

  /** The status once the checks pass: a refusal by `sendEmail` or a failed
      send goes through the error mapping, a send without failure is 200. */
  function SentStatus(p: Preflight, sendFailure: Option<Failure>): (status: int)
    ensures p.Refuse? ==> status == ErrorStatus(Failure(p.message, "", None))
    ensures p.Proceed? && sendFailure.Some? ==> status == ErrorStatus(sendFailure.value)
    ensures status == 200 <==> p.Proceed? && sendFailure.None?
  {
    match p
    case Refuse(m) => ErrorStatus(Failure(m, "", None))
    case Proceed(_, _, _) =>
      if sendFailure.Some? then ErrorStatus(sendFailure.value) else 200
  }

  /** The status of `POST /api/send-email`: 200 once the message is handed
      to the transport without failure (`sendFailure` is None). */
  function SendEmailStatus(to: RecipientsField, cc: RecipientsField, bcc: RecipientsField,
                           subject: string, body: string, sendFailure: Option<Failure>): (status: int)
    ensures !Truthy(to) || subject == "" || body == "" ==> status == 400
    ensures Truthy(to) && subject != "" && body != "" && ParseRecipients(to) == [] ==> status == 400
    ensures var p := SendPreflight(ParseRecipients(to), ParseRecipients(cc), ParseRecipients(bcc));
            Submitted(to, subject, body) ==>
              (p.Refuse? ==> status == ErrorStatus(Failure(p.message, "", None)))
              && (p.Proceed? && sendFailure.Some? ==> status == ErrorStatus(sendFailure.value))
              && (p.Proceed? && sendFailure.None? ==> status == 200)
    ensures status == 200 <==>
              Submitted(to, subject, body)
              && SendPreflight(ParseRecipients(to), ParseRecipients(cc), ParseRecipients(bcc)).Proceed?
              && sendFailure.None?
  {
    if !Submitted(to, subject, body) then 400
    else SentStatus(SendPreflight(ParseRecipients(to), ParseRecipients(cc), ParseRecipients(bcc)), sendFailure)
  }

  /** Through the endpoint, a request with recipients is refused only with
      400: the 500 of an empty recipient list cannot occur. */
  lemma EndpointRefusalsAre400(to: RecipientsField, cc: RecipientsField, bcc: RecipientsField,
                               subject: string, body: string, sendFailure: Option<Failure>)
    requires SendPreflight(ParseRecipients(to), ParseRecipients(cc), ParseRecipients(bcc)).Refuse?
    ensures SendEmailStatus(to, cc, bcc, subject, body, sendFailure) == 400
  {
    var toList := ParseRecipients(to);
    if Truthy(to) && subject != "" && body != "" && toList != [] {
      var toV, ccV, bccV := Validate(toList), ValidateIfGiven(ParseRecipients(cc)), ValidateIfGiven(ParseRecipients(bcc));
      NoValidRecipientsNeedsEmptyTo(toV, ccV, bccV);
      PreflightRefusalStatus(toV, ccV, bccV);
    }
  }
}
