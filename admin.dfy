/**
 * The admin document schema: the email (trimmed, lower-cased, matched
 * against an address pattern), the password (at least six characters,
 * hashed before it is saved whenever it was changed), the role (only
 * `admin`, by default), and the password comparison. Hashing and
 * comparison are the functions the caller passes in.
 */
module AdminModel {
  import opened Common
  import opened Text

  const AdminRole: string := "admin"
  const PasswordMinLength: nat := 6

  // ---------------------------------------------------------------------
  // The email path: `trim` and `lowercase` setters
  // ---------------------------------------------------------------------

  /** The stored form of an email: surrounding whitespace removed, letters
      lower-cased. */
  function NormalizeEmail(e: string): (r: string)
    ensures Trimmed(r) && |r| <= |e|
    ensures forall i :: 0 <= i < |r| ==> !('A' <= r[i] <= 'Z')
  {
    LowerTrimmed(Trim(e));
    Lower(Trim(e))
  }

  /** The two setters commute, so the order in which the schema applies
      them does not matter: the stored email is the lower-cased email
      trimmed, and the trimmed email lower-cased. */
  lemma SettersCommute(e: string)
    ensures NormalizeEmail(e) == Trim(Lower(e)) == Lower(Trim(e))
  {
    TrimStartLower(e);
    TrimEndLower(TrimStart(e));
  }

  /** A stored email is stored unchanged when it is written again. */
  lemma NormalizeEmailIdempotent(e: string)
    ensures NormalizeEmail(NormalizeEmail(e)) == NormalizeEmail(e)
  {
    var t := Trim(e);
    LowerTrimmed(t);
    assert Trim(Lower(t)) == Lower(t);
    LowerIdempotent(t);
  }

  // ---------------------------------------------------------------------
  // The email pattern `^\w+([.-]?\w+)*@\w+([.-]?\w+)*(\.\w{2,3})+$`
  // ---------------------------------------------------------------------

  /** `\w`: a letter, a digit or an underscore. */
  predicate IsWordChar(c: char) {
    'a' <= c <= 'z' || 'A' <= c <= 'Z' || '0' <= c <= '9' || c == '_'
  }

  predicate IsSeparator(c: char) {
    c == '.' || c == '-'
  }

  /** `\w+([.-]?\w+)*`: word characters, with single dots or hyphens only
      between two of them. */
  predicate Dotted(s: string) {
    && s != [] && IsWordChar(s[0])
    && forall i :: 0 <= i < |s| ==>
         IsWordChar(s[i]) || (IsSeparator(s[i]) && i + 1 < |s| && IsWordChar(s[i + 1]))
  }

  /** `(\.\w{2,3})+`: one or more groups of a dot and two or three word
      characters. */
  predicate TopLevel(s: string)
    decreases |s|
  {
    && |s| >= 3 && s[0] == '.' && IsWordChar(s[1]) && IsWordChar(s[2])
    && (|s| == 3 || TopLevel(s[3..])
        || (IsWordChar(s[3]) && (|s| == 4 || TopLevel(s[4..]))))
  }

  /** The domain splits at `i` into a dotted name and the top-level groups. */
  predicate DomainSplit(d: string, i: int) {
    0 < i < |d| && Dotted(d[..i]) && TopLevel(d[i..])
  }

  /** The address splits at an `@` at position `i` into a dotted name and a
      domain. */
  predicate EmailSplit(e: string, i: int) {
    0 <= i < |e| && e[i] == '@' && Dotted(e[..i]) && DomainOk(e[i + 1..])
  }

  /** What follows the `@`: the regular expression's backtracking tries each
      split point from the left. */
  predicate DomainOk(d: string) {
    DomainFrom(d, 1)
  }

  predicate DomainFrom(d: string, i: nat)
    decreases |d| - i
  {
    i < |d| && (DomainSplit(d, i) || DomainFrom(d, i + 1))
  }

  /** The schema's `match` on the email. */
  predicate EmailPattern(e: string) {
    EmailFrom(e, 0)
  }

  predicate EmailFrom(e: string, i: nat)
    decreases |e| - i
  {
    i < |e| && (EmailSplit(e, i) || EmailFrom(e, i + 1))
  }

  lemma {:induction false} DomainFromIff(d: string, i: nat)
    ensures DomainFrom(d, i) <==> exists k :: i <= k && DomainSplit(d, k)
    decreases |d| - i
  {
    if i < |d| {
      DomainFromIff(d, i + 1);
      if exists k :: i <= k && DomainSplit(d, k) {
        var k :| i <= k && DomainSplit(d, k);
        if k > i {
          assert i + 1 <= k;
        }
      }
    }
  }

  lemma {:induction false} EmailFromIff(e: string, i: nat)
    ensures EmailFrom(e, i) <==> exists k :: i <= k && EmailSplit(e, k)
    decreases |e| - i
  {
    if i < |e| {
      EmailFromIff(e, i + 1);
      if exists k :: i <= k && EmailSplit(e, k) {
        var k :| i <= k && EmailSplit(e, k);
        if k > i {
          assert i + 1 <= k;
        }
      }
    }
  }

  /** The reference reading of the pattern: the address is a dotted name,
      an `@` and a domain, ... */
  lemma EmailPatternIff(e: string)
    ensures EmailPattern(e) <==> exists i :: EmailSplit(e, i)
  {
    EmailFromIff(e, 0);
  }

  /** ... and the domain is a dotted name followed by the top-level groups. */
  lemma DomainOkIff(d: string)
    ensures DomainOk(d) <==> exists j :: DomainSplit(d, j)
  {
    DomainFromIff(d, 1);
  }

  lemma {:induction false} TopLevelNoSpace(s: string)
    requires TopLevel(s)
    ensures forall i :: 0 <= i < |s| ==> !IsSpace(s[i]) && s[i] != '@'
  {
    if |s| > 3 && TopLevel(s[3..]) {
      TopLevelNoSpace(s[3..]);
      assert forall i :: 3 <= i < |s| ==> s[i] == s[3..][i - 3];
    } else if |s| > 4 && IsWordChar(s[3]) && TopLevel(s[4..]) {
      TopLevelNoSpace(s[4..]);
      assert forall i :: 4 <= i < |s| ==> s[i] == s[4..][i - 4];
    }
  }

  lemma DottedChar(s: string, k: nat)
    requires Dotted(s) && k < |s|
    ensures IsWordChar(s[k]) || IsSeparator(s[k])
  {
    assert 0 <= k < |s|;
    var c := s[k];
    assert IsWordChar(c) || (IsSeparator(c) && k + 1 < |s| && IsWordChar(s[k + 1]));
  }

  /** An address the pattern accepts has no whitespace and exactly one `@`,
      so trimming never changes it. */
  lemma EmailPatternShape(e: string)
    requires EmailPattern(e)
    ensures forall k :: 0 <= k < |e| ==> !IsSpace(e[k])
    ensures forall k, l :: 0 <= k < |e| && 0 <= l < |e| && e[k] == '@' && e[l] == '@' ==> k == l
    ensures Trim(e) == e
  {
    EmailPatternIff(e);
    var i :| EmailSplit(e, i);
    var d := e[i + 1..];
    DomainOkIff(d);
    var j :| DomainSplit(d, j);
    TopLevelNoSpace(d[j..]);
    forall k | 0 <= k < |e|
      ensures !IsSpace(e[k]) && (e[k] == '@' ==> k == i)
    {
      if k < i {
        assert e[k] == e[..i][k];
        DottedChar(e[..i], k);
      } else if i < k < i + 1 + j {
        assert e[k] == d[..j][k - i - 1];
        DottedChar(d[..j], k - i - 1);
      } else if k >= i + 1 + j {
        assert e[k] == d[j..][k - i - 1 - j];
      }
    }
  }

  /** A run of word characters is a dotted name. */
  lemma WordsDotted(s: string)
    requires s != [] && forall k :: 0 <= k < |s| ==> IsWordChar(s[k])
    ensures Dotted(s)
  {
  }

  /** A sample address the pattern accepts. */
  lemma SampleAddress()
    ensures EmailPattern("admin@streamflix.com")
  {
    var e := "admin@streamflix.com";
    var local, d := e[..5], e[6..];
    assert local == "admin" && e[5] == '@';
    WordsDotted(local);
    var name, top := d[..10], d[10..];
    assert name == "streamflix" && top == ".com";
    WordsDotted(name);
    assert TopLevel(top);
    assert DomainSplit(d, 10);
    DomainFromIff(d, 1);
    assert EmailSplit(e, 5);
    EmailFromIff(e, 0);
  }

  // ---------------------------------------------------------------------
  // Validation
  // ---------------------------------------------------------------------

  const EmailRequiredMessage: string := "Email is required"
  const EmailInvalidMessage: string := "Please provide a valid email address"
  const PasswordRequiredMessage: string := "Password is required"
  const PasswordShortMessage: string := "Password must be at least 6 characters"

  /** The rules, on a stored (normalised) email, the password as given and
      the role. */
  predicate ValidAdmin(email: string, password: string, role: string) {
    && email != "" && EmailPattern(email)
    && password != "" && |password| >= PasswordMinLength
    && role == AdminRole
  }

  function EmailError(email: string): (e: Option<string>)
    ensures e.None? <==> email != "" && EmailPattern(email)
  {
    if email == "" then Some(EmailRequiredMessage)
    else if !EmailPattern(email) then Some(EmailInvalidMessage)
    else None
  }

  function PasswordError(password: string): (e: Option<string>)
    ensures e.None? <==> password != "" && |password| >= PasswordMinLength
  {
    if password == "" then Some(PasswordRequiredMessage)
    else if |password| < PasswordMinLength then Some(PasswordShortMessage)
    else None
  }

  function RoleError(role: string): (e: Option<string>)
    ensures e.None? <==> role == AdminRole
  {
    if role == AdminRole then None
    else Some("`" + role + "` is not a valid enum value for path `role`.")
  }

  /** One message per failing path, in the order the schema declares them. */
  function ValidateAdmin(email: string, password: string, role: string): (errors: seq<string>)
    ensures errors == [] <==> ValidAdmin(email, password, role)
  {
    Listed(EmailError(email)) + Listed(PasswordError(password)) + Listed(RoleError(role))
  }

  // ---------------------------------------------------------------------
  // The document: pre-save hashing
  // ---------------------------------------------------------------------

  /** An admin document in memory, with Mongoose's record of whether its
      password was changed since it was last saved. */
  class AdminDocument {
    var email: string
    var password: string
    var role: string
    var passwordModified: bool

    /** `new Admin({ email, password, role })`: the setters run, an absent
        role takes its default, and every path counts as modified. */
    constructor (email: string, password: string, role: Option<string>)
      ensures this.email == NormalizeEmail(email) && this.password == password
      ensures this.role == role.GetOr(AdminRole) && passwordModified
    {
      this.email := NormalizeEmail(email);
      this.password := password;
      this.role := role.GetOr(AdminRole);
      passwordModified := true;
    }

    /** The pre-save hook: a modified password is replaced by its hash under
        a fresh salt; an unmodified one is left alone, so a stored hash is
        never hashed again. */
    method PreSave(hash: (string, string) -> string, salt: string)
      modifies this
      ensures old(passwordModified) ==> password == hash(old(password), salt)
      ensures !old(passwordModified) ==> password == old(password)
      ensures email == old(email) && role == old(role) && passwordModified == old(passwordModified)
    {
      if !passwordModified {
        return;
      }
      password := hash(password, salt);
    }

    /** `save()`: validation runs first, on the plaintext; a document that
        passes is hashed by the hook and is then no longer modified. */
    method Save(hash: (string, string) -> string, salt: string) returns (r: Result<(), seq<string>>)
      modifies this
      ensures r.Failure? <==> !ValidAdmin(old(email), old(password), old(role))
      ensures r.Failure? ==> r.error == ValidateAdmin(old(email), old(password), old(role))
      ensures r.Failure? ==> password == old(password) && passwordModified == old(passwordModified)
      ensures r.Success? ==> password == (if old(passwordModified) then hash(old(password), salt) else old(password))
      ensures r.Success? ==> !passwordModified
      ensures email == old(email) && role == old(role)
    {
      var errors := ValidateAdmin(email, password, role);
      if errors != [] {
        return Failure(errors);
      }
      PreSave(hash, salt);
      passwordModified := false;
      r := Success(());
    }
  }

  // ---------------------------------------------------------------------
  // Password comparison
  // ---------------------------------------------------------------------

  /** `comparePassword`, with `compare` standing for `bcrypt.compare` (`None`
      when it throws). `stored` is `None` when the password was not selected
      by the read that loaded the document. */
  function ComparePassword(candidate: string, stored: Option<string>,
                           compare: (string, string) -> Option<bool>): (ok: bool)
    ensures ok <==> stored.Some? && compare(candidate, stored.value) == Some(true)
  {
    match stored
    case None => false
    case Some(h) =>
      match compare(candidate, h)
      case None => false
      case Some(b) => b
  }

  /** A comparison that throws counts as a mismatch, never as a match. */
  lemma CompareFailsClosed(candidate: string, stored: string, compare: (string, string) -> Option<bool>)
    requires compare(candidate, stored).None?
    ensures !ComparePassword(candidate, Some(stored), compare)
  {
  }
}
