/** `UserRegisterViewModel`: the password and e-mail validators (regular
    expressions reduced to character classes and lengths), the registration
    check, and saving/validating credentials against the keychain item. */
module Registration {
  import opened Wrappers

  /** The character class `[a-zA-Z0-9@*#]`. */
  predicate IsPasswordChar(c: char) {
    ('a' <= c <= 'z') || ('A' <= c <= 'Z') || ('0' <= c <= '9') || c == '@' || c == '*' || c == '#'
  }

  /** `^([a-zA-Z0-9@*#]{8,15})$`: between 8 and 15 characters, all from
      the class. */
  predicate IsPasswordValid(password: string) {
    8 <= |password| <= 15 && forall k | 0 <= k < |password| :: IsPasswordChar(password[k])
  }

  /** Any one character outside the class (whitespace, `$`, `%`, `!` and
      every other symbol but `@`, `*` and `#`) makes a password invalid,
      whatever its length. */
  lemma PasswordRejectsOtherSymbols(password: string, k: int)
    requires 0 <= k < |password|
    requires !IsPasswordChar(password[k])
    ensures !IsPasswordValid(password)
  {
  }

  lemma PasswordExamples()
    ensures IsPasswordValid("Password347")
    ensures !IsPasswordValid("valid")
    ensures !IsPasswordValid("password with spaces")
  {
    assert !IsPasswordChar("password with spaces"[8]);
  }

  /** `matchPassword`: the password is valid and equals its confirmation. */
  predicate MatchPassword(password: string, confirmPassword: string) {
    IsPasswordValid(password) && password == confirmPassword
  }

  /** The class `[A-Z0-9a-z._%+-]` of the part before the '@'. */
  predicate IsLocalChar(c: char) {
    ('A' <= c <= 'Z') || ('0' <= c <= '9') || ('a' <= c <= 'z')
    || c == '.' || c == '_' || c == '%' || c == '+' || c == '-'
  }

  /** The class `[A-Za-z0-9.-]` of the domain. */
  predicate IsDomainChar(c: char) {
    ('A' <= c <= 'Z') || ('a' <= c <= 'z') || ('0' <= c <= '9') || c == '.' || c == '-'
  }

  predicate IsLetter(c: char) {
    ('A' <= c <= 'Z') || ('a' <= c <= 'z')
  }

  predicate AllLocal(s: string) {
    forall k | 0 <= k < |s| :: IsLocalChar(s[k])
  }

  predicate AllDomain(s: string) {
    forall k | 0 <= k < |s| :: IsDomainChar(s[k])
  }

  predicate AllLetters(s: string) {
    forall k | 0 <= k < |s| :: IsLetter(s[k])
  }

  /** The pattern `L+ @ D+ \. T{2,64}` matches the whole of `s` with the
      '@' at `i` and the final '.' at `j`. */
  predicate EmailSplit(s: string, i: int, j: int) {
    && 0 < i && i + 1 < j && j < |s|
    && s[i] == '@' && s[j] == '.'
    && AllLocal(s[..i])
    && AllDomain(s[i + 1..j])
    && 2 <= |s| - (j + 1) <= 64 && AllLetters(s[j + 1..])
  }

  /** What `NSPredicate(format: "SELF MATCHES %@", …)` accepts: some split
      of the whole string fits the pattern. */
  ghost predicate EmailPattern(s: string) {
    exists i, j | 0 <= i < |s| && 0 <= j < |s| :: EmailSplit(s, i, j)
  }

  /** The first position of `c` in `s`. */
  function IndexOf(s: string, c: char): (r: Option<nat>)
    ensures r.Some? ==> r.value < |s| && s[r.value] == c
    ensures r.Some? ==> forall k | 0 <= k < r.value :: s[k] != c
    ensures r.None? ==> forall k | 0 <= k < |s| :: s[k] != c
  {
    if s == [] then None
    else if s[0] == c then Some(0)
    else match IndexOf(s[1..], c)
      case None => None
      case Some(k) => Some(k + 1)
  }

  /** The last position of `c` in `s`. */
  function LastIndexOf(s: string, c: char): (r: Option<nat>)
    ensures r.Some? ==> r.value < |s| && s[r.value] == c
    ensures r.Some? ==> forall k | r.value < k < |s| :: s[k] != c
    ensures r.None? ==> forall k | 0 <= k < |s| :: s[k] != c
  {
    if s == [] then None
    else if s[|s| - 1] == c then Some(|s| - 1)
    else LastIndexOf(s[..|s| - 1], c)
  }

  /** `isEmailValid`, decided without search: the only place the '@' can
      be is its first occurrence and the only place the separating '.' can
      be is the last '.'. */
  predicate IsEmailValid(email: string) {
    match (IndexOf(email, '@'), LastIndexOf(email, '.'))
    case (Some(i), Some(j)) => EmailSplit(email, i, j)
    case _ => false
  }

  /** The deterministic check accepts exactly the strings the pattern
      matches. */
  lemma EmailValidIffPattern(s: string)
    ensures IsEmailValid(s) <==> EmailPattern(s)
  {
    if EmailPattern(s) {
      var i, j :| 0 <= i < |s| && 0 <= j < |s| && EmailSplit(s, i, j);
      var fa := IndexOf(s, '@');
      var ld := LastIndexOf(s, '.');
      assert fa.Some? && fa.value == i by {
        assert s[i] == '@';
        forall k | 0 <= k < i ensures s[k] != '@' {
          assert s[..i][k] == s[k];
        }
      }
      assert ld.Some? && ld.value == j by {
        assert s[j] == '.';
        forall k | j < k < |s| ensures s[k] != '.' {
          assert s[j + 1..][k - j - 1] == s[k];
        }
      }
    }
  }

  /** An accepted e-mail has exactly one '@', and after its last '.' come
      2 to 64 letters. */
  lemma EmailShape(s: string)
    requires IsEmailValid(s)
    ensures exists i | 0 <= i < |s| :: s[i] == '@' && forall k | 0 <= k < |s| && s[k] == '@' :: k == i
    ensures exists j | 0 <= j < |s| :: && s[j] == '.' && (forall k | j < k < |s| :: s[k] != '.')
                                        && 2 <= |s| - (j + 1) <= 64 && AllLetters(s[j + 1..])
  {
    var i := IndexOf(s, '@').value;
    var j := LastIndexOf(s, '.').value;
    assert EmailSplit(s, i, j);
    OnlyAtIsTheSplits(s, i, j);
    SplitTail(s, i, j);
  }

  /** The split's '.' is the last one, and after it come 2 to 64 letters. */
  lemma SplitTail(s: string, i: int, j: int)
    requires EmailSplit(s, i, j)
    ensures exists j' | 0 <= j' < |s| :: && s[j'] == '.' && (forall k | j' < k < |s| :: s[k] != '.')
                                         && 2 <= |s| - (j' + 1) <= 64 && AllLetters(s[j' + 1..])
  {
    forall k | j < k < |s| ensures s[k] != '.' {
      assert s[j + 1..][k - j - 1] == s[k];
    }
  }

  /** The split's '@' is the only one in `s`. */
  lemma OnlyAtIsTheSplits(s: string, i: int, j: int)
    requires EmailSplit(s, i, j)
    ensures 0 <= i < |s| && s[i] == '@' && forall k | 0 <= k < |s| && s[k] == '@' :: k == i
  {
    forall k | 0 <= k < |s| && s[k] == '@' ensures k == i {
      if k != i {
        SplitHasOneAt(s, i, j, k);
      }
    }
  }

  /** Only the split's own '@' is an '@': the three parts exclude it. */
  lemma SplitHasOneAt(s: string, i: int, j: int, k: int)
    requires EmailSplit(s, i, j)
    requires 0 <= k < |s| && k != i
    ensures s[k] != '@'
  {
    if k < i {
      assert s[..i][k] == s[k];
    } else if k < j {
      assert s[i + 1..j][k - i - 1] == s[k];
    } else if k > j {
      assert s[j + 1..][k - j - 1] == s[k];
    }
  }

  lemma EmailExampleAccepted()
    ensures IsEmailValid("user@example.com")
  {
    var s := "user@example.com";
    assert s[..4] == "user" && s[5..12] == "example" && s[13..] == "com";
    assert EmailSplit(s, 4, 12);
    EmailValidIffPattern(s);
  }

  lemma EmailExampleRejected()
    ensures !IsEmailValid("user")
  {
    assert IndexOf("user", '@').None?;
  }

  /** `isRegistrationComplete` as written: it reports failure only when
      the password is invalid, the passwords do not match and the e-mail
      is invalid, all at once. */
  predicate IsRegistrationComplete(email: string, password: string, confirmPassword: string) {
    !(!IsPasswordValid(password) && !MatchPassword(password, confirmPassword) && !IsEmailValid(email))
  }

  /** Because a match implies a valid password, the written check reduces
      to "the password is valid or the e-mail is valid". */
  lemma RegistrationCompleteCollapses(email: string, password: string, confirmPassword: string)
    ensures IsRegistrationComplete(email, password, confirmPassword)
        <==> IsPasswordValid(password) || IsEmailValid(email)
  {
  }

  /** A valid e-mail with an empty password and a mismatched confirmation
      passes the written check. */
  lemma RegistrationCompleteDefectWitness()
    ensures IsRegistrationComplete("user@example.com", "", "x")
    ensures !IsRegistrationCompleteIntended("user@example.com", "", "x")
  {
    EmailExampleAccepted();
  }

  /** The evident intent: every validation passes. */
  predicate IsRegistrationCompleteIntended(email: string, password: string, confirmPassword: string) {
    IsPasswordValid(password) && MatchPassword(password, confirmPassword) && IsEmailValid(email)
  }

  /** The intended check admits only a valid, confirmed password and a
      valid e-mail, and it is stricter than the written one. */
  lemma IntendedRegistrationRequiresAll(email: string, password: string, confirmPassword: string)
    ensures IsRegistrationCompleteIntended(email, password, confirmPassword)
        <==> 8 <= |password| <= 15 && (forall k | 0 <= k < |password| :: IsPasswordChar(password[k]))
             && password == confirmPassword && EmailPattern(email)
    ensures IsRegistrationCompleteIntended(email, password, confirmPassword)
        ==> IsRegistrationComplete(email, password, confirmPassword)
  {
    EmailValidIffPattern(email);
  }

  datatype Credentials = Credentials(username: string, password: string)

  /** The view model: its three published fields and the app's keychain
      item (`None` when retrieval fails: no item or an unreadable one). */
  class UserRegisterViewModel {
    var email: string
    var password: string
    var confirmPassword: string
    var keychain: Option<Credentials>

    constructor (stored: Option<Credentials>)
      ensures email == "" && password == "" && confirmPassword == ""
      ensures keychain == stored
    {
      email, password, confirmPassword := "", "", "";
      keychain := stored;
    }

    /** `saveCredentials`: the guard reads the view model's own fields,
        while the stored item is built from the arguments. Whether the
        keychain accepts the write is the foreign call's outcome. */
    method SaveCredentials(email: string, password: string, keychainAccepts: bool)
      modifies this`keychain
      ensures keychain == if IsRegistrationComplete(this.email, this.password, this.confirmPassword) && keychainAccepts
                          then Some(Credentials(email, password)) else old(keychain)
    {
      if IsRegistrationComplete(this.email, this.password, this.confirmPassword) {
        if keychainAccepts {
          keychain := Some(Credentials(email, password));
        }
      }
    }

    /** `validateCredentials`: true exactly when an item is retrieved and
        both its username and password are equal to the given ones. */
    method ValidateCredentials(username: string, password: string) returns (ok: bool)
      ensures ok <==> keychain.Some? && keychain.value == Credentials(username, password)
    {
      match keychain
      case None => ok := false;
      case Some(stored) => ok := username == stored.username && password == stored.password;
    }
  }
}
