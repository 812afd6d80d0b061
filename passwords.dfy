/**
 * Hybrid password verification (app.py): a stored hash in bcrypt format is
 * checked with bcrypt, every other stored hash with Werkzeug's checker, and
 * any exception from either checker counts as a failed verification.
 *
 * The two cryptographic checkers are not modelled: each is a parameter, a
 * function from (password, stored hash) to what the library call did.
 */
module Passwords {
  import opened Options

  /** What a library checker call did: returned a boolean, or raised. */
  datatype CheckResult = Verified(matches: bool) | Raised

  /** A checker applied to (password, stored hash). */
  type Checker = (string, string) -> CheckResult

  /** The prefix that marks a bcrypt hash ("2b" variant only). */
  const BcryptPrefix: string := "$2b$"

  datatype HashFormat = Bcrypt | Werkzeug

  /** `is_bcrypt_hash`: truthy iff the hash is nonempty and starts with `$2b$`. */
  predicate IsBcryptHash(hash: string)
    ensures IsBcryptHash(hash) <==>
      |hash| >= 4 && hash[0] == '$' && hash[1] == '2' && hash[2] == 'b' && hash[3] == '$'
    ensures IsBcryptHash(hash) ==> hash != ""
  {
    |BcryptPrefix| <= |hash| && hash[..|BcryptPrefix|] == BcryptPrefix
  }

  /** The checker a present, nonempty stored hash is routed to. */
  function FormatOf(hash: string): (f: HashFormat)
    ensures f == Bcrypt <==> |hash| >= 4 && hash[0] == '$' && hash[1] == '2' && hash[2] == 'b' && hash[3] == '$'
  {
    if IsBcryptHash(hash) then Bcrypt else Werkzeug
  }

  /** A checker call turned into a verdict: an exception fails closed. */
  function FailClosed(r: CheckResult): (ok: bool)
    ensures ok <==> r == Verified(true)
  {
    match r
    case Verified(m) => m
    case Raised => false
  }

  /**
   * `verify_password(password, stored_hash)`. `stored` is `None` when the
   * hash is absent; an empty string is rejected the same way.
   */
  function VerifyPassword(password: string, stored: Option<string>, bcrypt: Checker, werkzeug: Checker): (ok: bool)
    ensures stored == None || stored == Some("") ==> !ok
    ensures ok ==> stored.Some? && stored.value != ""
    ensures ok && FormatOf(stored.value) == Bcrypt ==> bcrypt(password, stored.value) == Verified(true)
    ensures ok && FormatOf(stored.value) == Werkzeug ==> werkzeug(password, stored.value) == Verified(true)
  {
    match stored
    case None => false
    case Some(hash) =>
      if hash == "" then false
      else if IsBcryptHash(hash) then FailClosed(bcrypt(password, hash))
      else FailClosed(werkzeug(password, hash))
  }

  /** An absent or empty stored hash is rejected whatever the checkers would do. */
  lemma NoHashConsultsNoChecker(password: string, stored: Option<string>, b1: Checker, w1: Checker, b2: Checker, w2: Checker)
    requires stored == None || stored == Some("")
    ensures VerifyPassword(password, stored, b1, w1) == VerifyPassword(password, stored, b2, w2) == false
  {
  }

  /**
   * A nonempty hash goes to exactly one checker: the verdict is that checker's
   * verdict with exceptions read as failure, and the other checker does not
   * influence it.
   */
  lemma RoutedToOneChecker(password: string, hash: string, bcrypt: Checker, werkzeug: Checker, other: Checker)
    requires hash != ""
    ensures IsBcryptHash(hash) ==>
      VerifyPassword(password, Some(hash), bcrypt, werkzeug) == FailClosed(bcrypt(password, hash))
      == VerifyPassword(password, Some(hash), bcrypt, other)
    ensures !IsBcryptHash(hash) ==>
      VerifyPassword(password, Some(hash), bcrypt, werkzeug) == FailClosed(werkzeug(password, hash))
      == VerifyPassword(password, Some(hash), other, werkzeug)
  {
  }

  /** Other bcrypt variants (`$2a$`, `$2y$`) are not recognised and go to Werkzeug. */
  lemma OtherBcryptVariantsGoToWerkzeug(rest: string)
    ensures FormatOf("$2a$" + rest) == Werkzeug
    ensures FormatOf("$2y$" + rest) == Werkzeug
    ensures FormatOf("$2b$" + rest) == Bcrypt
  {
    assert ("$2a$" + rest)[2] == 'a';
    assert ("$2y$" + rest)[2] == 'y';
    assert ("$2b$" + rest)[..4] == "$2b$";
  }

  /** A checker that raises never lets a password through. */
  lemma RaisingCheckerFailsClosed(password: string, hash: string, bcrypt: Checker, werkzeug: Checker)
    requires FormatOf(hash) == Bcrypt ==> bcrypt(password, hash) == Raised
    requires FormatOf(hash) == Werkzeug ==> werkzeug(password, hash) == Raised
    ensures !VerifyPassword(password, Some(hash), bcrypt, werkzeug)
  {
  }
}
