/** `PASSWORD_REGEX` and `validatePassword` of the common utilities. */
module Passwords {

  predicate IsUpper(c: char) { 'A' <= c <= 'Z' }
  predicate IsLowerLetter(c: char) { 'a' <= c <= 'z' }
  /** `\d` in a JavaScript regex without the `u` flag: ASCII digits only. */
  predicate IsDigit(c: char) { '0' <= c <= '9' }

  /** The class `[!@#$%^&*(),.?":{}|<>]`. */
  predicate IsSpecial(c: char)
  {
    c in {'!', '@', '#', '$', '%', '^', '&', '*', '(', ')', ',', '.', '?', '"', ':', '{', '}', '|', '<', '>'}
  }

  /** The class `[A-Za-z\d!@#$%^&*(),.?":{}|<>]`. */
  predicate IsAllowed(c: char)
  {
    IsUpper(c) || IsLowerLetter(c) || IsDigit(c) || IsSpecial(c)
  }

  /** The characters `.` does not match. */
  predicate IsLineTerminator(c: char)
  {
    c == '\n' || c == '\r' || c == '\U{2028}' || c == '\U{2029}'
  }

  /** The lookahead `(?=.*[...])` at the start of `p`. */
  predicate Lookahead(p: string, inClass: char -> bool)
  {
    |p| > 0 && (inClass(p[0]) || (!IsLineTerminator(p[0]) && Lookahead(p[1..], inClass)))
  }

  /** The main part `[allowed]{8,16}` anchored by `^` and `$`. */
  predicate AllowedRun(p: string)
  {
    8 <= |p| <= 16 && forall i :: 0 <= i < |p| ==> IsAllowed(p[i])
  }

  /** `validatePassword(p)`, i.e. `PASSWORD_REGEX.test(p)`. */
  predicate ValidatePassword(p: string)
  {
    Lookahead(p, IsUpper) && Lookahead(p, IsSpecial) && AllowedRun(p)
  }

  predicate HasUpper(p: string) { exists i :: 0 <= i < |p| && IsUpper(p[i]) }
  predicate HasSpecial(p: string) { exists i :: 0 <= i < |p| && IsSpecial(p[i]) }

  /** Inside a line, the lookahead succeeds exactly when some character is in the class. */
  lemma {:induction false} LookaheadIff(p: string, inClass: char -> bool)
    requires forall i :: 0 <= i < |p| ==> !IsLineTerminator(p[i])
    ensures Lookahead(p, inClass) <==> exists i :: 0 <= i < |p| && inClass(p[i])
  {
    if |p| > 0 {
      var t := p[1..];
      assert forall i :: 0 <= i < |t| ==> !IsLineTerminator(t[i]) by {
        forall i | 0 <= i < |t| ensures !IsLineTerminator(t[i]) { assert t[i] == p[i + 1]; }
      }
      LookaheadIff(t, inClass);
      if exists i :: 0 <= i < |p| && inClass(p[i]) {
        var i :| 0 <= i < |p| && inClass(p[i]);
        if i > 0 { assert inClass(t[i - 1]); }
      }
      if exists i :: 0 <= i < |t| && inClass(t[i]) {
        var i :| 0 <= i < |t| && inClass(t[i]);
        assert inClass(p[i + 1]);
      }
    }
  }

  /** A password passes the regex iff it has 8 to 16 characters, an upper-case letter,
      a special character, and nothing outside the allowed alphabet. */
  lemma ValidatePasswordIff(p: string)
    ensures ValidatePassword(p) <==>
      8 <= |p| <= 16 && HasUpper(p) && HasSpecial(p) && forall i :: 0 <= i < |p| ==> IsAllowed(p[i])
  {
    if forall i :: 0 <= i < |p| ==> IsAllowed(p[i]) {
      assert forall i :: 0 <= i < |p| ==> !IsLineTerminator(p[i]);
      LookaheadIff(p, IsUpper);
      LookaheadIff(p, IsSpecial);
    }
  }

  /** The regex alone bounds the length: `MinLength(8)` and `MaxLength(16)` add nothing to it. */
  lemma ValidPasswordLength(p: string)
    ensures ValidatePassword(p) ==> 8 <= |p| <= 16
  {
  }
}
