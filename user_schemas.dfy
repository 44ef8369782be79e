/**
 * The registration request and response of server/schemas/user.py and the
 * field constraints the request is validated against before any handler
 * runs (a violation is answered with status 422).
 */
module UserSchemas {
  import opened Text

  datatype UserCreate = UserCreate(username: string, email: string, password: string)

  /** What registration returns: no password field of any kind. */
  datatype UserResponse = UserResponse(id: int, username: string, email: string, createdAt: nat)

  /** `min_length=3, max_length=50`. */
  predicate ValidUsername(username: string) {
    3 <= |username| <= 50
  }

  /** `min_length=8`. */
  predicate ValidPassword(password: string) {
    |password| >= 8
  }

  predicate NoAt(s: string) {
    forall k :: 0 <= k < |s| ==> s[k] != '@'
  }

  /** s is local + "@" + domain + "." + suffix with the '@' at i and the '.' at j, each part non-empty and without '@'. */
  predicate EmailSplit(s: string, i: int, j: int) {
    && 0 < i && i + 1 < j && j + 1 < |s|
    && s[i] == '@' && s[j] == '.'
    && NoAt(s[..i]) && NoAt(s[i + 1..j]) && NoAt(s[j + 1..])
  }

  /** The strings `^[^@]+@[^@]+\.[^@]+$` matches. */
  ghost predicate MatchesEmailPattern(s: string) {
    exists i, j :: EmailSplit(s, i, j)
  }

  function AtCount(s: string): nat {
    if s == [] then 0 else (if s[0] == '@' then 1 else 0) + AtCount(s[1..])
  }

  /** The index of the first '@', or |s| when there is none. */
  function FirstAt(s: string): (r: nat)
    ensures r <= |s|
    ensures r < |s| ==> s[r] == '@'
    ensures NoAt(s[..r])
  {
    if s == [] || s[0] == '@' then 0 else 1 + FirstAt(s[1..])
  }

  /** A '.' that is neither the first nor the last character. */
  predicate HasInnerDot(d: string) {
    exists j :: 1 <= j < |d| - 1 && d[j] == '.'
  }

  /**
   * The email check stated by its parts: exactly one '@', something before
   * it, and after it a domain with a '.' strictly inside.
   */
  predicate ValidEmail(s: string) {
    && AtCount(s) == 1
    && 0 < FirstAt(s) < |s|
    && HasInnerDot(s[FirstAt(s) + 1..])
  }

  predicate ValidUserCreate(u: UserCreate) {
    ValidUsername(u.username) && ValidEmail(u.email) && ValidPassword(u.password)
  }

  lemma {:induction false} AtCountAppend(a: string, b: string)
    ensures AtCount(a + b) == AtCount(a) + AtCount(b)
  {
    if a == [] {
      assert a + b == b;
    } else {
      assert (a + b)[1..] == a[1..] + b;
      AtCountAppend(a[1..], b);
    }
  }

  lemma {:induction false} AtCountZero(s: string)
    ensures AtCount(s) == 0 <==> NoAt(s)
  {
    if s != [] {
      AtCountZero(s[1..]);
      assert forall k :: 1 <= k < |s| ==> s[k] == s[1..][k - 1];
    }
  }

  /** The count of '@' in s around an '@' at index i. */
  lemma AtCountAround(s: string, i: int)
    requires 0 <= i < |s| && s[i] == '@'
    ensures AtCount(s) == AtCount(s[..i]) + 1 + AtCount(s[i + 1..])
  {
    assert s == s[..i] + ([s[i]] + s[i + 1..]);
    AtCountAppend(s[..i], [s[i]] + s[i + 1..]);
    AtCountAppend([s[i]], s[i + 1..]);
  }

  /** An '@' with none before it is the first one. */
  lemma FirstAtIs(s: string, i: int)
    requires 0 <= i < |s| && s[i] == '@' && NoAt(s[..i])
    ensures FirstAt(s) == i
  {
  }

  lemma NoAtAfter(s: string, i: int, j: int)
    requires 0 <= i < j < |s| && s[j] != '@'
    requires NoAt(s[i + 1..j]) && NoAt(s[j + 1..])
    ensures NoAt(s[i + 1..])
  {
    var d := s[i + 1..];
    forall k | 0 <= k < |d| ensures d[k] != '@' {
      if k < j - i - 1 {
        assert d[k] == s[i + 1..j][k];
      } else if k > j - i - 1 {
        assert d[k] == s[j + 1..][k - (j - i)];
      }
    }
  }

  lemma PatternImpliesValid(s: string, i: int, j: int)
    requires EmailSplit(s, i, j)
    ensures ValidEmail(s)
  {
    FirstAtIs(s, i);
    NoAtAfter(s, i, j);
    AtCountZero(s[..i]);
    AtCountZero(s[i + 1..]);
    AtCountAround(s, i);
    assert s[i + 1..][j - i - 1] == '.';
  }

  lemma ValidImpliesPattern(s: string)
    requires ValidEmail(s)
    ensures MatchesEmailPattern(s)
  {
    var i := FirstAt(s);
    var d := s[i + 1..];
    var j' :| 1 <= j' < |d| - 1 && d[j'] == '.';
    var j := i + 1 + j';
    AtCountAround(s, i);
    AtCountZero(s[..i]);
    AtCountZero(d);
    assert s[i + 1..j] == d[..j'];
    assert s[j + 1..] == d[j' + 1..];
    assert EmailSplit(s, i, j);
  }

  /** The regular expression and the stated email rule accept the same strings. */
  lemma EmailPatternIff(s: string)
    ensures MatchesEmailPattern(s) <==> ValidEmail(s)
  {
    if MatchesEmailPattern(s) {
      var i, j :| EmailSplit(s, i, j);
      PatternImpliesValid(s, i, j);
    }
    if ValidEmail(s) {
      ValidImpliesPattern(s);
    }
  }

  /** Any three non-empty parts without '@' make an accepted address. */
  lemma EmailFromParts(local: string, domain: string, suffix: string)
    requires local != [] && domain != [] && suffix != []
    requires NoAt(local) && NoAt(domain) && NoAt(suffix)
    ensures ValidEmail(local + "@" + domain + "." + suffix)
  {
    var s := local + "@" + domain + "." + suffix;
    var i, j := |local|, |local| + 1 + |domain|;
    assert s[..i] == local;
    assert s[i + 1..j] == domain;
    assert s[j + 1..] == suffix;
    PatternImpliesValid(s, i, j);
  }

  /** "invalid-email" has no '@' and is rejected. */
  lemma InvalidEmailRejected()
    ensures !ValidEmail("invalid-email")
  {
    AtCountZero("invalid-email");
  }

  /** A common address is accepted. */
  lemma PlainEmailAccepted()
    ensures ValidEmail("test@example.com")
  {
    assert "test@example.com" == "test" + "@" + "example" + "." + "com";
    EmailFromParts("test", "example", "com");
  }

  /** Usernames of 3 and 50 characters are accepted, of 2 and 51 characters rejected. */
  lemma UsernameLengthBoundary()
    ensures ValidUsername("abc") && !ValidUsername("ab")
    ensures ValidUsername(seq(50, _ => 'a')) && !ValidUsername(seq(51, _ => 'a'))
  {
  }

  lemma LowerNoAtSlice(s: string, a: int, b: int)
    requires 0 <= a <= b <= |s|
    requires NoAt(s[a..b])
    ensures NoAt(Lower(s)[a..b])
  {
    forall k | a <= k < b ensures Lower(s)[k] != '@' {
      assert s[a..b][k - a] == s[k];
      LowerKeepsPunctuation(s[k]);
    }
  }

  lemma LowerKeepsSplit(s: string, i: int, j: int)
    requires EmailSplit(s, i, j)
    ensures EmailSplit(Lower(s), i, j)
  {
    LowerKeepsPunctuation(s[i]);
    LowerKeepsPunctuation(s[j]);
    assert s[..i] == s[0..i];
    LowerNoAtSlice(s, 0, i);
    LowerNoAtSlice(s, i + 1, j);
    assert s[j + 1..] == s[j + 1..|s|];
    LowerNoAtSlice(s, j + 1, |s|);
  }

  /** Lower-casing keeps an address in the language of the email pattern. */
  lemma LowerKeepsEmailValid(s: string)
    requires ValidEmail(s)
    ensures ValidEmail(Lower(s))
  {
    ValidImpliesPattern(s);
    var i, j :| EmailSplit(s, i, j);
    LowerKeepsSplit(s, i, j);
    PatternImpliesValid(Lower(s), i, j);
  }

  /** A 7-character password is rejected, an 8-character one accepted. */
  lemma PasswordLengthBoundary()
    ensures !ValidPassword("1234567") && ValidPassword("12345678")
  {
  }

  /**
   * Registration lower-cases the validated username and email; under ASCII
   * lower-casing, the stored values still satisfy the username bounds and the
   * email pattern.
   */
  lemma LowerKeepsValidity(u: UserCreate)
    requires ValidUserCreate(u)
    ensures ValidUsername(Lower(u.username))
    ensures ValidEmail(Lower(u.email))
  {
    LowerKeepsEmailValid(u.email);
  }
}
