/** The credential validators of services/users.js: `validateEmail`,
    `validatePassword` and `validateUsername`.

    Each regular expression is given twice: once as a ghost predicate that
    reads the pattern literally (an existential per concatenation, a
    recursion per repetition, a quantified prefix per lookahead), and once as
    an executable check written with Split and LastIndexOf. Lemmas prove the
    two agree on every string. */
module Validators {
  import opened Text

  /** A value taken from a request body: a JavaScript string, or a value of
      any other type (a number, an object, null, or a missing field). */
  datatype JsValue = JsString(value: string) | JsNonString

  /** The 32 ASCII punctuation characters of the password pattern's last
      lookahead, `[!"#$%&'()*+,\-.\/:;<=>?@[\\\]^_`{|}~]`. */
  const Punctuation: string := "!\"#$%&'()*+,-./:;<=>?@[\\]^_`{|}~"

  /** The characters that `.` does not match in a JavaScript pattern without
      the `s` flag. */
  predicate IsLineTerminator(c: char)
  {
    c == '\n' || c == '\r' || c == '\U{2028}' || c == '\U{2029}'
  }

  /** The characters that `\s` matches in a JavaScript pattern: tab, line
      feed, vertical tab, form feed, carriage return, space, no-break space,
      the Unicode space separators, the line and paragraph separators and the
      byte order mark. */
  predicate IsJsWhitespace(c: char)
  {
    || '\t' <= c <= '\r' || c == ' ' || c == '\U{A0}' || c == '\U{1680}'
    || '\U{2000}' <= c <= '\U{200A}' || c == '\U{2028}' || c == '\U{2029}'
    || c == '\U{202F}' || c == '\U{205F}' || c == '\U{3000}' || c == '\U{FEFF}'
  }

  /** The characters that the local-part atom class names explicitly:
      `<>()[]\.,;:@"`. */
  predicate IsAtomSpecial(c: char)
  {
    || c == '<' || c == '>' || c == '(' || c == ')' || c == '[' || c == ']'
    || c == '\\' || c == '.' || c == ',' || c == ';' || c == ':' || c == '@' || c == '"'
  }

  /** ASCII punctuation, as the four ranges between the digits and letters. */
  predicate IsAsciiPunctuation(c: char)
  {
    || '!' <= c <= '/' || ':' <= c <= '@' || '[' <= c <= '`' || '{' <= c <= '~'
  }

  /** The character classes the three patterns use. */
  datatype CharClass =
    | AsciiDigit         // \d and [0-9]
    | AsciiLower         // [a-z]
    | AsciiUpper         // [A-Z]
    | AsciiLetter        // [a-zA-Z]
    | Symbol             // the punctuation class of the password pattern
    | AtomChar           // [^<>()\[\]\\.,;:\s@"]
    | LabelChar          // [a-zA-Z\-0-9]
    | NotLineTerminator  // .

  predicate InClass(c: char, k: CharClass)
  {
    match k
    case AsciiDigit => '0' <= c <= '9'
    case AsciiLower => 'a' <= c <= 'z'
    case AsciiUpper => 'A' <= c <= 'Z'
    case AsciiLetter => 'a' <= c <= 'z' || 'A' <= c <= 'Z'
    case Symbol => IsAsciiPunctuation(c)
    case AtomChar => !IsAtomSpecial(c) && !IsJsWhitespace(c)
    case LabelChar => 'a' <= c <= 'z' || 'A' <= c <= 'Z' || c == '-' || '0' <= c <= '9'
    case NotLineTerminator => !IsLineTerminator(c)
  }

  /** The punctuation ranges are exactly the characters listed in the
      password pattern. */
  lemma PunctuationRanges(c: char)
    ensures IsAsciiPunctuation(c) <==> c in Punctuation
  {
  }

  /** The classes that make up run of a dot-separated name: none holds the
      dot itself or the at sign. */
  predicate IsNameClass(k: CharClass)
  {
    k == AtomChar || k == LabelChar || k == AsciiLetter || k == AsciiDigit
  }

  /** `[k]*`: every character of `s` is in `k`. */
  predicate AllIn(s: string, k: CharClass)
  {
    forall i :: 0 <= i < |s| ==> InClass(s[i], k)
  }

  /** `[k]+`. */
  predicate Plus(s: string, k: CharClass)
  {
    |s| >= 1 && AllIn(s, k)
  }

  /** Some character of `s` is in `k`. */
  predicate Contains(s: string, k: CharClass)
  {
    exists i :: 0 <= i < |s| && InClass(s[i], k)
  }

  // ---------------------------------------------------------------------------
  // validatePassword (services/users.js:20-29)
  // ---------------------------------------------------------------------------

  /** The lookahead `(?=.*k)` tried at the start of the input: a character of
      `k` that only characters matched by `.` precede. */
  ghost predicate LookaheadFinds(s: string, k: CharClass)
  {
    exists i :: 0 <= i < |s| && InClass(s[i], k) && AllIn(s[..i], NotLineTerminator)
  }

  /** The password pattern read literally:
      `^(?=.*\d)(?=.*[a-z])(?=.*[A-Z])(?=.*[punctuation]).{8,}$`. */
  ghost predicate PasswordRegex(s: string)
  {
    && LookaheadFinds(s, AsciiDigit)
    && LookaheadFinds(s, AsciiLower)
    && LookaheadFinds(s, AsciiUpper)
    && LookaheadFinds(s, Symbol)
    && |s| >= 8 && AllIn(s, NotLineTerminator)
  }

  /** `validatePassword`: at least eight characters, no line terminator, and at
      least one ASCII digit, one `a-z`, one `A-Z` and one ASCII punctuation
      character, anywhere. This is exactly what the lookahead pattern accepts. */
  function ValidatePassword(password: string): (r: bool)
    ensures r <==> PasswordRegex(password)
  {
    && |password| >= 8
    && AllIn(password, NotLineTerminator)
    && Contains(password, AsciiDigit)
    && Contains(password, AsciiLower)
    && Contains(password, AsciiUpper)
    && Contains(password, Symbol)
  }

  /** The example password of the API documentation is valid. */
  lemma PasswordAcceptsExample()
    ensures ValidatePassword("Aa123123!")
  {
    assert InClass("Aa123123!"[2], AsciiDigit);
    assert InClass("Aa123123!"[1], AsciiLower);
    assert InClass("Aa123123!"[0], AsciiUpper);
    assert InClass("Aa123123!"[8], Symbol);
  }

  /** Each condition is needed on its own: a password that falls short of
      eight characters, holds a line terminator or lacks any one of the four
      classes is invalid. */
  lemma PasswordConditionsNecessary(s: string)
    requires || |s| < 8 || !AllIn(s, NotLineTerminator)
             || !Contains(s, AsciiDigit) || !Contains(s, AsciiLower)
             || !Contains(s, AsciiUpper) || !Contains(s, Symbol)
    ensures !ValidatePassword(s)
  {
  }

  /** Nine characters with no upper-case letter are invalid. */
  lemma PasswordRejectsNoUpper()
    ensures !ValidatePassword("abcdefg1!")
  {
  }

  /** Nine characters with no digit are invalid. */
  lemma PasswordRejectsNoDigit()
    ensures !ValidatePassword("Abcdefgh!")
  {
  }

  // ---------------------------------------------------------------------------
  // validateUsername (services/users.js:36-38)
  // ---------------------------------------------------------------------------

  /** `validateUsername`: the value is a string; its contents do not matter. */
  predicate ValidateUsername(username: JsValue)
  {
    username.JsString?
  }

  /** Every string is a valid username, the empty one included, and nothing
      else is. */
  lemma UsernameIsAnyString(v: JsValue)
    ensures ValidateUsername(v) <==> exists s :: v == JsString(s)
    ensures ValidateUsername(JsString(""))
  {
    if v.JsString? {
      assert v == JsString(v.value);
    }
  }

  // ---------------------------------------------------------------------------
  // validateEmail (services/users.js:6-13): the pattern read literally
  // ---------------------------------------------------------------------------

  /** `k+(\.k+)*`: runs of `k` joined by single dots. */
  ghost predicate DotRuns(s: string, k: CharClass)
    decreases |s|
  {
    || Plus(s, k)
    || exists i :: 0 < i < |s| && s[i] == '.' && Plus(s[..i], k) && DotRuns(s[i + 1..], k)
  }

  /** `".+"`: a double quote, one or more characters other than line
      terminators (quotes and at signs included), and a double quote. */
  predicate IsQuoted(s: string)
  {
    |s| >= 3 && s[0] == '"' && s[|s| - 1] == '"' && AllIn(s[1..|s| - 1], NotLineTerminator)
  }

  /** The local part: `([^<>()\[\]\\.,;:\s@"]+(\.[^<>()\[\]\\.,;:\s@"]+)*)|(".+")`. */
  ghost predicate LocalPartRegex(s: string)
  {
    DotRuns(s, AtomChar) || IsQuoted(s)
  }

  /** `[0-9]{1,3}`. */
  predicate IsOctet(s: string)
  {
    1 <= |s| <= 3 && AllIn(s, AsciiDigit)
  }

  /** `\[[0-9]{1,3}\.[0-9]{1,3}\.[0-9]{1,3}\.[0-9]{1,3}]`. */
  ghost predicate AddressLiteralRegex(d: string)
  {
    |d| >= 2 && d[0] == '[' && d[|d| - 1] == ']' && DottedQuadRegex(d[1..|d| - 1])
  }

  /** `([a-zA-Z\-0-9]+\.)+`: one or more labels, each followed by a dot. */
  ghost predicate LabelGroups(s: string)
    decreases |s|
  {
    exists i :: 0 < i < |s| && s[i] == '.' && Plus(s[..i], LabelChar) &&
      (i == |s| - 1 || LabelGroups(s[i + 1..]))
  }

  /** `([a-zA-Z\-0-9]+\.)+[a-zA-Z]{2,}`. */
  ghost predicate DottedDomainRegex(d: string)
  {
    exists j :: 0 < j < |d| && LabelGroups(d[..j]) && |d| - j >= 2 && AllIn(d[j..], AsciiLetter)
  }

  /** The domain: an address literal or a dotted name. */
  ghost predicate DomainRegex(d: string)
  {
    AddressLiteralRegex(d) || DottedDomainRegex(d)
  }

  /** The whole pattern, anchored at both ends: local part, `@`, domain. */
  ghost predicate EmailRegex(s: string)
  {
    exists i :: 0 <= i < |s| && s[i] == '@' && LocalPartRegex(s[..i]) && DomainRegex(s[i + 1..])
  }

  // ---------------------------------------------------------------------------
  // validateEmail: the executable check
  // ---------------------------------------------------------------------------

  /** Non-empty runs of `k` separated by single dots: every piece between dots
      is a non-empty run of `k`. */
  predicate IsDotSeparated(s: string, k: CharClass)
  {
    var parts := Split(s, '.');
    forall i :: 0 <= i < |parts| ==> Plus(parts[i], k)
  }

  /** An unquoted local part of atoms, or a quoted one. */
  predicate IsLocalPart(s: string)
  {
    IsDotSeparated(s, AtomChar) || IsQuoted(s)
  }

  /** `[` four dot-separated runs of one to three digits `]`; no range check. */
  predicate IsAddressLiteral(d: string)
  {
    && |d| >= 2 && d[0] == '[' && d[|d| - 1] == ']'
    && var parts := Split(d[1..|d| - 1], '.');
       |parts| == 4 && IsOctet(parts[0]) && IsOctet(parts[1]) && IsOctet(parts[2]) && IsOctet(parts[3])
  }

  /** A dotted name: before the last dot, labels of `[A-Za-z0-9-]` separated
      by single dots; after it, two or more ASCII letters. */
  predicate IsDottedDomain(d: string)
  {
    var m := LastIndexOf(d, '.');
    0 <= m && IsDotSeparated(d[..m], LabelChar) && |d| - (m + 1) >= 2 && AllIn(d[m + 1..], AsciiLetter)
  }

  predicate IsDomain(d: string)
  {
    IsAddressLiteral(d) || IsDottedDomain(d)
  }

  /** `validateEmail`: split at the last `@` (the domain can hold none, while
      a quoted local part may), then check both sides. */
  predicate ValidateEmail(email: string)
  {
    var at := LastIndexOf(email, '@');
    0 <= at && IsLocalPart(email[..at]) && IsDomain(email[at + 1..])
  }

  // ---------------------------------------------------------------------------
  // Why the two readings agree
  // ---------------------------------------------------------------------------

  /** A run of a name class holds no dot, so it is a single piece. */
  lemma RunIsOnePiece(s: string, k: CharClass)
    requires IsNameClass(k) && AllIn(s, k)
    ensures '.' !in s && Split(s, '.') == [s]
  {
    SplitWithout(s, '.');
  }

  /** Every character of a dotted run is a dot or in the class. */
  lemma {:induction false} DotRunsChars(s: string, k: CharClass)
    requires DotRuns(s, k)
    ensures forall i :: 0 <= i < |s| ==> s[i] == '.' || InClass(s[i], k)
    decreases |s|
  {
    if !Plus(s, k) {
      var i :| 0 < i < |s| && s[i] == '.' && Plus(s[..i], k) && DotRuns(s[i + 1..], k);
      DotRunsChars(s[i + 1..], k);
      forall j | 0 <= j < |s| ensures s[j] == '.' || InClass(s[j], k) {
        if j < i {
          assert s[j] == s[..i][j];
        } else if j > i {
          assert s[j] == s[i + 1..][j - i - 1];
        }
      }
    }
  }

  /** A run, a dot and a dot-separated string make a dot-separated string. */
  lemma DotSeparatedCons(s: string, a: string, b: string, k: CharClass)
    requires IsNameClass(k) && Plus(a, k) && IsDotSeparated(b, k) && s == a + ['.'] + b
    ensures IsDotSeparated(s, k)
  {
    RunIsOnePiece(a, k);
    SplitAround(a, b, '.');
    var rest := Split(b, '.');
    var parts := Split(s, '.');
    assert parts == [a] + rest;
    forall j | 0 <= j < |parts| ensures Plus(parts[j], k) {
      if j > 0 {
        assert parts[j] == rest[j - 1];
      }
    }
  }

  /** Pattern reading to split reading for dotted runs. */
  lemma {:induction false} DotRunsSeparated(s: string, k: CharClass)
    requires IsNameClass(k) && DotRuns(s, k)
    ensures IsDotSeparated(s, k)
    decreases |s|
  {
    if Plus(s, k) {
      RunIsOnePiece(s, k);
    } else {
      var i :| 0 < i < |s| && s[i] == '.' && Plus(s[..i], k) && DotRuns(s[i + 1..], k);
      var a, b := s[..i], s[i + 1..];
      DotRunsSeparated(b, k);
      Around(s, i);
      DotSeparatedCons(s, a, b, k);
    }
  }

  /** Pieces that are runs join into a dotted run. */
  lemma {:induction false} JoinedRuns(parts: seq<string>, k: CharClass)
    requires |parts| >= 1 && forall i :: 0 <= i < |parts| ==> Plus(parts[i], k)
    ensures DotRuns(Join(parts, '.'), k)
    decreases |parts|
  {
    if |parts| > 1 {
      JoinedRuns(parts[1..], k);
      var s := Join(parts, '.');
      var i := |parts[0]|;
      assert s == parts[0] + ['.'] + Join(parts[1..], '.');
      assert s[..i] == parts[0];
      assert s[i + 1..] == Join(parts[1..], '.');
      assert s[i] == '.';
    }
  }

  /** Split reading to pattern reading for dotted runs. */
  lemma SeparatedDotRuns(s: string, k: CharClass)
    requires IsDotSeparated(s, k)
    ensures DotRuns(s, k)
  {
    JoinSplit(s, '.');
    JoinedRuns(Split(s, '.'), k);
  }

  /** `k+(\.k+)*` matches exactly the dot-separated non-empty runs of `k`. */
  lemma DotRunsMatchSplit(s: string, k: CharClass)
    requires IsNameClass(k)
    ensures DotRuns(s, k) <==> IsDotSeparated(s, k)
  {
    if DotRuns(s, k) {
      DotRunsSeparated(s, k);
    }
    if IsDotSeparated(s, k) {
      SeparatedDotRuns(s, k);
    }
  }

  /** The local part pattern is matched exactly by IsLocalPart. */
  lemma LocalPartMatchesRegex(s: string)
    ensures LocalPartRegex(s) <==> IsLocalPart(s)
  {
    DotRunsMatchSplit(s, AtomChar);
  }

  /** `(L+\.)+` is a dotted run of labels followed by one dot, forwards. */
  lemma {:induction false} LabelGroupsShape(p: string)
    requires LabelGroups(p)
    ensures |p| >= 2 && p[|p| - 1] == '.' && DotRuns(p[..|p| - 1], LabelChar)
    decreases |p|
  {
    var i :| 0 < i < |p| && p[i] == '.' && Plus(p[..i], LabelChar) &&
      (i == |p| - 1 || LabelGroups(p[i + 1..]));
    if i < |p| - 1 {
      var r := p[i + 1..];
      LabelGroupsShape(r);
      var q := p[..|p| - 1];
      assert q[..i] == p[..i];
      assert q[i] == '.';
      assert q[i + 1..] == r[..|r| - 1];
      assert 0 < i < |q| && q[i] == '.' && Plus(q[..i], LabelChar) && DotRuns(q[i + 1..], LabelChar);
    }
  }

  /** `(L+\.)+` is a dotted run of labels followed by one dot, backwards. */
  lemma {:induction false} LabelGroupsOfRuns(q: string)
    requires DotRuns(q, LabelChar)
    ensures LabelGroups(q + ".")
    decreases |q|
  {
    var p := q + ".";
    assert p[..|q|] == q;
    if !Plus(q, LabelChar) {
      var i :| 0 < i < |q| && q[i] == '.' && Plus(q[..i], LabelChar) && DotRuns(q[i + 1..], LabelChar);
      LabelGroupsOfRuns(q[i + 1..]);
      assert p[..i] == q[..i];
      assert p[i + 1..] == q[i + 1..] + ".";
      assert 0 < i < |p| && p[i] == '.' && Plus(p[..i], LabelChar) && LabelGroups(p[i + 1..]);
    }
  }

  /** The dotted-domain pattern is matched exactly by IsDottedDomain: at least
      one `label.` prefix of `[A-Za-z0-9-]+` and a last label of two or more
      ASCII letters. */
  lemma DottedDomainMatchesRegex(d: string)
    ensures DottedDomainRegex(d) <==> IsDottedDomain(d)
  {
    if DottedDomainRegex(d) {
      var j :| 0 < j < |d| && LabelGroups(d[..j]) && |d| - j >= 2 && AllIn(d[j..], AsciiLetter);
      var p := d[..j];
      LabelGroupsShape(p);
      RunIsOnePiece(d[j..], AsciiLetter);
      assert d[j - 1] == p[|p| - 1];
      assert d[j..] == d[j - 1 + 1..];
      LastIndexOfAt(d, '.', j - 1);
      assert d[..j - 1] == p[..|p| - 1];
      DotRunsSeparated(d[..j - 1], LabelChar);
    }
    if IsDottedDomain(d) {
      var m := LastIndexOf(d, '.');
      SeparatedDotRuns(d[..m], LabelChar);
      LabelGroupsOfRuns(d[..m]);
      assert d[..m] + "." == d[..m + 1];
      assert |d| - (m + 1) >= 2 && AllIn(d[m + 1..], AsciiLetter);
      assert 0 < m + 1 < |d| && LabelGroups(d[..m + 1]);
    }
  }

  /** Four dot-free pieces joined by dots split back into those four. */
  lemma SplitFour(a: string, b: string, c: string, e: string)
    requires '.' !in a && '.' !in b && '.' !in c && '.' !in e
    ensures Split(a + ['.'] + (b + ['.'] + (c + ['.'] + e)), '.') == [a, b, c, e]
  {
    SplitWithout(a, '.');
    SplitWithout(b, '.');
    SplitWithout(c, '.');
    SplitWithout(e, '.');
    var r2 := c + ['.'] + e;
    SplitAround(c, e, '.');
    var r1 := b + ['.'] + r2;
    SplitAround(b, r2, '.');
    assert Split(r1, '.') == [b, c, e];
    SplitAround(a, r1, '.');
  }

  /** Four pieces join into the pieces with a dot between neighbours. */
  lemma JoinFour(parts: seq<string>)
    requires |parts| == 4
    ensures Join(parts, '.') == parts[0] + "." + parts[1] + "." + parts[2] + "." + parts[3]
  {
    assert parts[1..][1..][1..] == [parts[3]];
    assert Join(parts[1..][1..], '.') == parts[2] + "." + parts[3];
  }

  /** `[0-9]{1,3}\.[0-9]{1,3}\.[0-9]{1,3}\.[0-9]{1,3}`. */
  ghost predicate DottedQuadRegex(q: string)
  {
    exists a, b, c, e ::
      IsOctet(a) && IsOctet(b) && IsOctet(c) && IsOctet(e) && q == a + "." + b + "." + c + "." + e
  }

  /** Dotted concatenation, regrouped to the right. */
  lemma Regroup(a: string, b: string, c: string, e: string)
    ensures a + "." + b + "." + c + "." + e == a + ['.'] + (b + ['.'] + (c + ['.'] + e))
  {
  }

  /** Four octets joined by dots split back into those octets. */
  lemma QuadOfOctets(a: string, b: string, c: string, e: string)
    requires IsOctet(a) && IsOctet(b) && IsOctet(c) && IsOctet(e)
    ensures var parts := Split(a + "." + b + "." + c + "." + e, '.');
      |parts| == 4 && IsOctet(parts[0]) && IsOctet(parts[1]) && IsOctet(parts[2]) && IsOctet(parts[3])
  {
    Regroup(a, b, c, e);
    RunIsOnePiece(a, AsciiDigit);
    RunIsOnePiece(b, AsciiDigit);
    RunIsOnePiece(c, AsciiDigit);
    RunIsOnePiece(e, AsciiDigit);
    SplitFour(a, b, c, e);
  }

  /** Four dots-joined octets, forwards. */
  lemma QuadSplits(q: string)
    requires DottedQuadRegex(q)
    ensures var parts := Split(q, '.'); |parts| == 4 && IsOctet(parts[0]) && IsOctet(parts[1]) && IsOctet(parts[2]) && IsOctet(parts[3])
  {
    var a, b, c, e :| IsOctet(a) && IsOctet(b) && IsOctet(c) && IsOctet(e) && q == a + "." + b + "." + c + "." + e;
    QuadOfOctets(a, b, c, e);
  }

  /** Four dots-joined octets, backwards. */
  lemma SplitsToQuad(q: string)
    requires var parts := Split(q, '.'); |parts| == 4 && IsOctet(parts[0]) && IsOctet(parts[1]) && IsOctet(parts[2]) && IsOctet(parts[3])
    ensures DottedQuadRegex(q)
  {
    var parts := Split(q, '.');
    JoinSplit(q, '.');
    JoinFour(parts);
  }

  /** The address-literal pattern is matched exactly by IsAddressLiteral: four
      runs of one to three digits, with no check that they are at most 255. */
  lemma AddressLiteralMatchesRegex(d: string)
    ensures AddressLiteralRegex(d) <==> IsAddressLiteral(d)
  {
    if |d| >= 2 && d[0] == '[' && d[|d| - 1] == ']' {
      var q := d[1..|d| - 1];
      if DottedQuadRegex(q) {
        QuadSplits(q);
      } else if IsAddressLiteral(d) {
        SplitsToQuad(q);
      }
    }
  }

  /** No dotted domain the pattern accepts holds an at sign. */
  lemma DottedDomainHasNoAt(d: string)
    requires DottedDomainRegex(d)
    ensures '@' !in d
  {
    var j :| 0 < j < |d| && LabelGroups(d[..j]) && |d| - j >= 2 && AllIn(d[j..], AsciiLetter);
    var p := d[..j];
    LabelGroupsShape(p);
    var q := p[..|p| - 1];
    DotRunsChars(q, LabelChar);
    assert d == q + "." + d[j..];
    assert '@' !in q;
    assert '@' !in d[j..];
  }

  /** No domain the pattern accepts holds an at sign. */
  lemma DomainHasNoAt(d: string)
    requires DomainRegex(d)
    ensures '@' !in d
  {
    if DottedDomainRegex(d) {
      DottedDomainHasNoAt(d);
    } else {
      var q := d[1..|d| - 1];
      var a, b, c, e :| IsOctet(a) && IsOctet(b) && IsOctet(c) && IsOctet(e) && q == a + "." + b + "." + c + "." + e;
      assert d == "[" + q + "]";
      assert '@' !in a && '@' !in b && '@' !in c && '@' !in e;
    }
  }

  /** The domain checks agree with the domain pattern. */
  lemma DomainMatchesRegex(d: string)
    ensures DomainRegex(d) <==> IsDomain(d)
  {
    AddressLiteralMatchesRegex(d);
    DottedDomainMatchesRegex(d);
  }

  /** An address is accepted when its last at sign splits it into a local
      part and a domain. */
  lemma AcceptedAt(s: string, at: nat)
    requires at < |s| && s[at] == '@' && '@' !in s[at + 1..]
    requires IsLocalPart(s[..at]) && IsDomain(s[at + 1..])
    ensures ValidateEmail(s)
  {
    LastIndexOfAt(s, '@', at);
  }

  /** The two sides of a match pass the executable checks, and the domain
      holds no at sign. */
  lemma SidesMatch(local: string, domain: string)
    requires LocalPartRegex(local) && DomainRegex(domain)
    ensures IsLocalPart(local) && IsDomain(domain) && '@' !in domain
  {
    DomainHasNoAt(domain);
    LocalPartMatchesRegex(local);
    DomainMatchesRegex(domain);
  }

  /** A match of the pattern splits at the last at sign into valid sides. */
  lemma MatchSplitsAtLastAt(email: string)
    requires EmailRegex(email)
    ensures ValidateEmail(email)
  {
    var i :| 0 <= i < |email| && email[i] == '@' && LocalPartRegex(email[..i]) && DomainRegex(email[i + 1..]);
    SidesMatch(email[..i], email[i + 1..]);
    AcceptedAt(email, i);
  }

  /** A split at the last at sign into valid sides is a match. */
  lemma LastAtSplitMatches(email: string)
    requires ValidateEmail(email)
    ensures EmailRegex(email)
  {
    var at := LastIndexOf(email, '@');
    LocalPartMatchesRegex(email[..at]);
    DomainMatchesRegex(email[at + 1..]);
  }

  /** `validateEmail` accepts exactly the strings the pattern matches. */
  lemma ValidateEmailMatchesRegex(email: string)
    ensures ValidateEmail(email) <==> EmailRegex(email)
  {
    if EmailRegex(email) {
      MatchSplitsAtLastAt(email);
    }
    if ValidateEmail(email) {
      LastAtSplitMatches(email);
    }
  }

  /** An address with one at sign before the domain is valid exactly when
      both sides are. */
  lemma EmailOfParts(local: string, domain: string)
    requires '@' !in domain
    ensures ValidateEmail(local + "@" + domain) <==> IsLocalPart(local) && IsDomain(domain)
  {
    var s := local + "@" + domain;
    assert s[..|local|] == local;
    assert s[|local| + 1..] == domain;
    LastIndexOfAt(s, '@', |local|);
  }

  /** The empty string and every string without an at sign are rejected. */
  lemma EmailNeedsAt(s: string)
    requires '@' !in s
    ensures !ValidateEmail(s)
  {
  }

  // ---------------------------------------------------------------------------
  // Examples. Each address is written as local part, at sign and domain.
  // ---------------------------------------------------------------------------

  /** A domain of one label and a top label is a dotted name. */
  lemma DomainOfTwoLabels(d: string, m: nat)
    requires 0 < m < |d| - 2 && d[m] == '.'
    requires AllIn(d[..m], LabelChar) && AllIn(d[m + 1..], AsciiLetter)
    ensures IsDomain(d)
  {
    LastIndexOfAt(d, '.', m);
    RunIsOnePiece(d[..m], LabelChar);
  }

  /** A one-atom local part. */
  lemma ExampleLocalPart()
    ensures IsLocalPart("test")
  {
    RunIsOnePiece("test", AtomChar);
  }

  /** A name label and a three-letter top label. */
  lemma ExampleDomain()
    ensures IsDomain("test.com")
  {
    var d := "test.com";
    assert d[5..] == "com" && d[..4] == "test";
    DomainOfTwoLabels(d, 4);
  }

  /** A one-letter local part. */
  lemma ExampleShortLocalPart()
    ensures IsLocalPart("a")
  {
    RunIsOnePiece("a", AtomChar);
  }

  /** A one-letter label and a two-letter top label. */
  lemma ExampleShortDomain()
    ensures IsDomain("x.io")
  {
    var d := "x.io";
    assert d[2..] == "io" && d[..1] == "x";
    DomainOfTwoLabels(d, 1);
  }

  /** An address literal of four three-digit numbers, none of them an octet. */
  lemma ExampleAddressLiteral()
    ensures IsDomain("[999.999.999.999]")
  {
    var q := "[999.999.999.999]"[1..16];
    assert q == "999" + "." + "999" + "." + "999" + "." + "999";
    assert IsOctet("999");
    QuadSplits(q);
  }

  /** A quoted local part with a space and an at sign inside. */
  lemma ExampleQuotedLocalPart()
    ensures IsLocalPart("\"b c@d\"")
  {
    assert IsQuoted("\"b c@d\"");
  }

  /** The example address of the API documentation, `test@test.com`, is
      accepted. */
  lemma EmailAcceptsExample()
    ensures ValidateEmail("test" + "@" + "test.com")
  {
    ExampleLocalPart();
    ExampleDomain();
    EmailOfParts("test", "test.com");
  }

  /** An address literal is accepted whatever its numbers. */
  lemma EmailAcceptsAddressLiteral()
    ensures ValidateEmail("a" + "@" + "[999.999.999.999]")
  {
    ExampleShortLocalPart();
    ExampleAddressLiteral();
    EmailOfParts("a", "[999.999.999.999]");
  }

  /** A quoted local part may hold spaces and at signs. */
  lemma EmailAcceptsQuotedLocalPart()
    ensures ValidateEmail("\"b c@d\"" + "@" + "x.io")
  {
    ExampleQuotedLocalPart();
    ExampleShortDomain();
    EmailOfParts("\"b c@d\"", "x.io");
  }

  /** A last label of one letter is not a domain. */
  lemma ExampleShortTopLabel()
    ensures !IsDomain("b.c")
  {
    assert "b.c"[2..] == "c";
    LastIndexOfAt("b.c", '.', 1);
  }

  /** A last label of one letter is rejected. */
  lemma EmailRejectsShortTopLabel()
    ensures !ValidateEmail("a" + "@" + "b.c")
  {
    ExampleShortTopLabel();
    EmailOfParts("a", "b.c");
  }

  /** A domain with no dot and no opening bracket is neither form. */
  lemma UndottedIsNoDomain(d: string)
    requires '.' !in d && (d == [] || d[0] != '[')
    ensures !IsDomain(d)
  {
  }

  /** A domain without a `label.` prefix is rejected. */
  lemma EmailRejectsBareDomain()
    ensures !ValidateEmail("a" + "@" + "com")
  {
    UndottedIsNoDomain("com");
    EmailOfParts("a", "com");
  }

  /** Two dots in a row leave an empty atom. */
  lemma ExampleEmptyAtom()
    ensures !IsLocalPart("a..b")
  {
    assert "a..b" == "a" + ['.'] + ("" + ['.'] + "b");
    SplitAround("", "b", '.');
    SplitAround("a", "" + ['.'] + "b", '.');
    assert Split("a..b", '.')[1] == [];
  }

  /** Two dots in a row leave an empty atom, which is rejected. */
  lemma EmailRejectsEmptyAtom()
    ensures !ValidateEmail("a..b" + "@" + "x.io")
  {
    ExampleEmptyAtom();
    EmailOfParts("a..b", "x.io");
  }

  /** Three numbers in brackets are no address literal, nor a dotted name. */
  lemma ExampleThreeNumbers()
    ensures !IsDomain("[1.2.3]")
  {
    var d := "[1.2.3]";
    assert d[1..6] == "1" + ['.'] + ("2" + ['.'] + "3");
    SplitWithout("3", '.');
    SplitAround("2", "3", '.');
    SplitAround("1", "2" + ['.'] + "3", '.');
    assert d[5..] == "3]";
    LastIndexOfAt(d, '.', 4);
  }

  /** An address literal needs exactly four numbers. */
  lemma EmailRejectsThreeNumbers()
    ensures !ValidateEmail("a" + "@" + "[1.2.3]")
  {
    ExampleThreeNumbers();
    EmailOfParts("a", "[1.2.3]");
  }
}
