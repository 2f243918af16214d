/**
 * The student form's validator: each field is trimmed, every field must be
 * non-empty, and the email must match ^[^\s@]+@[^\s@]+\.[^\s@]+$.
 */
module Validation {
  import opened Strings

  /**
   * A WhiteSpace (section 12.2 of ECMA-262) or LineTerminator (section 12.3)
   * code point: the set that String.prototype.trim strips and that \s matches.
   * The Space_Separator category is that of Unicode 15.
   */
  predicate IsSpace(c: char) {
    || c == '\t' || c == '\U{000B}' || c == '\U{000C}' || c == ' '
    || c == '\U{00A0}' || c == '\U{FEFF}' || c == '\U{1680}'
    || ('\U{2000}' <= c <= '\U{200A}')
    || c == '\U{202F}' || c == '\U{205F}' || c == '\U{3000}'
    || c == '\n' || c == '\r' || c == '\U{2028}' || c == '\U{2029}'
  }

  predicate NoSpace(s: string) {
    forall k :: 0 <= k < |s| ==> !IsSpace(s[k])
  }

  // ---------------------------------------------------------------------------
  // Trimming

  function TrimStart(s: string): (r: string)
    ensures |r| <= |s| && r == s[|s| - |r|..]
    ensures forall k :: 0 <= k < |s| - |r| ==> IsSpace(s[k])
    ensures r == [] || !IsSpace(r[0])
  {
    if s != [] && IsSpace(s[0]) then TrimStart(s[1..]) else s
  }

  function TrimEnd(s: string): (r: string)
    ensures |r| <= |s| && r == s[..|r|]
    ensures forall k :: |r| <= k < |s| ==> IsSpace(s[k])
    ensures r == [] || !IsSpace(r[|r| - 1])
  {
    if s != [] && IsSpace(s[|s| - 1]) then TrimEnd(s[..|s| - 1]) else s
  }

  /** s[i..j] is what is left of s once its leading and trailing spaces are cut. */
  ghost predicate TrimmedAt(s: string, i: int, j: int) {
    && 0 <= i <= j <= |s|
    && (forall k :: 0 <= k < i ==> IsSpace(s[k]))
    && (forall k :: j <= k < |s| ==> IsSpace(s[k]))
    && (i < j ==> !IsSpace(s[i]) && !IsSpace(s[j - 1]))
  }

  /**
   * Cutting leading spaces (giving t) and then trailing spaces (giving r) is
   * the cut TrimmedAt describes.
   */
  lemma CutsMeet(s: string, t: string, r: string)
    requires |t| <= |s| && t == s[|s| - |t|..]
    requires forall k :: 0 <= k < |s| - |t| ==> IsSpace(s[k])
    requires t == [] || !IsSpace(t[0])
    requires |r| <= |t| && r == t[..|r|]
    requires forall k :: |r| <= k < |t| ==> IsSpace(t[k])
    requires r == [] || !IsSpace(r[|r| - 1])
    ensures TrimmedAt(s, |s| - |t|, |s| - |t| + |r|)
    ensures r == s[|s| - |t|..|s| - |t| + |r|]
  {
    var i := |s| - |t|;
    forall k | i + |r| <= k < |s|
      ensures IsSpace(s[k])
    {
      assert s[k] == t[k - i];
    }
    if r != [] {
      assert r[0] == t[0] == s[i];
      assert r[|r| - 1] == t[|r| - 1] == s[i + |r| - 1];
    }
  }

  /** String.prototype.trim. */
  function Trim(s: string): (r: string)
    ensures |r| <= |s|
    ensures r == [] || (!IsSpace(r[0]) && !IsSpace(r[|r| - 1]))
  {
    TrimEnd(TrimStart(s))
  }

  /** Trim cuts off exactly the leading and trailing spaces. */
  lemma TrimIsCut(s: string)
    ensures exists i, j :: TrimmedAt(s, i, j) && Trim(s) == s[i..j]
  {
    var t := TrimStart(s);
    CutsMeet(s, t, TrimEnd(t));
  }

  /** Only one cut fits the description: Trim is determined by TrimmedAt. */
  lemma TrimmedAtUnique(s: string, i: int, j: int, i': int, j': int)
    requires TrimmedAt(s, i, j) && TrimmedAt(s, i', j')
    ensures s[i..j] == s[i'..j']
  {
    if i < j && i' < j' {
      assert !(i < i') && !(i' < i) && !(j < j') && !(j' < j);
    }
  }

  lemma TrimIdempotent(s: string)
    ensures Trim(Trim(s)) == Trim(s)
  {
    var r := Trim(s);
    TrimIsCut(s);
    var i, j :| TrimmedAt(s, i, j) && r == s[i..j];
    assert TrimmedAt(r, 0, |r|);
    TrimIsCut(r);
    var i', j' :| TrimmedAt(r, i', j') && Trim(r) == r[i'..j'];
    TrimmedAtUnique(r, 0, |r|, i', j');
  }

  /** A field is rejected as empty exactly when it holds nothing but spaces. */
  lemma TrimEmptyIffAllSpace(s: string)
    ensures Trim(s) == [] <==> forall k :: 0 <= k < |s| ==> IsSpace(s[k])
  {
    var r := Trim(s);
    TrimIsCut(s);
    var i, j :| TrimmedAt(s, i, j) && r == s[i..j];
    if forall k :: 0 <= k < |s| ==> IsSpace(s[k]) {
      assert !(i < j);
    }
  }

  // ---------------------------------------------------------------------------
  // The email pattern

  /** A character [^\s@] accepts. */
  predicate Plain(c: char) {
    !IsSpace(c) && c != '@'
  }

  /** ^[^\s@]+@[^\s@]+\.[^\s@]+$ matches s with the '@' at index at and the literal '.' at index dot. */
  ghost predicate EmailMatchAt(s: string, at: int, dot: int) {
    && 0 < at && at + 1 < dot && dot + 1 < |s|
    && s[at] == '@' && s[dot] == '.'
    && forall k :: 0 <= k < |s| && k != at ==> Plain(s[k])
  }

  ghost predicate MatchesEmailPattern(s: string) {
    exists at, dot :: EmailMatchAt(s, at, dot)
  }

  /** A '.' that is neither the first nor the last character of d. */
  predicate DotInside(d: string) {
    exists k :: 0 < k < |d| - 1 && d[k] == '.'
  }

  /**
   * The email test decided from the first '@' at index at: no space, a
   * non-empty part before it, no other '@' and a '.' inside the part after it.
   */
  predicate EmailShapedAt(s: string, at: nat) {
    && NoSpace(s)
    && 0 < at < |s|
    && '@' !in s[at + 1..]
    && DotInside(s[at + 1..])
  }

  /** The email test of the submit handler, computed without searching for a match. */
  predicate EmailShaped(s: string): (b: bool)
    ensures b <==> MatchesEmailPattern(s)
  {
    EmailShapedIffPattern(s);
    EmailShapedAt(s, IndexOf(s, '@'))
  }

  lemma EmailShapedIffPattern(s: string)
    ensures EmailShapedAt(s, IndexOf(s, '@')) <==> MatchesEmailPattern(s)
  {
    if EmailShapedAt(s, IndexOf(s, '@')) {
      var at := IndexOf(s, '@');
      var d := s[at + 1..];
      var k :| 0 < k < |d| - 1 && d[k] == '.';
      forall m | 0 <= m < |s| && m != at
        ensures Plain(s[m])
      {
        if m > at { assert s[m] == d[m - at - 1]; }
      }
      assert EmailMatchAt(s, at, at + 1 + k);
    }
    if MatchesEmailPattern(s) {
      var at, dot :| EmailMatchAt(s, at, dot);
      assert IndexOf(s, '@') == at by {
        var i := IndexOf(s, '@');
        assert !(i < at) && !(i > at);
      }
      var d := s[at + 1..];
      assert d[dot - at - 1] == '.';
      assert '@' !in d by {
        forall m | 0 <= m < |d| ensures d[m] != '@' { assert d[m] == s[at + 1 + m]; }
      }
    }
  }

  // ---------------------------------------------------------------------------
  // The form

  /** The trimmed form fields that a confirmed action sends. */
  datatype Draft = Draft(name: string, email: string, department: string)

  datatype Verdict = Accepted(draft: Draft) | MissingField | InvalidEmail

  /** The checks of the submit handler, in its order: emptiness first, then the email pattern. */
  function Validate(name: string, email: string, department: string): (v: Verdict)
    ensures v == MissingField <==> Trim(name) == [] || Trim(email) == [] || Trim(department) == []
    ensures v == InvalidEmail <==>
      Trim(name) != [] && Trim(email) != [] && Trim(department) != [] && !MatchesEmailPattern(Trim(email))
    ensures v.Accepted? ==> v.draft == Draft(Trim(name), Trim(email), Trim(department))
  {
    var d := Draft(Trim(name), Trim(email), Trim(department));
    if d.name == [] || d.email == [] || d.department == [] then MissingField
    else if !EmailShaped(d.email) then InvalidEmail
    else Accepted(d)
  }

  /** A form with a field of nothing but spaces is reported as missing a field, and only such a form. */
  lemma BlankFieldIsMissing(name: string, email: string, department: string)
    ensures Validate(name, email, department) == MissingField <==>
      || (forall k :: 0 <= k < |name| ==> IsSpace(name[k]))
      || (forall k :: 0 <= k < |email| ==> IsSpace(email[k]))
      || (forall k :: 0 <= k < |department| ==> IsSpace(department[k]))
  {
    TrimEmptyIffAllSpace(name);
    TrimEmptyIffAllSpace(email);
    TrimEmptyIffAllSpace(department);
  }

  /** The example address from the form's placeholder is accepted. */
  lemma AcceptsPlainAddress()
    ensures MatchesEmailPattern("ada@example.com")
  {
    assert EmailMatchAt("ada@example.com", 3, 11);
  }

  /** An address without a dot after the '@' is rejected. */
  lemma RejectsDotlessDomain()
    ensures !MatchesEmailPattern("a@b")
  {
    EmailShapedIffPattern("a@b");
  }

  /** A text without '@' is rejected. */
  lemma RejectsMissingAt()
    ensures !MatchesEmailPattern("not-an-email")
  {
    var s := "not-an-email";
    assert forall k :: 0 <= k < |s| ==> s[k] != '@';
  }

  /** Inner whitespace is rejected. */
  lemma RejectsInnerSpace()
    ensures !MatchesEmailPattern("a b@c.de")
  {
    EmailShapedIffPattern("a b@c.de");
    assert IsSpace("a b@c.de"[1]);
  }

  /** A second '@' is rejected. */
  lemma RejectsTwoAts()
    ensures !MatchesEmailPattern("a@b@c.de")
  {
    EmailShapedIffPattern("a@b@c.de");
    assert IndexOf("a@b@c.de", '@') == 1;
    assert "a@b@c.de"[2..][1] == '@';
  }
}
