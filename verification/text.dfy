/** The JavaScript string operations the decision rules rely on, restricted to
    what the rules need: ASCII case folding (`toLowerCase`), substring search
    (`includes`), whitespace trimming (`trim`) and the regular-expression
    character classes `[A-Z]`, `[0-9]` and `\w`. */
module Text {

  predicate IsUpper(c: char) { 'A' <= c <= 'Z' }

  predicate IsLowerLetter(c: char) { 'a' <= c <= 'z' }

  predicate IsDigit(c: char) { '0' <= c <= '9' }

  /** The regular-expression class `\w`. */
  predicate IsWordChar(c: char) { IsUpper(c) || IsLowerLetter(c) || IsDigit(c) || c == '_' }

  function LowerChar(c: char): (d: char)
    ensures !IsUpper(d)
    ensures IsUpper(c) ==> IsLowerLetter(d) && d as int == c as int + 32
    ensures !IsUpper(c) ==> d == c
  {
    if IsUpper(c) then (c as int + 32) as char else c
  }

  function UpperChar(c: char): (d: char)
    ensures !IsLowerLetter(d)
    ensures IsLowerLetter(c) ==> IsUpper(d) && d as int + 32 == c as int
    ensures !IsLowerLetter(c) ==> d == c
  {
    if IsLowerLetter(c) then (c as int - 32) as char else c
  }

  /** `toLowerCase`, on the ASCII letters. */
  function Lower(s: string): (r: string)
    ensures |r| == |s|
    ensures forall i :: 0 <= i < |s| ==> r[i] == LowerChar(s[i])
  {
    seq(|s|, i requires 0 <= i < |s| => LowerChar(s[i]))
  }

  predicate HasNoUpper(s: string) { forall i :: 0 <= i < |s| ==> !IsUpper(s[i]) }

  /** Lowering leaves a text without upper-case letters unchanged, and only
      such a text. */
  lemma LowerFixedIffNoUpper(s: string)
    ensures Lower(s) == s <==> HasNoUpper(s)
  {
    if HasNoUpper(s) {
      assert forall i :: 0 <= i < |s| ==> Lower(s)[i] == s[i];
    } else {
      var i :| 0 <= i < |s| && IsUpper(s[i]);
      assert Lower(s)[i] != s[i];
    }
  }

  /** Lowering twice is lowering once. */
  lemma LowerIdempotent(s: string)
    ensures Lower(Lower(s)) == Lower(s)
  {
    LowerFixedIffNoUpper(Lower(s));
  }

  lemma LowerConcat(a: string, b: string)
    ensures Lower(a + b) == Lower(a) + Lower(b)
  {
    assert forall i :: 0 <= i < |a + b| ==> Lower(a + b)[i] == (Lower(a) + Lower(b))[i];
  }

  /** `needle` occurs in `hay` starting at index `i`. */
  predicate OccursAt(hay: string, i: int, needle: string)
  {
    0 <= i <= |hay| - |needle| && hay[i..i + |needle|] == needle
  }

  /** `hay.includes(needle)`: a substring test, so the empty needle occurs in
      every text. */
  predicate Contains(hay: string, needle: string)
  {
    exists i | 0 <= i <= |hay| - |needle| :: OccursAt(hay, i, needle)
  }

  lemma ContainsEmpty(hay: string)
    ensures Contains(hay, "")
  {
    assert OccursAt(hay, 0, "");
  }

  /** A text contains every piece of each of its substrings. */
  lemma ContainsFactor(hay: string, needle: string, k: nat, m: nat)
    requires k <= m <= |needle|
    requires Contains(hay, needle)
    ensures Contains(hay, needle[k..m])
  {
    var i :| 0 <= i <= |hay| - |needle| && OccursAt(hay, i, needle);
    forall j | 0 <= j < m - k
      ensures hay[i + k..i + m][j] == needle[k..m][j]
    {
      assert hay[i + k + j] == hay[i..i + |needle|][k + j];
    }
    assert hay[i + k..i + m] == needle[k..m];
    assert OccursAt(hay, i + k, needle[k..m]);
  }

  /** Containment is transitive: a text contains whatever its substrings
      contain. */
  lemma ContainsTrans(a: string, b: string, c: string)
    requires Contains(a, b) && Contains(b, c)
    ensures Contains(a, c)
  {
    var j :| 0 <= j <= |b| - |c| && OccursAt(b, j, c);
    ContainsFactor(a, b, j, j + |c|);
  }

  /** A needle one of whose characters never occurs in the text is not
      contained in it. */
  lemma CharAbsent(hay: string, needle: string, k: nat)
    requires k < |needle| && needle[k] !in hay
    ensures !Contains(hay, needle)
  {
  }

  predicate NoPair(hay: string, a: char, b: char)
  {
    forall i :: 0 <= i < |hay| - 1 ==> !(hay[i] == a && hay[i + 1] == b)
  }

  /** A needle two adjacent characters of which never occur adjacently in the
      text is not contained in it. */
  lemma PairAbsent(hay: string, needle: string, k: nat)
    requires k + 1 < |needle| && NoPair(hay, needle[k], needle[k + 1])
    ensures !Contains(hay, needle)
  {
  }

  /** A reason a needle cannot occur in a text: its character at `at`, or
      its pair of characters from `at`, never occurs there. */
  datatype Absence = MissingChar(at: nat) | MissingPair(at: nat)

  predicate Witnesses(hay: string, needle: string, w: Absence)
  {
    match w
    case MissingChar(k) => k < |needle| && needle[k] !in hay
    case MissingPair(k) => k + 1 < |needle| && NoPair(hay, needle[k], needle[k + 1])
  }

  lemma AbsenceRulesOut(hay: string, needle: string, w: Absence)
    requires Witnesses(hay, needle, w)
    ensures !Contains(hay, needle)
  {
    match w
    case MissingChar(k) => CharAbsent(hay, needle, k);
    case MissingPair(k) => PairAbsent(hay, needle, k);
  }

  /** The characters `trim` removes: ECMAScript WhiteSpace and
      LineTerminator code points. */
  predicate IsJsSpace(c: char)
  {
    || c == '\t' || c == '\n' || c == '\U{B}' || c == '\U{C}' || c == '\r' || c == ' '
    || c == '\U{A0}' || c == '\U{1680}' || '\U{2000}' <= c <= '\U{200A}'
    || c == '\U{2028}' || c == '\U{2029}' || c == '\U{202F}' || c == '\U{205F}'
    || c == '\U{3000}' || c == '\U{FEFF}'
  }

  predicate IsBlank(s: string) { forall i :: 0 <= i < |s| ==> IsJsSpace(s[i]) }

  function TrimStart(s: string): (r: string)
    ensures |r| <= |s| && r == s[|s| - |r|..]
    ensures IsBlank(s[..|s| - |r|])
    ensures |r| > 0 ==> !IsJsSpace(r[0])
  {
    if |s| > 0 && IsJsSpace(s[0]) then TrimStart(s[1..]) else s
  }

  function TrimEnd(s: string): (r: string)
    ensures |r| <= |s| && r == s[..|r|]
    ensures IsBlank(s[|r|..])
    ensures |r| > 0 ==> !IsJsSpace(r[|r| - 1])
  {
    if |s| > 0 && IsJsSpace(s[|s| - 1]) then TrimEnd(s[..|s| - 1]) else s
  }

  /** `trim`: drops leading and trailing white space. */
  function Trim(s: string): string
  {
    TrimEnd(TrimStart(s))
  }

  /** `!s.trim()` holds exactly of the empty and the all-white-space texts. */
  lemma TrimEmptyIffBlank(s: string)
    ensures Trim(s) == "" <==> IsBlank(s)
  {
    var t := TrimStart(s);
    if !IsBlank(s) {
      var i :| 0 <= i < |s| && !IsJsSpace(s[i]);
      assert i >= |s| - |t|;
      assert t[i - (|s| - |t|)] == s[i];
      assert |t| > 0 && !IsJsSpace(t[0]);
      assert |TrimEnd(t)| > 0;
    }
  }
}
