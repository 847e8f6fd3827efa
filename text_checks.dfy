/**
 * The string checks the form pages make before calling the backend: JavaScript's notion of
 * whitespace and `String.prototype.trim`, the e-mail pattern `^[^\s@]+@[^\s@]+\.[^\s@]+$`, and the
 * falsiness fallback used for messages and rendered fields.
 */
module TextChecks {
  import opened Wrappers

  // ---------------------------------------------------------------------------------------
  // whitespace and trim
  // ---------------------------------------------------------------------------------------

  /** The characters `\s` matches and `trim` removes: ECMAScript WhiteSpace and LineTerminator. */
  predicate IsSpace(c: char)
  {
    || c == '\t' || c == '\n' || c == '\U{B}' || c == '\U{C}' || c == '\r' || c == ' '
    || c == '\U{A0}' || c == '\U{1680}' || ('\U{2000}' <= c <= '\U{200A}')
    || c == '\U{2028}' || c == '\U{2029}' || c == '\U{202F}' || c == '\U{205F}'
    || c == '\U{3000}' || c == '\U{FEFF}'
  }

  predicate AllSpace(s: string)
  {
    SpaceBetween(s, 0, |s|)
  }

  /** Every character at positions `lo` .. `hi`-1 is whitespace. */
  predicate SpaceBetween(s: string, lo: int, hi: int)
    requires 0 <= lo <= hi <= |s|
  {
    forall k :: lo <= k < hi ==> IsSpace(s[k])
  }

  /** Where the text starts: the first position at or after `from` that is not whitespace, or `|s|`. */
  function TextStart(s: string, from: nat): (r: nat)
    requires from <= |s|
    ensures from <= r <= |s| && SpaceBetween(s, from, r)
    ensures r < |s| ==> !IsSpace(s[r])
    decreases |s| - from
  {
    if from < |s| && IsSpace(s[from]) then TextStart(s, from + 1) else from
  }

  /**
   * Where the text ends: the position just after the last character before `upTo` (and not
   * before `lo`) that is not whitespace, or `lo`.
   */
  function TextEnd(s: string, lo: nat, upTo: nat): (r: nat)
    requires lo <= upTo <= |s|
    ensures lo <= r <= upTo && SpaceBetween(s, r, upTo)
    ensures r > lo ==> !IsSpace(s[r - 1])
    decreases upTo
  {
    if upTo > lo && IsSpace(s[upTo - 1]) then TextEnd(s, lo, upTo - 1) else upTo
  }

  /**
   * Trimming: the part between the leading and the trailing whitespace; it neither starts nor
   * ends with whitespace.
   */
  function Trim(s: string): (r: string)
    ensures exists i, j :: 0 <= i <= j <= |s| && r == s[i..j] && SpaceBetween(s, 0, i) && SpaceBetween(s, j, |s|)
    ensures r != "" ==> !IsSpace(r[0]) && !IsSpace(r[|r| - 1])
  {
    var start := TextStart(s, 0);
    var end := TextEnd(s, start, |s|);
    assert SpaceBetween(s, 0, start) && SpaceBetween(s, end, |s|);
    s[start..end]
  }

  /** A string trims to nothing exactly when it is made of whitespace only, the empty one included. */
  lemma BlankIffAllSpace(s: string)
    ensures Trim(s) == "" <==> AllSpace(s)
  {
    var start := TextStart(s, 0);
    var end := TextEnd(s, start, |s|);
    if Trim(s) == "" {
      assert end == start;
      assert SpaceBetween(s, 0, start) && SpaceBetween(s, start, |s|);
    }
    assert AllSpace(s) ==> start == |s|;
  }

  // ---------------------------------------------------------------------------------------
  // the e-mail pattern
  // ---------------------------------------------------------------------------------------

  /** A character of the class `[^\s@]`. */
  predicate Plain(c: char)
  {
    !IsSpace(c) && c != '@'
  }

  /**
   * What `^[^\s@]+@[^\s@]+\.[^\s@]+$` matches: the string splits at an '@' (position `at`) and a
   * later '.' (position `dot`) into three non-empty runs of `[^\s@]`.
   */
  ghost predicate MatchesPattern(s: string)
  {
    exists at, dot ::
      && 0 < at && at + 1 < dot < |s| - 1
      && s[at] == '@' && s[dot] == '.'
      && (forall k :: 0 <= k < |s| && k != at ==> Plain(s[k]))
  }

  /** How many times `c` occurs in `s`. */
  function CountOf(s: string, c: char): (n: nat)
    ensures n == 0 <==> c !in s
  {
    if s == [] then 0
    else (if s[0] == c then 1 else 0) + CountOf(s[1..], c)
  }

  /** The first position of `c` in `s`, with `|s|` standing for "not found". */
  function IndexOf(s: string, c: char): (r: nat)
    ensures r <= |s|
    ensures r < |s| ==> s[r] == c
    ensures forall k :: 0 <= k < r ==> s[k] != c
    ensures r == |s| <==> c !in s
  {
    if s == [] then 0
    else if s[0] == c then 0
    else 1 + IndexOf(s[1..], c)
  }

  /** `c` occurs once in `s` exactly when its occurrence at `at` is the only one. */
  lemma {:induction false} CountOne(s: string, c: char, at: nat)
    requires at < |s| && s[at] == c
    ensures CountOf(s, c) == 1 <==> forall k :: 0 <= k < |s| && k != at ==> s[k] != c
  {
    if at == 0 {
      assert forall k :: 1 <= k < |s| ==> s[k] == s[1..][k - 1];
    } else {
      assert s[1..][at - 1] == c;
      if s[0] != c {
        CountOne(s[1..], c, at - 1);
        assert forall k :: 1 <= k < |s| ==> s[k] == s[1..][k - 1];
      }
    }
  }

  /**
   * The check the pattern amounts to, written out: no whitespace, exactly one '@', something
   * before it, and a '.' in the part after it that is neither that part's first nor its last
   * character.
   */
  predicate IsValidEmail(s: string)
  {
    && s != ""
    && !(exists k :: 0 <= k < |s| && IsSpace(s[k]))
    && CountOf(s, '@') == 1
    && var at := IndexOf(s, '@');
      && 0 < at
      && at + 3 <= |s|
      && '.' in s[at + 2..|s| - 1]
  }

  /** The written-out check accepts exactly the strings the pattern matches. */
  lemma ValidEmailIffPattern(s: string)
    ensures IsValidEmail(s) <==> MatchesPattern(s)
  {
    if IsValidEmail(s) {
      ValidEmailMatches(s);
    }
    if MatchesPattern(s) {
      var at, dot :|
        && 0 < at && at + 1 < dot < |s| - 1
        && s[at] == '@' && s[dot] == '.'
        && (forall k :: 0 <= k < |s| && k != at ==> Plain(s[k]));
      MatchIsValidEmail(s, at, dot);
    }
  }

  lemma ValidEmailMatches(s: string)
    requires IsValidEmail(s)
    ensures MatchesPattern(s)
  {
    var at := IndexOf(s, '@');
    CountOne(s, '@', at);
    var i :| 0 <= i < |s[at + 2..|s| - 1]| && s[at + 2..|s| - 1][i] == '.';
    var dot := at + 2 + i;
    assert s[dot] == '.';
    assert forall k :: 0 <= k < |s| && k != at ==> Plain(s[k]);
  }

  lemma MatchIsValidEmail(s: string, at: int, dot: int)
    requires 0 < at && at + 1 < dot < |s| - 1
    requires s[at] == '@' && s[dot] == '.'
    requires forall k :: 0 <= k < |s| && k != at ==> Plain(s[k])
    ensures IsValidEmail(s)
  {
    CountOne(s, '@', at);
    var first := IndexOf(s, '@');
    assert s[first] == '@';
    assert s[at + 2..|s| - 1][dot - at - 2] == '.';
  }

  /** The emptiness test in front of the pattern never decides anything: "" fails the pattern. */
  lemma EmptyEmailFailsPattern()
    ensures !MatchesPattern("")
  {
  }

  /** A plain address is accepted. */
  lemma SampleAccepted()
    ensures MatchesPattern("a@b.c")
  {
    var s := "a@b.c";
    assert s[1] == '@' && s[3] == '.';
    assert forall k :: 0 <= k < |s| && k != 1 ==> Plain(s[k]);
  }

  /** A domain without anything after its '.' is rejected. */
  lemma SampleWithoutTopLevel()
    ensures !MatchesPattern("a@b.")
  {
    ValidEmailIffPattern("a@b.");
  }

  /** A space anywhere is rejected. */
  lemma SampleWithSpace()
    ensures !MatchesPattern("a b@c.d")
  {
    ValidEmailIffPattern("a b@c.d");
    assert IsSpace("a b@c.d"[1]);
  }

  /** A second '@' is rejected. */
  lemma SampleWithTwoAts()
    ensures !MatchesPattern("a@b@c.d")
  {
    ValidEmailIffPattern("a@b@c.d");
  }

  // ---------------------------------------------------------------------------------------
  // joining texts
  // ---------------------------------------------------------------------------------------

  /** The parts with `sep` between consecutive ones. */
  function Join(parts: seq<string>, sep: string): string
  {
    if parts == [] then ""
    else if |parts| == 1 then parts[0]
    else parts[0] + sep + Join(parts[1..], sep)
  }

  /** The `n` characters of `s` from position `i` on. */
  function Slice(s: string, i: int, n: nat): string
    requires 0 <= i && i + n <= |s|
  {
    s[i..i + n]
  }

  /** `part` occurs in `s` as a contiguous piece. */
  ghost predicate Occurs(part: string, s: string)
  {
    exists i :: 0 <= i <= |s| - |part| && Slice(s, i, |part|) == part
  }

  lemma OccursLeft(part: string, a: string, b: string)
    requires Occurs(part, a)
    ensures Occurs(part, a + b)
  {
    var i :| 0 <= i <= |a| - |part| && Slice(a, i, |part|) == part;
    assert Slice(a + b, i, |part|) == part;
  }

  lemma OccursRight(part: string, a: string, b: string)
    requires Occurs(part, b)
    ensures Occurs(part, a + b)
  {
    var i :| 0 <= i <= |b| - |part| && Slice(b, i, |part|) == part;
    assert Slice(a + b, |a| + i, |part|) == part;
  }

  /** Every part can be read off the joined text. */
  lemma {:induction false} JoinShowsParts(parts: seq<string>, sep: string)
    ensures forall k :: 0 <= k < |parts| ==> Occurs(parts[k], Join(parts, sep))
    decreases |parts|
  {
    if parts != [] {
      assert Slice(parts[0], 0, |parts[0]|) == parts[0];
      if |parts| > 1 {
        var rest := Join(parts[1..], sep);
        JoinShowsParts(parts[1..], sep);
        assert Join(parts, sep) == parts[0] + (sep + rest);
        OccursLeft(parts[0], parts[0], sep + rest);
        forall k | 1 <= k < |parts|
          ensures Occurs(parts[k], Join(parts, sep))
        {
          assert parts[k] == parts[1..][k - 1];
          OccursRight(parts[k], sep, rest);
          OccursRight(parts[k], parts[0], sep + rest);
        }
      }
    }
  }

  // ---------------------------------------------------------------------------------------
  // messages
  // ---------------------------------------------------------------------------------------

  /** A falsiness fallback on an optional string: a missing or empty value gives the fallback. */
  function OrElse(value: Option<string>, fallback: string): (r: string)
    ensures r == fallback || (value.Some? && r == value.value != "")
    ensures r == fallback <==> value.None? || value == Some("") || value == Some(fallback)
  {
    if value.Some? && value.value != "" then value.value else fallback
  }

  /** The error both the profile editor and the password-reset page show for a rejected address. */
  const InvalidEmailMessage := "Informe um e-mail válido."

  /** How a backend call ended: normally, or by throwing an error object with these fields. */
  datatype Outcome = Done | Thrown(errorDescription: Option<string>, message: Option<string>)
}
