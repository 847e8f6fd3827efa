/**
 * How the signed-in user is shown in the navigation bar (src/components/NavBar.tsx) and on the
 * settings page (src/pages/Settings.tsx): a display name with fallbacks, the initials shown when
 * there is no avatar picture, and the settings page's heading and detail rows.
 */
module Profile {
  import opened Wrappers
  import opened TextChecks
  import opened Sequences

  /** The name shown when the user has neither a name nor an e-mail. */
  const AnonymousName := "Usuário"

  /**
   * The name, else the e-mail, else the anonymous label: only a missing value falls through
   * (nullish coalescing), so an empty name is kept where a falsiness test would have skipped it.
   */
  function DisplayName(name: Option<string>, email: Option<string>): (r: string)
    ensures name.Some? ==> r == name.value
    ensures name.None? && email.Some? ==> r == email.value
    ensures name.None? && email.None? ==> r == AnonymousName
  {
    name.GetOr(email.GetOr(AnonymousName))
  }

  // ---------------------------------------------------------------------------------------
  // split / join
  // ---------------------------------------------------------------------------------------

  /** String splitting: the pieces between separators, empty ones included; never an empty list. */
  function Split(s: string, sep: char): (pieces: seq<string>)
    ensures |pieces| >= 1
    ensures forall i :: 0 <= i < |pieces| ==> sep !in pieces[i]
    decreases |s|
  {
    if s == [] then [""]
    else
      var rest := Split(s[1..], sep);
      if s[0] == sep then [""] + rest
      else
        [[s[0]] + rest[0]] + rest[1..]
  }

  /** Splitting loses nothing: joining the pieces back with the separator gives the string again. */
  lemma {:induction false} JoinSplit(s: string, sep: char)
    ensures Join(Split(s, sep), [sep]) == s
    decreases |s|
  {
    if s != [] {
      JoinSplit(s[1..], sep);
      var rest := Split(s[1..], sep);
      if s[0] == sep {
        assert Split(s, sep) == [""] + rest;
        assert ([""] + rest)[1..] == rest;
      } else {
        var pieces := [[s[0]] + rest[0]] + rest[1..];
        assert Split(s, sep) == pieces;
        if |rest| == 1 {
          assert rest == [rest[0]];
        } else {
          assert pieces[1..] == rest[1..];
          assert Join(rest, [sep]) == rest[0] + [sep] + Join(rest[1..], [sep]);
        }
      }
    }
  }

  /** Splitting at single spaces and dropping the empty pieces that extra spaces leave: the words. */
  function Words(s: string): (words: seq<string>)
    ensures KeepsOrder(words, Split(s, ' '))
    ensures forall p :: multiset(words)[p] == if p == "" then 0 else multiset(Split(s, ' '))[p]
    ensures forall i :: 0 <= i < |words| ==> words[i] != "" && ' ' !in words[i]
  {
    NonEmpty(Split(s, ' '))
  }

  /** The non-empty pieces, in their order, each as often as it occurs. */
  function NonEmpty(pieces: seq<string>): (r: seq<string>)
    ensures KeepsOrder(r, pieces)
    ensures forall p :: multiset(r)[p] == if p == "" then 0 else multiset(pieces)[p]
    ensures forall i :: 0 <= i < |r| ==> r[i] != "" && r[i] in pieces
  {
    if pieces == [] then []
    else
      var head, rest := pieces[0], NonEmpty(pieces[1..]);
      assert pieces == [head] + pieces[1..];
      assert forall p :: p in pieces <==> p == head || p in pieces[1..];
      if head == "" then
        KeepsOrderSkip(rest, pieces);
        rest
      else
        KeepsOrderCons(head, rest, pieces[1..]);
        [head] + rest
  }

  /** Spaces in front of a name change nothing. */
  lemma LeadingSpaceIgnored(s: string)
    ensures Words(" " + s) == Words(s)
  {
    assert (" " + s)[1..] == s;
    assert Split(" " + s, ' ') == [""] + Split(s, ' ');
    assert ([""] + Split(s, ' '))[1..] == Split(s, ' ');
  }

  // ---------------------------------------------------------------------------------------
  // initials
  // ---------------------------------------------------------------------------------------

  /**
   * `toUpperCase` of one character, for the ASCII and Latin-1 letters: a lower-case letter
   * becomes its capital, every other character stays as it is.
   */
  function UpperChar(c: char): (r: char)
    ensures 'a' <= c <= 'z' ==> 'A' <= r <= 'Z' && r as int + 32 == c as int
    ensures '\U{E0}' <= c <= '\U{FE}' && c != '\U{F7}' ==> '\U{C0}' <= r <= '\U{DE}' && r as int + 32 == c as int
    ensures c == '\U{FF}' ==> r == '\U{178}'
    ensures !('a' <= c <= 'z') && !('\U{E0}' <= c <= '\U{FF}' && c != '\U{F7}') ==> r == c
  {
    if 'a' <= c <= 'z' then (c as int - 32) as char
    else if '\U{E0}' <= c <= '\U{FE}' && c != '\U{F7}' then (c as int - 32) as char
    else if c == '\U{FF}' then '\U{178}'
    else c
  }

  /** Upper-casing twice changes nothing more: a capital is left as it is. */
  lemma UpperCharIdempotent(c: char)
    ensures UpperChar(UpperChar(c)) == UpperChar(c)
  {
  }

  /** The upper-cased first letters of at most the first two words, concatenated. */
  function InitialsOf(words: seq<string>): string
    requires forall i :: 0 <= i < |words| ==> words[i] != ""
  {
    if words == [] then ""
    else if |words| == 1 then [UpperChar(words[0][0])]
    else [UpperChar(words[0][0]), UpperChar(words[1][0])]
  }

  /**
   * The avatar's initials: the upper-cased first letters of the first two words of the display
   * name, in word order; at most two characters.
   */
  function Initials(displayName: string): (r: string)
    ensures var words := Words(displayName);
      && |r| == (if |words| < 2 then |words| else 2)
      && forall i :: 0 <= i < |r| ==> r[i] == UpperChar(words[i][0])
  {
    InitialsOf(Words(displayName))
  }

  /** A string without the separator is a single piece. */
  lemma {:induction false} SplitWithoutSeparator(s: string, sep: char)
    requires sep !in s
    ensures Split(s, sep) == [s]
    decreases |s|
  {
    if s != [] {
      assert sep !in s[1..];
      SplitWithoutSeparator(s[1..], sep);
      assert [s[0]] + s[1..] == s;
    }
  }

  /** The fallback name gives "U", an empty name gives no initials at all. */
  lemma InitialsOfFallbacks()
    ensures Initials(AnonymousName) == "U"
    ensures Initials("") == ""
  {
    var s := AnonymousName;
    SplitWithoutSeparator(s, ' ');
    assert Words(s) == [s];
  }

  // ---------------------------------------------------------------------------------------
  // what the pages render
  // ---------------------------------------------------------------------------------------

  datatype Avatar = Picture(url: string, alt: string) | Badge(initials: string)

  /** The picture when the profile has a non-empty avatar URL, otherwise the initials badge. */
  function AvatarFor(avatarUrl: Option<string>, name: Option<string>, email: Option<string>): (a: Avatar)
    ensures avatarUrl.Some? && avatarUrl.value != "" ==> a == Picture(avatarUrl.value, DisplayName(name, email))
    ensures avatarUrl.None? || avatarUrl == Some("") ==> a == Badge(Initials(DisplayName(name, email)))
  {
    var displayName := DisplayName(name, email);
    if avatarUrl.Some? && avatarUrl.value != "" then Picture(avatarUrl.value, displayName)
    else Badge(Initials(displayName))
  }

  /**
   * The settings page's heading: the name when it is non-empty, else the display name. Although
   * the heading tests falsiness and the display name only absence, the two never differ: an
   * empty name makes the display name empty as well.
   */
  function Heading(name: Option<string>, email: Option<string>): (r: string)
    ensures r == DisplayName(name, email)
  {
    OrElse(name, DisplayName(name, email))
  }

  /** A detail row of the settings page: the value, or "-" when it is missing or empty. */
  function DetailRow(value: Option<string>): (r: string)
    ensures r == "-" <==> value.None? || value == Some("") || value == Some("-")
    ensures r != "-" ==> value == Some(r)
  {
    OrElse(value, "-")
  }
}
