/** The two computations of the Creative template: the monogram shown in the
    sidebar avatar and the main column that lists the sections. */
module CreativeTemplate {
  import opened Wrappers
  import opened Text
  import opened Sections

  // ---------------------------------------------------------------------------
  // Avatar initials
  // ---------------------------------------------------------------------------

  /** `pieces.map(n => n[0]).join('')`: the first character of every piece.
      An empty piece yields `undefined`, which `join` renders as nothing. */
  function Heads(pieces: seq<string>): (r: string)
    ensures |r| <= |pieces|
    decreases |pieces|
  {
    if |pieces| == 0 then ""
    else (if |pieces[0]| > 0 then [pieces[0][0]] else "") + Heads(pieces[1..])
  }

  /** The monogram: `YN` when the name is missing or empty, otherwise the
      first character of each piece of the name split at single spaces. */
  function Initials(name: Option<string>): (r: string)
    ensures ' ' !in r
  {
    match name
    case None => "YN"
    case Some(n) => if |n| == 0 then "YN" else HeadsWithoutSpace(Split(n, ' '), ' '); Heads(Split(n, ' '))
  }

  /** The pieces of a split never contain the separator, so neither do
      their first characters. */
  lemma {:induction false} HeadsWithoutSpace(pieces: seq<string>, sep: char)
    requires forall i | 0 <= i < |pieces| :: sep !in pieces[i]
    ensures sep !in Heads(pieces)
    decreases |pieces|
  {
    if |pieces| > 0 {
      HeadsWithoutSpace(pieces[1..], sep);
    }
  }

  /** A reference reading of the monogram as a left-to-right scan: a
      character is an initial exactly when it is not a space and it starts
      the name or follows a space. `afterSpace` says whether the previous
      character was a space (or there was none). */
  function WordStarts(s: string, afterSpace: bool): string
    decreases |s|
  {
    if |s| == 0 then ""
    else if s[0] == ' ' then WordStarts(s[1..], true)
    else (if afterSpace then [s[0]] else "") + WordStarts(s[1..], false)
  }

  /** Splitting at spaces and taking first characters is the scan: empty
      pieces from leading, trailing or repeated spaces add nothing, and the
      pieces after the first are the words that follow a space. */
  lemma {:induction false} HeadsAreWordStarts(s: string)
    ensures Heads(Split(s, ' ')) == WordStarts(s, true)
    ensures Heads(Split(s, ' ')[1..]) == WordStarts(s, false)
    decreases |s|
  {
    if |s| > 0 {
      var rest := Split(s[1..], ' ');
      HeadsAreWordStarts(s[1..]);
      if s[0] == ' ' {
        assert Split(s, ' ') == [""] + rest;
        assert Split(s, ' ')[1..] == rest;
      } else {
        var first := [s[0]] + rest[0];
        assert Split(s, ' ') == [first] + rest[1..];
        assert Split(s, ' ')[1..] == rest[1..];
        assert Heads(Split(s, ' ')) == [s[0]] + Heads(rest[1..]);
      }
    }
  }

  /** The monogram of a non-empty name is its scan from the start. */
  lemma InitialsAreWordStarts(n: string)
    requires |n| > 0
    ensures Initials(Some(n)) == WordStarts(n, true)
  {
    HeadsAreWordStarts(n);
  }

  /** A missing or empty name shows `YN`; a name of spaces only shows nothing,
      because every piece is empty. */
  lemma {:induction false} BlankInitials(n: string)
    requires forall i | 0 <= i < |n| :: n[i] == ' '
    ensures |n| == 0 ==> Initials(Some(n)) == "YN"
    ensures |n| > 0 ==> Initials(Some(n)) == ""
    decreases |n|
  {
    if |n| > 0 {
      InitialsAreWordStarts(n);
      OnlySpacesStartNothing(n, true);
    }
  }

  /** A run of spaces starts no word, whatever preceded it. */
  lemma {:induction false} OnlySpacesStartNothing(s: string, afterSpace: bool)
    requires forall i | 0 <= i < |s| :: s[i] == ' '
    ensures WordStarts(s, afterSpace) == ""
    decreases |s|
  {
    if |s| > 0 {
      OnlySpacesStartNothing(s[1..], true);
    }
  }

  /** There are at most as many initials as spaces plus one. */
  lemma {:induction false} InitialsBound(n: string)
    requires |n| > 0
    ensures |Initials(Some(n))| <= CountChar(n, ' ') + 1
  {
    SplitLength(n, ' ');
  }

  /** Only the space character separates words: a name with no space, even
      one holding tabs or other whitespace, contributes its first character
      alone. */
  lemma {:induction false} OneWordOneInitial(n: string)
    requires |n| > 0 && ' ' !in n
    ensures Initials(Some(n)) == [n[0]]
  {
    InitialsAreWordStarts(n);
    assert ' ' !in n[1..] by {
      assert forall i | 0 <= i < |n[1..]| :: n[1..][i] == n[i + 1];
    }
    NoSpaceStartsNothing(n[1..]);
  }

  /** Text without a space, read after a non-space, starts no further word. */
  lemma {:induction false} NoSpaceStartsNothing(s: string)
    requires ' ' !in s
    ensures WordStarts(s, false) == ""
    decreases |s|
  {
    if |s| > 0 {
      assert ' ' !in s[1..] by {
        assert forall i | 0 <= i < |s[1..]| :: s[1..][i] == s[i + 1];
      }
      NoSpaceStartsNothing(s[1..]);
    }
  }

  // ---------------------------------------------------------------------------
  // Main column
  // ---------------------------------------------------------------------------

  /** The main column: every section, sorted by `order`. */
  function MainColumn(sections: seq<Section>): (r: seq<Section>)
    ensures multiset(r) == multiset(sections)
    ensures SortedByOrder(r)
  {
    SortByOrder(sections)
  }

  /** Sections that share an `order` keep their relative position, so the
      listing is fully determined by the input. */
  lemma MainColumnStable(sections: seq<Section>, k: int)
    ensures WithOrder(MainColumn(sections), k) == WithOrder(sections, k)
  {
    SortIsStable(sections, k);
  }

  /** A list already in `order` is shown as it stands. */
  lemma MainColumnOfSorted(sections: seq<Section>)
    requires SortedByOrder(sections)
    ensures MainColumn(sections) == sections
  {
    SortOfSorted(sections);
  }
}
