/** The Markdown section extractor and serializer of src/utils/markdownParser.ts.

    Extraction scans the text line by line; a line starting with `"# "` or
    `"## "` closes the current section and opens a new one, any other line is
    appended to the current body (or dropped when no section is open yet).
    The declarative reading used for the proofs cuts the lines into `Group`s:
    one heading line followed by the non-heading lines up to the next heading. */
module MarkdownParser {
  import opened Wrappers
  import opened Text
  import opened Sections
  import opened Seqs

  /** The slugs the extractor marks as required. */
  const RequiredKinds: seq<string> := ["contact", "experience", "education"]

  // ---------------------------------------------------------------------------
  // Heading lines and derived fields
  // ---------------------------------------------------------------------------

  /** The heading text of a `"# "` or `"## "` line (the line minus its marker,
      not trimmed); `None` for every other line. */
  function HeadingTitle(line: string): Option<string> {
    if |line| >= 2 && line[0] == '#' && line[1] == ' ' then Some(line[2..])
    else if |line| >= 3 && line[0] == '#' && line[1] == '#' && line[2] == ' ' then Some(line[3..])
    else None
  }

  /** The character tests above are `line.startsWith('# ')` and
      `line.startsWith('## ')`, tried in that order. */
  lemma {:induction false} HeadingTitleIsStartsWith(line: string)
    ensures HeadingTitle(line) ==
      if StartsWith(line, "# ") then Some(line[2..])
      else if StartsWith(line, "## ") then Some(line[3..])
      else None
  {
    if |line| >= 2 {
      assert StartsWith(line, "# ") <==> line[0] == '#' && line[1] == ' ' by {
        if line[0] == '#' && line[1] == ' ' {
          assert line[..2] == "# ";
        }
      }
    }
    if |line| >= 3 {
      assert StartsWith(line, "## ") <==> line[0] == '#' && line[1] == '#' && line[2] == ' ' by {
        if line[0] == '#' && line[1] == '#' && line[2] == ' ' {
          assert line[..3] == "## ";
        }
      }
    }
  }

  predicate IsHeading(line: string) {
    HeadingTitle(line).Some?
  }

  /** Only the two markers open a section, and the title is what follows the
      marker: `"### x"`, `"#x"` and an indented marker are body text. */
  lemma {:induction false} HeadingMarkers(t: string)
    ensures HeadingTitle("# " + t) == Some(t)
    ensures HeadingTitle("## " + t) == Some(t)
    ensures !IsHeading("### " + t)
    ensures !IsHeading(" # " + t) && !IsHeading(" ## " + t)
    ensures !IsHeading("")
  {
    var h1, h2, h3 := "# " + t, "## " + t, "### " + t;
    assert h1[..2] == "# " && h1[2..] == t;
    assert h2[1] == '#' && h2[..3] == "## " && h2[3..] == t;
    assert h3[1] == '#' && h3[2] == '#';
    assert (" # " + t)[0] == ' ' && (" ## " + t)[0] == ' ';
  }

  /** A `#` directly followed by text other than a space or `# ` is body text. */
  lemma {:induction false} HashWithoutSpace(t: string)
    requires |t| > 0 && t[0] != ' ' && t[0] != '#'
    ensures !IsHeading("#" + t)
  {
    assert ("#" + t)[1] == t[0];
  }

  /** `type`: the title lower-cased, every whitespace run replaced by `-`. */
  function Slug(title: string): (r: string)
    ensures NoSpace(r)
    ensures |r| <= |title|
  {
    ReplaceSpaceRuns(Lower(title), '-')
  }

  /** A section as the extractor opens it at a heading line: its content is
      filled in only when the section is closed. */
  function OpenSection(line: string, order: nat, clock: nat -> nat): (r: Section)
    requires IsHeading(line)
  {
    var title := HeadingTitle(line).value;
    var kind := Slug(title);
    Section(SectionId(clock(order), order), kind, title, "", order, kind in RequiredKinds, None)
  }

  /** Closing a section sets its content to the trimmed, newline-joined body. */
  function CloseSection(current: Section, body: seq<string>): Section {
    current.(content := Trim(Join(body, "\n")))
  }

  // ---------------------------------------------------------------------------
  // The declarative reading: groups of lines
  // ---------------------------------------------------------------------------

  /** A heading line and the body lines that follow it. */
  datatype Group = Group(line: string, body: seq<string>)

  predicate WellFormedGroup(g: Group) {
    IsHeading(g.line) && forall j | 0 <= j < |g.body| :: !IsHeading(g.body[j])
  }

  /** The number of non-heading lines at the front of `lines`: the index of
      the first heading line, or `|lines|` when there is none. */
  function BodyLength(lines: seq<string>): (n: nat)
    ensures n <= |lines|
    ensures forall j | 0 <= j < n :: !IsHeading(lines[j])
    ensures n < |lines| ==> IsHeading(lines[n])
    decreases |lines|
  {
    if |lines| == 0 || IsHeading(lines[0]) then 0 else 1 + BodyLength(lines[1..])
  }

  /** Lines before the first heading are dropped; every heading starts a group
      that runs up to the next heading. */
  function Groups(lines: seq<string>): (r: seq<Group>)
    ensures forall k | 0 <= k < |r| :: WellFormedGroup(r[k]) && r[k].line in lines
    decreases |lines|
  {
    if |lines| == 0 then []
    else if !IsHeading(lines[0]) then Groups(lines[1..])
    else
      var rest := lines[1..];
      var n := BodyLength(rest);
      [Group(lines[0], rest[..n])] + Groups(rest[n..])
  }

  /** The heading texts of `lines`, in the order they appear. */
  function HeadingTitles(lines: seq<string>): seq<string>
    decreases |lines|
  {
    if |lines| == 0 then []
    else
      (match HeadingTitle(lines[0]) case Some(t) => [t] case None => [])
      + HeadingTitles(lines[1..])
  }

  /** The lines a sequence of groups spans, headings included. */
  function Flatten(gs: seq<Group>): seq<string>
    decreases |gs|
  {
    if |gs| == 0 then [] else [gs[0].line] + gs[0].body + Flatten(gs[1..])
  }

  // ---------------------------------------------------------------------------
  // extractSectionsFromMarkdown
  // ---------------------------------------------------------------------------

  /** The section a group becomes when it is the k-th one. */
  function SectionOf(g: Group, k: nat, clock: nat -> nat): Section
    requires WellFormedGroup(g)
  {
    CloseSection(OpenSection(g.line, k, clock), g.body)
  }

  /** The sections of the groups, in order: see `AssembleAt`. */
  function Assemble(gs: seq<Group>, clock: nat -> nat): (r: seq<Section>)
    requires forall k | 0 <= k < |gs| :: WellFormedGroup(gs[k])
    ensures |r| == |gs|
    decreases |gs|
  {
    if |gs| == 0 then []
    else Assemble(gs[..|gs| - 1], clock) + [SectionOf(gs[|gs| - 1], |gs| - 1, clock)]
  }

  /** The k-th group becomes the section with order k. */
  lemma {:induction false} AssembleAt(gs: seq<Group>, clock: nat -> nat, k: nat)
    requires forall k | 0 <= k < |gs| :: WellFormedGroup(gs[k])
    requires k < |gs|
    ensures Assemble(gs, clock)[k] == SectionOf(gs[k], k, clock)
    decreases |gs|
  {
    var init := gs[..|gs| - 1];
    if k < |init| {
      AssembleAt(init, clock, k);
      assert init[k] == gs[k];
    }
  }

  /** What every assembled section carries, whatever the groups are. */
  lemma {:induction false} AssembleFacts(gs: seq<Group>, clock: nat -> nat)
    requires forall k | 0 <= k < |gs| :: WellFormedGroup(gs[k])
    requires forall k | 0 <= k < |gs| :: '\n' !in gs[k].line
    ensures var r := Assemble(gs, clock);
      && DenseOrder(r)
      && DistinctIds(r)
      && forall k | 0 <= k < |r| ::
        && r[k].id == SectionId(clock(k), k)
        && r[k].title == HeadingTitle(gs[k].line).value
        && r[k].kind == Slug(r[k].title)
        && '\n' !in r[k].title
        && (r[k].required <==> r[k].kind in RequiredKinds)
        && r[k].content == Trim(Join(gs[k].body, "\n"))
        && Trimmed(r[k].content)
        && r[k].placement == None
  {
    var r := Assemble(gs, clock);
    forall k | 0 <= k < |r|
      ensures r[k] == SectionOf(gs[k], k, clock)
    {
      AssembleAt(gs, clock, k);
    }
    forall k | 0 <= k < |r| ensures '\n' !in r[k].title {
      assert r[k].title == HeadingTitle(gs[k].line).value;
      var line := gs[k].line;
      assert r[k].title == line[2..] || r[k].title == line[3..];
    }
    forall i, j | 0 <= i < j < |r| ensures r[i].id != r[j].id {
      if r[i].id == r[j].id {
        SectionIdInjective(clock(i), i, clock(j), j);
      }
    }
  }

  /** `extractSectionsFromMarkdown(markdown)`, with `clock(k)` the value
      `Date.now()` returns when the k-th heading is reached. */
  function ExtractSections(markdown: string, clock: nat -> nat): (r: seq<Section>)
    ensures DenseOrder(r)
    ensures DistinctIds(r)
    ensures forall k | 0 <= k < |r| ::
      && r[k].id == SectionId(clock(k), k)
      && r[k].kind == Slug(r[k].title)
      && '\n' !in r[k].title
      && (r[k].required <==> r[k].kind in RequiredKinds)
      && Trimmed(r[k].content)
      && r[k].placement == None
  {
    var lines := Split(markdown, '\n');
    var gs := Groups(lines);
    assert forall k | 0 <= k < |gs| :: '\n' !in gs[k].line;
    AssembleFacts(gs, clock);
    Assemble(gs, clock)
  }

  /** What the groups of the remaining lines will be, given the section that is
      open (`open`, with heading `line` and body so far `body`) when the scan
      reaches `rest`. */
  function Pending(open: bool, line: string, body: seq<string>, rest: seq<string>): seq<Group> {
    if !open then Groups(rest)
    else
      var n := BodyLength(rest);
      [Group(line, body + rest[..n])] + Groups(rest[n..])
  }

  /** A heading line with no open section opens one with an empty body. */
  lemma {:induction false} PendingOpens(rest: seq<string>)
    requires |rest| > 0 && IsHeading(rest[0])
    ensures Groups(rest) == Pending(true, rest[0], [], rest[1..])
  {
    var n := BodyLength(rest[1..]);
    EmptyUnit(rest[1..][..n]);
  }

  /** A heading line closes the open section with the body gathered so far. */
  lemma {:induction false} PendingCloses(line: string, body: seq<string>, rest: seq<string>)
    requires |rest| > 0 && IsHeading(rest[0])
    ensures Pending(true, line, body, rest) == [Group(line, body)] + Groups(rest)
  {
    assert BodyLength(rest) == 0;
    EmptyUnit(body);
    EmptyUnit(rest);
  }

  /** Any other line joins the open section's body. */
  lemma {:induction false} PendingExtends(line: string, body: seq<string>, rest: seq<string>)
    requires |rest| > 0 && !IsHeading(rest[0])
    ensures Pending(true, line, body, rest) == Pending(true, line, body + [rest[0]], rest[1..])
  {
    var n := BodyLength(rest[1..]);
    assert BodyLength(rest) == n + 1;
    HeadTake(rest, n);
    Assoc(body, [rest[0]], rest[1..][..n]);
    DropDrop(rest, 1, n);
  }

  /** Closing one more group appends one more section. */
  lemma {:induction false} AssembleSnoc(done: seq<Group>, g: Group, clock: nat -> nat)
    requires forall k | 0 <= k < |done| :: WellFormedGroup(done[k])
    requires WellFormedGroup(g)
    ensures Assemble(done + [g], clock)
      == Assemble(done, clock) + [SectionOf(g, |done|, clock)]
  {
    SnocParts(done, g);
  }

  lemma {:induction false} WellFormedSnoc(done: seq<Group>, g: Group)
    requires forall k | 0 <= k < |done| :: WellFormedGroup(done[k])
    requires WellFormedGroup(g)
    ensures forall k | 0 <= k < |done + [g]| :: WellFormedGroup((done + [g])[k])
  {
  }

  lemma {:induction false} ExtractIsAssemble(markdown: string, clock: nat -> nat)
    ensures ExtractSections(markdown, clock) == Assemble(Groups(Split(markdown, '\n')), clock)
  {
  }

  /** The state of the scan when the lines `rest` remain: `done` are the groups
      closed so far and `sections` their sections; `current` is the open section
      (with heading `line` and body lines `body`), if any; `order` is the next
      order to hand out; and `all`, the groups of the whole text, is what has
      been closed followed by what is still pending. */
  ghost predicate ScanState(all: seq<Group>, done: seq<Group>, sections: seq<Section>,
    current: Option<Section>, line: string, body: seq<string>, order: nat,
    rest: seq<string>, clock: nat -> nat)
  {
    && (forall k | 0 <= k < |done| :: WellFormedGroup(done[k]))
    && sections == Assemble(done, clock)
    && (current.None? ==> order == |done|)
    && (current.Some? ==>
      && IsHeading(line)
      && order == |done| + 1
      && current.value == OpenSection(line, |done|, clock)
      && forall j | 0 <= j < |body| :: !IsHeading(body[j]))
    && all == done + Pending(current.Some?, line, body, rest)
  }

  lemma {:induction false} ScanStart(lines: seq<string>, clock: nat -> nat)
    ensures ScanState(Groups(lines), [], [], None, "", [], 0, lines, clock)
  {
    EmptyUnit(Groups(lines));
  }

  /** A heading line while no section is open opens the first section. */
  lemma {:induction false} ScanBodyLength(all: seq<Group>, done: seq<Group>, sections: seq<Section>,
    line: string, body: seq<string>, order: nat, rest: seq<string>, clock: nat -> nat)
    requires ScanState(all, done, sections, None, line, body, order, rest, clock)
    requires |rest| > 0 && IsHeading(rest[0])
    ensures ScanState(all, done, sections, Some(OpenSection(rest[0], order, clock)),
      rest[0], [], order + 1, rest[1..], clock)
  {
    PendingOpens(rest);
  }

  /** A heading line while a section is open closes it and opens the next. */
  lemma {:induction false} ScanNextHeading(all: seq<Group>, done: seq<Group>, sections: seq<Section>,
    current: Section, line: string, body: seq<string>, order: nat, rest: seq<string>, clock: nat -> nat)
    requires ScanState(all, done, sections, Some(current), line, body, order, rest, clock)
    requires |rest| > 0 && IsHeading(rest[0])
    ensures ScanState(all, done + [Group(line, body)], sections + [CloseSection(current, body)],
      Some(OpenSection(rest[0], order, clock)), rest[0], [], order + 1, rest[1..], clock)
  {
    var g := Group(line, body);
    WellFormedSnoc(done, g);
    AssembleSnoc(done, g, clock);
    PendingRegroups(all, done, g, rest);
  }

  lemma {:induction false} PendingRegroups(all: seq<Group>, done: seq<Group>, g: Group, rest: seq<string>)
    requires |rest| > 0 && IsHeading(rest[0])
    requires all == done + Pending(true, g.line, g.body, rest)
    ensures all == (done + [g]) + Pending(true, rest[0], [], rest[1..])
  {
    PendingCloses(g.line, g.body, rest);
    PendingOpens(rest);
    Assoc(done, [g], Groups(rest));
  }

  /** Any other line joins the open section's body, or is dropped when no
      section is open. */
  lemma {:induction false} ScanBodyLine(all: seq<Group>, done: seq<Group>, sections: seq<Section>,
    current: Option<Section>, line: string, body: seq<string>, order: nat, rest: seq<string>, clock: nat -> nat)
    requires ScanState(all, done, sections, current, line, body, order, rest, clock)
    requires |rest| > 0 && !IsHeading(rest[0])
    ensures ScanState(all, done, sections, current, line, body + [rest[0]], order, rest[1..], clock)
  {
    if current.Some? {
      PendingExtends(line, body, rest);
    }
  }

  /** At the end of the text nothing is pending but the open section, if any. */
  lemma {:induction false} ScanEnd(all: seq<Group>, done: seq<Group>, sections: seq<Section>,
    current: Option<Section>, line: string, body: seq<string>, order: nat, clock: nat -> nat)
    requires ScanState(all, done, sections, current, line, body, order, [], clock)
    ensures current.None? ==> all == done
    ensures current.Some? ==> all == done + [Group(line, body)] && WellFormedGroup(Group(line, body))
  {
    if current.Some? {
      EmptyUnit(body);
    } else {
      EmptyUnit(done);
    }
  }

  /** The loop of the source: one pass over the lines with a current section
      and a current body; it builds exactly the declarative extraction. */
  method Extract(markdown: string, clock: nat -> nat) returns (sections: seq<Section>)
    ensures sections == ExtractSections(markdown, clock)
  {
    var lines := Split(markdown, '\n');
    ghost var all := Groups(lines);
    sections := [];
    var current: Option<Section> := None;
    ghost var currentLine: string := "";
    var currentContent: seq<string> := [];
    var order: nat := 0;
    ghost var done: seq<Group> := [];
    var i := 0;
    ScanStart(lines, clock);
    EmptyUnit(lines);
    while i < |lines|
      invariant 0 <= i <= |lines|
      invariant ScanState(all, done, sections, current, currentLine, currentContent, order, lines[i..], clock)
    {
      var line := lines[i];
      ghost var rest := lines[i..];
      DropDrop(lines, i, 1);
      if IsHeading(line) {
        if current.Some? {
          ScanNextHeading(all, done, sections, current.value, currentLine, currentContent, order, rest, clock);
          sections := sections + [CloseSection(current.value, currentContent)];
          done := done + [Group(currentLine, currentContent)];
        } else {
          ScanBodyLength(all, done, sections, currentLine, currentContent, order, rest, clock);
        }
        current := Some(OpenSection(line, order, clock));
        currentLine := line;
        order := order + 1;
        currentContent := [];
      } else {
        ScanBodyLine(all, done, sections, current, currentLine, currentContent, order, rest, clock);
        currentContent := currentContent + [line];
      }
      i := i + 1;
    }
    assert lines[i..] == [];
    ScanEnd(all, done, sections, current, currentLine, currentContent, order, clock);
    if current.Some? {
      AssembleSnoc(done, Group(currentLine, currentContent), clock);
      sections := sections + [CloseSection(current.value, currentContent)];
    }
    ExtractIsAssemble(markdown, clock);
  }

  // ---------------------------------------------------------------------------
  // Properties of the groups
  // ---------------------------------------------------------------------------

  lemma {:induction false} HeadingTitlesAppend(a: seq<string>, b: seq<string>)
    ensures HeadingTitles(a + b) == HeadingTitles(a) + HeadingTitles(b)
    decreases |a|
  {
    if |a| == 0 {
      EmptyUnit(b);
    } else {
      ConsTail(a, b);
      HeadingTitlesAppend(a[1..], b);
    }
  }

  lemma {:induction false} HeadingTitlesOfBody(a: seq<string>)
    requires forall j | 0 <= j < |a| :: !IsHeading(a[j])
    ensures HeadingTitles(a) == []
    decreases |a|
  {
    if |a| > 0 {
      HeadingTitlesOfBody(a[1..]);
    }
  }

  /** How `Groups` unfolds at a heading line. */
  lemma {:induction false} GroupsAtHeading(lines: seq<string>)
    requires |lines| > 0 && IsHeading(lines[0])
    ensures var rest := lines[1..]; var n := BodyLength(rest);
      Groups(lines) == [Group(lines[0], rest[..n])] + Groups(rest[n..])
  {
  }

  /** The heading titles seen from a heading line: its own title, then those
      after its body. */
  lemma {:induction false} HeadingTitlesAtHeading(lines: seq<string>)
    requires |lines| > 0 && IsHeading(lines[0])
    ensures var rest := lines[1..]; var n := BodyLength(rest);
      HeadingTitles(lines) == [HeadingTitle(lines[0]).value] + HeadingTitles(rest[n..])
  {
    var rest := lines[1..];
    var n := BodyLength(rest);
    TakeDrop(rest, n);
    HeadingTitlesAppend(rest[..n], rest[n..]);
    HeadingTitlesOfBody(rest[..n]);
  }

  /** One group per heading line, and the groups carry the headings' titles in
      the order the headings appear. */
  lemma {:induction false} GroupsFollowHeadings(lines: seq<string>)
    ensures |Groups(lines)| == |HeadingTitles(lines)|
    ensures forall k | 0 <= k < |Groups(lines)| ::
      HeadingTitle(Groups(lines)[k].line) == Some(HeadingTitles(lines)[k])
    decreases |lines|
  {
    if |lines| > 0 {
      if !IsHeading(lines[0]) {
        GroupsFollowHeadings(lines[1..]);
      } else {
        var rest := lines[1..];
        var n := BodyLength(rest);
        GroupsFollowHeadings(rest[n..]);
        GroupsAtHeading(lines);
        HeadingTitlesAtHeading(lines);
        ConsFollowsHeadings(Group(lines[0], rest[..n]), Groups(rest[n..]),
          HeadingTitle(lines[0]).value, HeadingTitles(rest[n..]));
      }
    }
  }

  lemma {:induction false} ConsFollowsHeadings(g: Group, gs: seq<Group>, t: string, ts: seq<string>)
    requires HeadingTitle(g.line) == Some(t)
    requires |gs| == |ts|
    requires forall k | 0 <= k < |gs| :: HeadingTitle(gs[k].line) == Some(ts[k])
    ensures var r := [g] + gs; var u := [t] + ts;
      |r| == |u| && forall k | 0 <= k < |r| :: HeadingTitle(r[k].line) == Some(u[k])
  {
    var r := [g] + gs;
    var u := [t] + ts;
    forall k | 1 <= k < |r| ensures HeadingTitle(r[k].line) == Some(u[k]) {
      assert r[k] == gs[k - 1] && u[k] == ts[k - 1];
    }
  }

  /** Nothing after the first heading is lost or repeated: the groups, heading
      lines included, spell out exactly the lines from the first heading on. */
  lemma {:induction false} GroupsCoverLines(lines: seq<string>)
    ensures Flatten(Groups(lines)) == lines[BodyLength(lines)..]
    decreases |lines|
  {
    if |lines| > 0 {
      if !IsHeading(lines[0]) {
        GroupsCoverLines(lines[1..]);
        CoverSkipsLine(lines);
      } else {
        var rest := lines[1..];
        GroupsCoverLines(rest[BodyLength(rest)..]);
        CoverAtHeading(lines);
      }
    }
  }

  lemma {:induction false} CoverSkipsLine(lines: seq<string>)
    requires |lines| > 0 && !IsHeading(lines[0])
    requires Flatten(Groups(lines[1..])) == lines[1..][BodyLength(lines[1..])..]
    ensures Flatten(Groups(lines)) == lines[BodyLength(lines)..]
  {
    DropDrop(lines, 1, BodyLength(lines[1..]));
  }

  lemma {:induction false} CoverAtHeading(lines: seq<string>)
    requires |lines| > 0 && IsHeading(lines[0])
    requires var rest := lines[1..]; var n := BodyLength(rest);
      Flatten(Groups(rest[n..])) == rest[n..][BodyLength(rest[n..])..]
    ensures Flatten(Groups(lines)) == lines[BodyLength(lines)..]
  {
    var rest := lines[1..];
    var n := BodyLength(rest);
    var tail := rest[n..];
    assert Flatten(Groups(tail)) == tail by {
      assert BodyLength(tail) == 0;
      EmptyUnit(tail);
    }
    assert Flatten(Groups(lines)) == [lines[0]] + rest[..n] + tail by {
      GroupsAtHeading(lines);
      FlattenCons(Group(lines[0], rest[..n]), Groups(tail));
    }
    HeadCutJoin(lines, n);
    EmptyUnit(lines);
  }

  lemma {:induction false} FlattenCons(g: Group, gs: seq<Group>)
    ensures Flatten([g] + gs) == [g.line] + g.body + Flatten(gs)
  {
    ConsTail([g], gs);
  }

  /** Lines before the first heading never influence the result. */
  lemma {:induction false} GroupsIgnorePreamble(pre: seq<string>, lines: seq<string>)
    requires forall j | 0 <= j < |pre| :: !IsHeading(pre[j])
    ensures Groups(pre + lines) == Groups(lines)
    decreases |pre|
  {
    if |pre| == 0 {
      EmptyUnit(lines);
    } else {
      ConsTail(pre, lines);
      GroupsIgnorePreamble(pre[1..], lines);
    }
  }

  // ---------------------------------------------------------------------------
  // Properties of the extraction
  // ---------------------------------------------------------------------------

  /** There are as many sections as heading lines; section k carries the k-th
      heading's title and the trimmed join of the non-heading lines that follow
      it up to the next heading. In particular a text without heading lines
      (such as `""`) yields no section at all. */
  lemma {:induction false} ExtractFollowsHeadings(markdown: string, clock: nat -> nat)
    ensures var lines := Split(markdown, '\n');
      var r := ExtractSections(markdown, clock);
      && |r| == |HeadingTitles(lines)|
      && (|r| == 0 <==> forall j | 0 <= j < |lines| :: !IsHeading(lines[j]))
      && forall k | 0 <= k < |r| ::
           && r[k].title == HeadingTitles(lines)[k]
           && r[k].content == Trim(Join(Groups(lines)[k].body, "\n"))
           && forall j | 0 <= j < |Groups(lines)[k].body| :: !IsHeading(Groups(lines)[k].body[j])
  {
    var lines := Split(markdown, '\n');
    var gs := Groups(lines);
    assert forall k | 0 <= k < |gs| :: '\n' !in gs[k].line;
    AssembleFacts(gs, clock);
    GroupsFollowHeadings(lines);
    NoGroupsIffNoHeading(lines);
  }

  /** Extraction yields nothing exactly when no line is a heading. */
  lemma {:induction false} NoSectionsIffNoHeading(markdown: string, clock: nat -> nat)
    ensures var lines := Split(markdown, '\n');
      |ExtractSections(markdown, clock)| == 0 <==> forall j | 0 <= j < |lines| :: !IsHeading(lines[j])
  {
    ExtractIsAssemble(markdown, clock);
    NoGroupsIffNoHeading(Split(markdown, '\n'));
  }

  /** No group at all exactly when no line is a heading. */
  lemma {:induction false} NoGroupsIffNoHeading(lines: seq<string>)
    ensures |Groups(lines)| == 0 <==> forall j | 0 <= j < |lines| :: !IsHeading(lines[j])
  {
    GroupsCoverLines(lines);
    if |Groups(lines)| == 0 {
      assert BodyLength(lines) == |lines|;
    } else {
      assert BodyLength(lines) < |lines|;
    }
  }

  /** Text before the first heading line can be anything without a heading:
      extraction ignores it. */
  lemma {:induction false} ExtractIgnoresPreamble(pre: string, markdown: string, clock: nat -> nat)
    requires forall j | 0 <= j < |Split(pre, '\n')| :: !IsHeading(Split(pre, '\n')[j])
    ensures ExtractSections(pre + "\n" + markdown, clock) == ExtractSections(markdown, clock)
  {
    SplitAround(pre, '\n', markdown);
    GroupsIgnorePreamble(Split(pre, '\n'), Split(markdown, '\n'));
  }

  /** A title without whitespace has the lower-cased title as its slug. */
  lemma {:induction false} SlugOfWord(title: string)
    requires NoSpace(title)
    ensures Slug(title) == Lower(title)
  {
    LowerProperties(title);
  }

  /** A title ending in whitespace (a trailing blank or a `\r` left by a
      CRLF line end) gives a kind ending in `-`. */
  lemma {:induction false} SlugTrailingDash(title: string)
    requires |title| > 0 && IsSpace(title[|title| - 1])
    ensures |Slug(title)| > 0 && Slug(title)[|Slug(title)| - 1] == '-'
  {
    LowerProperties(title);
    TrailingRunBecomesRep(Lower(title), '-');
  }

  /** A heading directly followed by another heading closes with an empty
      body: the first section then has empty content. */
  lemma {:induction false} HeadingThenHeading(markdown: string, clock: nat -> nat)
    requires var lines := Split(markdown, '\n'); var j := BodyLength(lines);
      j + 1 < |lines| && IsHeading(lines[j + 1])
    ensures var lines := Split(markdown, '\n'); var r := ExtractSections(markdown, clock);
      && |r| > 0
      && r[0].title == HeadingTitle(lines[BodyLength(lines)]).value
      && r[0].content == ""
  {
    var lines := Split(markdown, '\n');
    var gs := Groups(lines);
    FirstGroupEmpty(lines);
    ExtractIsAssemble(markdown, clock);
    AssembleAt(gs, clock, 0);
    TrimEmpty();
  }

  lemma TrimEmpty()
    ensures Trim(Join([], "\n")) == ""
  {
  }

  /** The first group's body is empty when its heading is directly followed
      by another heading. */
  lemma {:induction false} FirstGroupEmpty(lines: seq<string>)
    requires var j := BodyLength(lines); j + 1 < |lines| && IsHeading(lines[j + 1])
    ensures |Groups(lines)| > 0 && Groups(lines)[0] == Group(lines[BodyLength(lines)], [])
  {
    var j := BodyLength(lines);
    var rest := lines[j + 1..];
    assert lines == lines[..j] + lines[j..];
    GroupsIgnorePreamble(lines[..j], lines[j..]);
    GroupsAtHeading(lines[j..]);
    assert lines[j..][1..] == rest;
    assert BodyLength(rest) == 0;
  }

  // ---------------------------------------------------------------------------
  // sectionsToMarkdown
  // ---------------------------------------------------------------------------

  /** One serialized section: a level-2 heading, a blank line, the content. */
  function Block(x: Section): string {
    "## " + x.title + "\n\n" + x.content
  }

  function Blocks(t: seq<Section>): (r: seq<string>)
    ensures |r| == |t|
    ensures forall i | 0 <= i < |t| :: r[i] == Block(t[i])
  {
    seq(|t|, i requires 0 <= i < |t| => Block(t[i]))
  }

  /** `sectionsToMarkdown`: the blocks of the sections, stably sorted by
      `order`, separated by blank lines. */
  function SectionsToMarkdown(sections: seq<Section>): (r: string)
    ensures |sections| == 0 ==> r == ""
    ensures |sections| > 0 ==> StartsWith(r, "## ")
  {
    var t := SortByOrder(sections);
    var r := Join(Blocks(t), "\n\n");
    assert |t| > 0 ==> r[..3] == Block(t[0])[..3];
    r
  }
}
