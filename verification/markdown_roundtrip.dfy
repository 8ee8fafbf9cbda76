/** How the serializer and the extractor of src/utils/markdownParser.ts fit
    together: serializing sections and extracting the text again gives back
    their titles and contents, in `order` sequence, as long as no section's
    content holds a line the extractor would read as a heading; and the
    extractor's own output does not always meet that condition. */
module MarkdownRoundTrip {
  import opened Wrappers
  import opened Text
  import opened Sections
  import opened Seqs
  import opened MarkdownParser

  /** A section survives serialization: its title is one line, its content is
      already trimmed, and no content line starts with `"# "` or `"## "`. */
  predicate Serializable(x: Section) {
    && '\n' !in x.title
    && Trimmed(x.content)
    && forall j | 0 <= j < |Split(x.content, '\n')| :: !IsHeading(Split(x.content, '\n')[j])
  }

  /** The lines the extractor collects under a serialized block's heading: the
      blank line after the heading, the content's lines and, unless the block
      is the last one, the first line of the blank-line separator. */
  function BlockBody(x: Section, last: bool): seq<string> {
    [""] + Split(x.content, '\n') + (if last then [] else [""])
  }

  /** The groups of lines the serialized text of `t` consists of. */
  function SerializedGroups(t: seq<Section>): (r: seq<Group>)
    ensures |r| == |t|
    decreases |t|
  {
    if |t| == 0 then []
    else [Group("## " + t[0].title, BlockBody(t[0], |t| == 1))] + SerializedGroups(t[1..])
  }

  lemma {:induction false} SerializedGroupsAt(t: seq<Section>, k: nat)
    requires k < |t|
    ensures SerializedGroups(t)[k] == Group("## " + t[k].title, BlockBody(t[k], k == |t| - 1))
    decreases |t|
  {
    if k > 0 {
      SerializedGroupsAt(t[1..], k - 1);
    }
  }

  // ---------------------------------------------------------------------------
  // From text to lines
  // ---------------------------------------------------------------------------

  /** One block splits into its heading line, a blank line and the content's lines. */
  lemma {:induction false} LinesOfBlock(x: Section)
    requires '\n' !in x.title
    ensures Split(Block(x), '\n') == ["## " + x.title] + [""] + Split(x.content, '\n')
  {
    var h := "## " + x.title;
    assert Block(x) == h + ['\n', '\n'] + x.content;
    SplitAroundBlank(h, '\n', x.content);
    assert '\n' !in h by {
      assert forall i | 3 <= i < |h| :: h[i] == x.title[i - 3];
    }
    SplitWithoutSeparator(h, '\n');
  }

  /** The lines of the serialized text are exactly the groups' lines, spelled out. */
  lemma {:induction false} LinesOfSerialized(t: seq<Section>)
    requires |t| > 0
    requires forall i | 0 <= i < |t| :: '\n' !in t[i].title
    ensures Split(Join(Blocks(t), "\n\n"), '\n') == Flatten(SerializedGroups(t))
    decreases |t|
  {
    var h := "## " + t[0].title;
    var c := Split(t[0].content, '\n');
    LinesOfBlock(t[0]);
    FlattenCons(Group(h, BlockBody(t[0], |t| == 1)), SerializedGroups(t[1..]));
    if |t| == 1 {
      EmptyUnit(c);
      EmptyUnit([h] + ([""] + c));
      Assoc([h], [""], c);
    } else {
      var rest := Join(Blocks(t[1..]), "\n\n");
      assert Blocks(t)[1..] == Blocks(t[1..]);
      assert Join(Blocks(t), "\n\n") == Block(t[0]) + ['\n', '\n'] + rest;
      SplitAroundBlank(Block(t[0]), '\n', rest);
      LinesOfSerialized(t[1..]);
      Regroup([h], [""], c, [""], Flatten(SerializedGroups(t[1..])));
    }
  }

  // ---------------------------------------------------------------------------
  // From lines to groups
  // ---------------------------------------------------------------------------

  /** Body lines in front of a heading (or of the end) are one body. */
  lemma {:induction false} BodyLengthPrefix(body: seq<string>, tail: seq<string>)
    requires forall j | 0 <= j < |body| :: !IsHeading(body[j])
    requires tail == [] || IsHeading(tail[0])
    ensures BodyLength(body + tail) == |body|
    decreases |body|
  {
    if |body| == 0 {
      EmptyUnit(tail);
    } else {
      ConsTail(body, tail);
      BodyLengthPrefix(body[1..], tail);
    }
  }

  /** Grouping the spelled-out lines of well-formed groups gives the groups back. */
  lemma {:induction false} GroupsOfFlatten(gs: seq<Group>)
    requires forall k | 0 <= k < |gs| :: WellFormedGroup(gs[k])
    ensures Groups(Flatten(gs)) == gs
    decreases |gs|
  {
    if |gs| > 0 {
      var g := gs[0];
      var tail := Flatten(gs[1..]);
      GroupsOfFlatten(gs[1..]);
      FlattenStart(gs[1..]);
      GroupsAtGroup(g, tail);
      HeadTail(gs);
    }
  }

  /** Spelled-out groups start with the first group's heading line. */
  lemma {:induction false} FlattenStart(gs: seq<Group>)
    requires forall k | 0 <= k < |gs| :: WellFormedGroup(gs[k])
    ensures Flatten(gs) == [] || IsHeading(Flatten(gs)[0])
  {
  }

  lemma {:induction false} GroupsAtGroup(g: Group, tail: seq<string>)
    requires WellFormedGroup(g)
    requires tail == [] || IsHeading(tail[0])
    ensures Groups([g.line] + g.body + tail) == [g] + Groups(tail)
  {
    var lines := [g.line] + g.body + tail;
    Assoc([g.line], g.body, tail);
    ConsTail([g.line], g.body + tail);
    var rest := lines[1..];
    BodyLengthPrefix(g.body, tail);
    assert rest[..|g.body|] == g.body && rest[|g.body|..] == tail;
    GroupsAtHeading(lines);
  }

  /** The serialized groups are groups the extractor can produce. */
  lemma {:induction false} SerializedWellFormed(t: seq<Section>)
    requires forall i | 0 <= i < |t| :: Serializable(t[i])
    ensures forall k | 0 <= k < |t| :: WellFormedGroup(SerializedGroups(t)[k])
  {
    forall k | 0 <= k < |t| ensures WellFormedGroup(SerializedGroups(t)[k]) {
      SerializedGroupsAt(t, k);
      HeadingMarkers(t[k].title);
      HeadingMarkers("");
      BodyWellFormed(t[k], k == |t| - 1);
    }
  }

  lemma {:induction false} BodyWellFormed(x: Section, last: bool)
    requires Serializable(x)
    ensures forall j | 0 <= j < |BlockBody(x, last)| :: !IsHeading(BlockBody(x, last)[j])
  {
    var c := Split(x.content, '\n');
    var b := BlockBody(x, last);
    HeadingMarkers("");
    forall j | 0 <= j < |b| ensures !IsHeading(b[j]) {
      if 1 <= j <= |c| {
        assert b[j] == c[j - 1];
      } else {
        assert b[j] == "";
      }
    }
  }

  // ---------------------------------------------------------------------------
  // From groups to sections
  // ---------------------------------------------------------------------------

  /** The content's lines behind a blank line join back to a newline and the content. */
  lemma {:induction false} JoinAfterBlank(c: string)
    ensures Join([""] + Split(c, '\n'), "\n") == "\n" + c
  {
    SplitThenJoin(c, '\n');
    JoinCons("", Split(c, '\n'), "\n");
    EmptyUnit("\n");
  }

  /** ... and followed by one more blank line, to the content between two newlines. */
  lemma {:induction false} JoinBetweenBlanks(c: string)
    ensures Join([""] + Split(c, '\n') + [""], "\n") == "\n" + c + "\n"
  {
    JoinAfterBlank(c);
    JoinSnoc([""] + Split(c, '\n'), "", "\n");
    EmptyUnit("\n" + c + "\n");
  }

  /** The body of a serialized block joins and trims back to the content. */
  lemma {:induction false} BlockContent(x: Section, last: bool)
    requires Trimmed(x.content)
    ensures Trim(Join(BlockBody(x, last), "\n")) == x.content
  {
    var c := x.content;
    if last {
      EmptyUnit([""] + Split(c, '\n'));
      JoinAfterBlank(c);
      EmptyUnit("\n" + c);
      TrimMargins("\n", c, "");
    } else {
      JoinBetweenBlanks(c);
      TrimMargins("\n", c, "\n");
    }
  }

  /** The section the extractor makes of the k-th serialized group. */
  lemma {:induction false} SectionOfBlock(t: seq<Section>, k: nat, clock: nat -> nat)
    requires forall i | 0 <= i < |t| :: Serializable(t[i])
    requires k < |t|
    ensures WellFormedGroup(SerializedGroups(t)[k])
    ensures var x := SectionOf(SerializedGroups(t)[k], k, clock);
      x.title == t[k].title && x.content == t[k].content && x.order == k
  {
    SerializedWellFormed(t);
    SerializedGroupsAt(t, k);
    HeadingMarkers(t[k].title);
    BlockContent(t[k], k == |t| - 1);
  }

  // ---------------------------------------------------------------------------
  // The round trip
  // ---------------------------------------------------------------------------

  /** The empty text has no heading line, so no section. */
  lemma {:induction false} ExtractEmpty(clock: nat -> nat)
    ensures ExtractSections("", clock) == []
  {
    HeadingMarkers("");
    assert Split("", '\n') == [""];
    assert Groups([""]) == [];
  }

  /** Extracting the serialized text of `t` assembles its serialized groups. */
  lemma {:induction false} ExtractSerialized(t: seq<Section>, clock: nat -> nat)
    requires |t| > 0
    requires forall i | 0 <= i < |t| :: Serializable(t[i])
    ensures forall k | 0 <= k < |t| :: WellFormedGroup(SerializedGroups(t)[k])
    ensures ExtractSections(Join(Blocks(t), "\n\n"), clock) == Assemble(SerializedGroups(t), clock)
  {
    LinesOfSerialized(t);
    SerializedWellFormed(t);
    GroupsOfFlatten(SerializedGroups(t));
    ExtractIsAssemble(Join(Blocks(t), "\n\n"), clock);
  }

  /** The sections assembled from the serialized groups of `t` carry the titles
      and contents of `t`, numbered by position. */
  lemma {:induction false} AssembleSerialized(t: seq<Section>, clock: nat -> nat)
    requires forall i | 0 <= i < |t| :: Serializable(t[i])
    ensures forall k | 0 <= k < |t| :: WellFormedGroup(SerializedGroups(t)[k])
    ensures var r := Assemble(SerializedGroups(t), clock);
      forall k | 0 <= k < |t| ::
        r[k].title == t[k].title && r[k].content == t[k].content && r[k].order == k
  {
    var gs := SerializedGroups(t);
    SerializedWellFormed(t);
    forall k | 0 <= k < |t|
      ensures Assemble(gs, clock)[k].title == t[k].title
      ensures Assemble(gs, clock)[k].content == t[k].content
      ensures Assemble(gs, clock)[k].order == k
    {
      AssembleAt(gs, clock, k);
      SectionOfBlock(t, k, clock);
    }
  }

  /** Extracting the serialized text gives one section per input section, in
      `order` sequence, with the same title and content, renumbered 0..N-1. */
  lemma {:induction false} RoundTrip(sections: seq<Section>, clock: nat -> nat)
    requires forall x | x in sections :: Serializable(x)
    ensures var t := SortByOrder(sections);
      var r := ExtractSections(SectionsToMarkdown(sections), clock);
      && |r| == |t|
      && forall k | 0 <= k < |r| ::
        && r[k].title == t[k].title
        && r[k].content == t[k].content
        && r[k].order == k
        && r[k].kind == Slug(t[k].title)
  {
    var t := SortByOrder(sections);
    forall i | 0 <= i < |t| ensures Serializable(t[i]) {
      assert t[i] in multiset(sections);
    }
    if |t| == 0 {
      ExtractEmpty(clock);
    } else {
      ExtractSerialized(t, clock);
      AssembleSerialized(t, clock);
    }
  }

  /** Sections kept in dense order, as the editor keeps them, come back in
      the same sequence. */
  lemma RoundTripDense(sections: seq<Section>, clock: nat -> nat)
    requires DenseOrder(sections)
    requires forall x | x in sections :: Serializable(x)
    ensures var r := ExtractSections(SectionsToMarkdown(sections), clock);
      && |r| == |sections|
      && forall k | 0 <= k < |r| ::
        r[k].title == sections[k].title && r[k].content == sections[k].content
        && r[k].order == sections[k].order
  {
    SortOfDense(sections);
    RoundTrip(sections, clock);
  }

  /** Serializing what was extracted from a serialized text reproduces that
      text exactly. */
  lemma SerializeIsStable(sections: seq<Section>, clock: nat -> nat)
    requires forall x | x in sections :: Serializable(x)
    ensures var md := SectionsToMarkdown(sections);
      SectionsToMarkdown(ExtractSections(md, clock)) == md
  {
    var md := SectionsToMarkdown(sections);
    var t := SortByOrder(sections);
    var r := ExtractSections(md, clock);
    RoundTrip(sections, clock);
    SortOfDense(r);
    assert Blocks(r) == Blocks(t);
  }

  // ---------------------------------------------------------------------------
  // The extractor's output need not be serializable
  // ---------------------------------------------------------------------------

  /** A heading line indented by whitespace is body text, but trimming the
      body brings the heading marker to the front of the content: the
      section's content is then a heading line, and serializing the section
      and extracting again splits it in two. */
  lemma {:induction false} IndentedHeading(title: string, w: string, h: string, clock: nat -> nat)
    requires '\n' !in title && '\n' !in w && '\n' !in h
    requires |w| > 0 && AllSpace(w)
    requires IsHeading(h) && Trimmed(h)
    ensures var r := ExtractSections("## " + title + "\n" + w + h, clock);
      && |r| == 1
      && r[0].title == title
      && r[0].content == h
      && !Serializable(r[0])
      && |ExtractSections(SectionsToMarkdown(r), clock)| == 2
  {
    var md := "## " + title + "\n" + w + h;
    var hd := "## " + title;
    assert '\n' !in hd by {
      assert forall i | 3 <= i < |hd| :: hd[i] == title[i - 3];
    }
    assert '\n' !in w + h;
    assert md == hd + ['\n'] + (w + h);
    SplitAround(hd, '\n', w + h);
    SplitWithoutSeparator(hd, '\n');
    SplitWithoutSeparator(w + h, '\n');
    var g := Group(hd, [w + h]);
    HeadingMarkers(title);
    assert !IsHeading(w + h) by {
      assert (w + h)[0] == w[0];
    }
    assert Flatten([g]) == [hd, w + h];
    GroupsOfFlatten([g]);
    ExtractIsAssemble(md, clock);
    var r := ExtractSections(md, clock);
    AssembleAt([g], clock, 0);
    EmptyUnit(w + h);
    TrimMargins(w, h, "");
    SplitWithoutSeparator(h, '\n');
    assert Split(h, '\n')[0] == h;
    ReserializedSplits(r, title, h, clock);
  }

  lemma {:induction false} ReserializedSplits(r: seq<Section>, title: string, h: string, clock: nat -> nat)
    requires |r| == 1 && r[0].order == 0 && r[0].title == title && r[0].content == h
    requires '\n' !in title && '\n' !in h && IsHeading(h)
    ensures |ExtractSections(SectionsToMarkdown(r), clock)| == 2
  {
    var gs := [Group("## " + title, [""]), Group(h, [])];
    ReserializedLines(r, title, h);
    HeadingMarkers(title);
    HeadingMarkers("");
    GroupsOfFlatten(gs);
    ExtractIsAssemble(SectionsToMarkdown(r), clock);
  }

  lemma {:induction false} ReserializedLines(r: seq<Section>, title: string, h: string)
    requires |r| == 1 && r[0].order == 0 && r[0].title == title && r[0].content == h
    requires '\n' !in title && '\n' !in h
    ensures Split(SectionsToMarkdown(r), '\n') == Flatten([Group("## " + title, [""]), Group(h, [])])
  {
    SortOfDense(r);
    assert SectionsToMarkdown(r) == Block(r[0]);
    LinesOfBlock(r[0]);
    SplitWithoutSeparator(h, '\n');
    var gs := [Group("## " + title, [""]), Group(h, [])];
    assert Flatten(gs[1..]) == [h];
  }

  /** The smallest instance: `"## A\n  # B"` yields one section whose content is `"# B"`. */
  lemma IndentedHeadingExample(clock: nat -> nat)
    ensures var r := ExtractSections("## A\n  # B", clock);
      |r| == 1 && r[0].content == "# B" && !Serializable(r[0])
  {
    HeadingMarkers("B");
    assert "## A\n  # B" == "## " + "A" + "\n" + "  " + "# B";
    IndentedHeading("A", "  ", "# B", clock);
  }
}
