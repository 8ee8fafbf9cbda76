/** The eight layout templates with named regions, each written as the rule
    table its component applies, with what each one promises about where a
    section is drawn. */
module Templates {
  import opened Wrappers
  import opened Sections
  import opened Layout
  import SectionEditor

  // ---------------------------------------------------------------------------
  // Google Standard Two-Column
  // ---------------------------------------------------------------------------

  const StandardLeft: Rule := Rule(Left, ["sidebar", "left-column"], ["technical-skills", "education", "achievements", "certifications"])
  const StandardRight: Rule := Rule(Right, ["main", "right-column"], ["professional-summary", "work-experience", "projects"])

  const GoogleStandardTwoColumn: Template := Template([StandardLeft, StandardRight], true, [Steer("skill", Left), Steer("education", Left), Steer("certification", Left)], Some(Right))

  lemma StandardLeftApartRight()
    ensures RulesApart(StandardLeft, StandardRight)
  {
  }

  /** The regions' placement lists and kind lists do not overlap. */
  lemma GoogleStandardTwoColumnApart()
    ensures Apart(GoogleStandardTwoColumn)
  {
    StandardLeftApartRight();
  }

  /** No region lists the empty placement, and the fallback names only
      regions the template has. */
  lemma GoogleStandardTwoColumnRouted()
    ensures NoBlankPlacement(GoogleStandardTwoColumn) && Routed(GoogleStandardTwoColumn)
  {
    assert HasArea(GoogleStandardTwoColumn, Left) by { assert GoogleStandardTwoColumn.rules[0].area == Left; }
    assert HasArea(GoogleStandardTwoColumn, Right) by { assert GoogleStandardTwoColumn.rules[1].area == Right; }
  }

  lemma GoogleStandardTwoColumnWellFormed()
    ensures WellFormed(GoogleStandardTwoColumn)
  {
    GoogleStandardTwoColumnApart();
    GoogleStandardTwoColumnRouted();
  }

  /** A section no region claims (an unknown placement, or an unlisted
      kind without a placement) goes where the fallback's substring tests on
      its kind send it; so every section is drawn somewhere. */
  lemma GoogleStandardTwoColumnFallback(x: Section)
    ensures FirstClaim(GoogleStandardTwoColumn, x, 0).None? ==>
      RegionOf(GoogleStandardTwoColumn, x) == if Mentions(x, "skill") || Mentions(x, "education") || Mentions(x, "certification") then Some(Left) else Some(Right)
    ensures RegionOf(GoogleStandardTwoColumn, x).Some?
  {
  }

  /** Every section is drawn exactly once: in exactly one region, and
      once per copy in the input. */
  lemma GoogleStandardTwoColumnPartitions(sections: seq<Section>, x: Section)
    ensures Pool(Arrange(GoogleStandardTwoColumn, sections))[x] == multiset(sections)[x]
  {
    GoogleStandardTwoColumnWellFormed();
    GoogleStandardTwoColumnFallback(x);
    ArrangePartitions(GoogleStandardTwoColumn, sections, x);
  }

  // ---------------------------------------------------------------------------
  // Google Technical Two-Column
  // ---------------------------------------------------------------------------

  const TechnicalLeft: Rule := Rule(Left, ["sidebar", "left-column"], ["technical-skills", "education", "achievements", "certifications", "awards"])
  const TechnicalRight: Rule := Rule(Right, ["main", "right-column"], ["professional-summary", "work-experience", "projects", "publications"])

  const GoogleTechnicalTwoColumn: Template := Template([TechnicalLeft, TechnicalRight], true, [Steer("skill", Left), Steer("education", Left), Steer("certification", Left)], Some(Right))

  lemma TechnicalLeftApartRight()
    ensures RulesApart(TechnicalLeft, TechnicalRight)
  {
  }

  /** The regions' placement lists and kind lists do not overlap. */
  lemma GoogleTechnicalTwoColumnApart()
    ensures Apart(GoogleTechnicalTwoColumn)
  {
    TechnicalLeftApartRight();
  }

  /** No region lists the empty placement, and the fallback names only
      regions the template has. */
  lemma GoogleTechnicalTwoColumnRouted()
    ensures NoBlankPlacement(GoogleTechnicalTwoColumn) && Routed(GoogleTechnicalTwoColumn)
  {
    assert HasArea(GoogleTechnicalTwoColumn, Left) by { assert GoogleTechnicalTwoColumn.rules[0].area == Left; }
    assert HasArea(GoogleTechnicalTwoColumn, Right) by { assert GoogleTechnicalTwoColumn.rules[1].area == Right; }
  }

  lemma GoogleTechnicalTwoColumnWellFormed()
    ensures WellFormed(GoogleTechnicalTwoColumn)
  {
    GoogleTechnicalTwoColumnApart();
    GoogleTechnicalTwoColumnRouted();
  }

  /** A section no region claims (an unknown placement, or an unlisted
      kind without a placement) goes where the fallback's substring tests on
      its kind send it; so every section is drawn somewhere. */
  lemma GoogleTechnicalTwoColumnFallback(x: Section)
    ensures FirstClaim(GoogleTechnicalTwoColumn, x, 0).None? ==>
      RegionOf(GoogleTechnicalTwoColumn, x) == if Mentions(x, "skill") || Mentions(x, "education") || Mentions(x, "certification") then Some(Left) else Some(Right)
    ensures RegionOf(GoogleTechnicalTwoColumn, x).Some?
  {
  }

  /** Every section is drawn exactly once: in exactly one region, and
      once per copy in the input. */
  lemma GoogleTechnicalTwoColumnPartitions(sections: seq<Section>, x: Section)
    ensures Pool(Arrange(GoogleTechnicalTwoColumn, sections))[x] == multiset(sections)[x]
  {
    GoogleTechnicalTwoColumnWellFormed();
    GoogleTechnicalTwoColumnFallback(x);
    ArrangePartitions(GoogleTechnicalTwoColumn, sections, x);
  }

  // ---------------------------------------------------------------------------
  // Google Executive
  // ---------------------------------------------------------------------------

  const ExecutiveLeft: Rule := Rule(Left, ["sidebar", "left-column"], ["technical-skills", "leadership", "certifications"])
  const ExecutiveMain: Rule := Rule(Main, ["main", "right-column"], ["professional-summary", "work-experience", "achievements", "projects"])

  const GoogleExecutive: Template := Template([ExecutiveLeft, ExecutiveMain], true, [Steer("skill", Left), Steer("education", Left), Steer("certification", Left)], Some(Main))

  lemma ExecutiveLeftApartMain()
    ensures RulesApart(ExecutiveLeft, ExecutiveMain)
  {
  }

  /** The regions' placement lists and kind lists do not overlap. */
  lemma GoogleExecutiveApart()
    ensures Apart(GoogleExecutive)
  {
    ExecutiveLeftApartMain();
  }

  /** No region lists the empty placement, and the fallback names only
      regions the template has. */
  lemma GoogleExecutiveRouted()
    ensures NoBlankPlacement(GoogleExecutive) && Routed(GoogleExecutive)
  {
    assert HasArea(GoogleExecutive, Left) by { assert GoogleExecutive.rules[0].area == Left; }
    assert HasArea(GoogleExecutive, Main) by { assert GoogleExecutive.rules[1].area == Main; }
  }

  lemma GoogleExecutiveWellFormed()
    ensures WellFormed(GoogleExecutive)
  {
    GoogleExecutiveApart();
    GoogleExecutiveRouted();
  }

  /** A section no region claims (an unknown placement, or an unlisted
      kind without a placement) goes where the fallback's substring tests on
      its kind send it; so every section is drawn somewhere. */
  lemma GoogleExecutiveFallback(x: Section)
    ensures FirstClaim(GoogleExecutive, x, 0).None? ==>
      RegionOf(GoogleExecutive, x) == if Mentions(x, "skill") || Mentions(x, "education") || Mentions(x, "certification") then Some(Left) else Some(Main)
    ensures RegionOf(GoogleExecutive, x).Some?
  {
  }

  /** Every section is drawn exactly once: in exactly one region, and
      once per copy in the input. */
  lemma GoogleExecutivePartitions(sections: seq<Section>, x: Section)
    ensures Pool(Arrange(GoogleExecutive, sections))[x] == multiset(sections)[x]
  {
    GoogleExecutiveWellFormed();
    GoogleExecutiveFallback(x);
    ArrangePartitions(GoogleExecutive, sections, x);
  }

  /** Education is on neither column's kind list here: a placement-less
      education section is claimed by no column and reaches the left one only
      through the fallback, after the left column's own sections. */
  lemma GoogleExecutiveEducation(x: Section)
    requires !HasPlacement(x) && x.kind == "education"
    ensures FirstClaim(GoogleExecutive, x, 0).None?
    ensures RegionOf(GoogleExecutive, x) == Some(Left)
  {
    assert x.kind[..|"education"|] == "education";
  }

  // ---------------------------------------------------------------------------
  // T-Shaped
  // ---------------------------------------------------------------------------

  const TShapedHeader: Rule := Rule(Header, ["header"], ["professional-summary"])
  const TShapedSidebar: Rule := Rule(Sidebar, ["sidebar", "left-column"], ["technical-skills", "education", "certifications"])
  const TShapedMain: Rule := Rule(Main, ["main", "right-column"], ["work-experience", "projects", "achievements"])

  const TShaped: Template := Template([TShapedHeader, TShapedSidebar, TShapedMain], true, [Steer("skill", Sidebar), Steer("education", Sidebar)], Some(Main))

  lemma TShapedHeaderApartSidebar()
    ensures RulesApart(TShapedHeader, TShapedSidebar)
  {
  }

  lemma TShapedHeaderApartMain()
    ensures RulesApart(TShapedHeader, TShapedMain)
  {
  }

  lemma TShapedSidebarApartMain()
    ensures RulesApart(TShapedSidebar, TShapedMain)
  {
  }

  /** The regions' placement lists and kind lists do not overlap. */
  lemma TShapedApart()
    ensures Apart(TShaped)
  {
    var r := TShaped.rules;
    forall i, j | 0 <= i < j < |r| ensures RulesApart(r[i], r[j]) {
      if i == 0 {
        if j == 1 { TShapedHeaderApartSidebar(); }
        else { TShapedHeaderApartMain(); }
      } else {
        TShapedSidebarApartMain();
      }
    }
  }

  /** No region lists the empty placement, and the fallback names only
      regions the template has. */
  lemma TShapedRouted()
    ensures NoBlankPlacement(TShaped) && Routed(TShaped)
  {
    assert HasArea(TShaped, Sidebar) by { assert TShaped.rules[1].area == Sidebar; }
    assert HasArea(TShaped, Main) by { assert TShaped.rules[2].area == Main; }
  }

  lemma TShapedWellFormed()
    ensures WellFormed(TShaped)
  {
    TShapedApart();
    TShapedRouted();
  }

  /** A section no region claims (an unknown placement, or an unlisted
      kind without a placement) goes where the fallback's substring tests on
      its kind send it; so every section is drawn somewhere. */
  lemma TShapedFallback(x: Section)
    ensures FirstClaim(TShaped, x, 0).None? ==>
      RegionOf(TShaped, x) == if Mentions(x, "skill") || Mentions(x, "education") then Some(Sidebar) else Some(Main)
    ensures RegionOf(TShaped, x).Some?
  {
  }

  /** Every section is drawn exactly once: in exactly one region, and
      once per copy in the input. */
  lemma TShapedPartitions(sections: seq<Section>, x: Section)
    ensures Pool(Arrange(TShaped, sections))[x] == multiset(sections)[x]
  {
    TShapedWellFormed();
    TShapedFallback(x);
    ArrangePartitions(TShaped, sections, x);
  }

  /** The header band takes no fallback sections: it holds exactly the
      sections placed in the header and the placement-less summaries. */
  lemma TShapedHeaderIsOwn(sections: seq<Section>)
    ensures Arrange(TShaped, sections)[0] == Filter(SortByOrder(sections), ClaimTest(TShaped, 0))
  {
    UnsteeredRegionIsOwn(TShaped, sections, 0);
  }

  // ---------------------------------------------------------------------------
  // Asymmetrical (70/30)
  // ---------------------------------------------------------------------------

  const AsymmetricalMain: Rule := Rule(Main, ["main", "right-column"], ["professional-summary", "work-experience", "projects", "achievements"])
  const AsymmetricalSidebar: Rule := Rule(Sidebar, ["sidebar", "left-column"], ["technical-skills", "education", "certifications", "languages"])

  const Asymmetrical: Template := Template([AsymmetricalMain, AsymmetricalSidebar], true, [Steer("skill", Sidebar), Steer("education", Sidebar)], Some(Main))

  lemma AsymmetricalMainApartSidebar()
    ensures RulesApart(AsymmetricalMain, AsymmetricalSidebar)
  {
  }

  /** The regions' placement lists and kind lists do not overlap. */
  lemma AsymmetricalApart()
    ensures Apart(Asymmetrical)
  {
    AsymmetricalMainApartSidebar();
  }

  /** No region lists the empty placement, and the fallback names only
      regions the template has. */
  lemma AsymmetricalRouted()
    ensures NoBlankPlacement(Asymmetrical) && Routed(Asymmetrical)
  {
    assert HasArea(Asymmetrical, Main) by { assert Asymmetrical.rules[0].area == Main; }
    assert HasArea(Asymmetrical, Sidebar) by { assert Asymmetrical.rules[1].area == Sidebar; }
  }

  lemma AsymmetricalWellFormed()
    ensures WellFormed(Asymmetrical)
  {
    AsymmetricalApart();
    AsymmetricalRouted();
  }

  /** A section no region claims (an unknown placement, or an unlisted
      kind without a placement) goes where the fallback's substring tests on
      its kind send it; so every section is drawn somewhere. */
  lemma AsymmetricalFallback(x: Section)
    ensures FirstClaim(Asymmetrical, x, 0).None? ==>
      RegionOf(Asymmetrical, x) == if Mentions(x, "skill") || Mentions(x, "education") then Some(Sidebar) else Some(Main)
    ensures RegionOf(Asymmetrical, x).Some?
  {
  }

  /** Every section is drawn exactly once: in exactly one region, and
      once per copy in the input. */
  lemma AsymmetricalPartitions(sections: seq<Section>, x: Section)
    ensures Pool(Arrange(Asymmetrical, sections))[x] == multiset(sections)[x]
  {
    AsymmetricalWellFormed();
    AsymmetricalFallback(x);
    ArrangePartitions(Asymmetrical, sections, x);
  }

  // ---------------------------------------------------------------------------
  // Triple Section
  // ---------------------------------------------------------------------------

  const TripleBanner: Rule := Rule(Banner, ["header"], ["professional-summary"])
  const TripleLeft: Rule := Rule(Left, ["left-column", "middle-left"], ["technical-skills", "certifications"])
  const TripleMiddle: Rule := Rule(Middle, ["middle-center", "main"], ["work-experience", "projects"])
  const TripleRight: Rule := Rule(Right, ["right-column", "middle-right"], ["education", "achievements"])
  const TripleBottom: Rule := Rule(Bottom, ["footer"], ["additional-info", "references", "languages", "publications"])

  const TripleSection: Template := Template([TripleBanner, TripleLeft, TripleMiddle, TripleRight, TripleBottom], true, [Steer("skill", Left), Steer("education", Right)], Some(Middle))

  lemma TripleBannerApartLeft()
    ensures RulesApart(TripleBanner, TripleLeft)
  {
  }

  lemma TripleBannerApartMiddle()
    ensures RulesApart(TripleBanner, TripleMiddle)
  {
  }

  lemma TripleBannerApartRight()
    ensures RulesApart(TripleBanner, TripleRight)
  {
  }

  lemma TripleBannerApartBottom()
    ensures RulesApart(TripleBanner, TripleBottom)
  {
  }

  lemma TripleLeftApartMiddle()
    ensures RulesApart(TripleLeft, TripleMiddle)
  {
  }

  lemma TripleLeftApartRight()
    ensures RulesApart(TripleLeft, TripleRight)
  {
  }

  lemma TripleLeftApartBottom()
    ensures RulesApart(TripleLeft, TripleBottom)
  {
  }

  lemma TripleMiddleApartRight()
    ensures RulesApart(TripleMiddle, TripleRight)
  {
  }

  lemma TripleMiddleApartBottom()
    ensures RulesApart(TripleMiddle, TripleBottom)
  {
  }

  lemma TripleRightApartBottom()
    ensures RulesApart(TripleRight, TripleBottom)
  {
  }

  /** The regions' placement lists and kind lists do not overlap. */
  lemma TripleSectionApart()
    ensures Apart(TripleSection)
  {
    var r := TripleSection.rules;
    forall i, j | 0 <= i < j < |r| ensures RulesApart(r[i], r[j]) {
      if i == 0 {
        if j == 1 { TripleBannerApartLeft(); }
        else if j == 2 { TripleBannerApartMiddle(); }
        else if j == 3 { TripleBannerApartRight(); }
        else { TripleBannerApartBottom(); }
      } else if i == 1 {
        if j == 2 { TripleLeftApartMiddle(); }
        else if j == 3 { TripleLeftApartRight(); }
        else { TripleLeftApartBottom(); }
      } else if i == 2 {
        if j == 3 { TripleMiddleApartRight(); }
        else { TripleMiddleApartBottom(); }
      } else {
        TripleRightApartBottom();
      }
    }
  }

  /** No region lists the empty placement, and the fallback names only
      regions the template has. */
  lemma TripleSectionRouted()
    ensures NoBlankPlacement(TripleSection) && Routed(TripleSection)
  {
    assert HasArea(TripleSection, Left) by { assert TripleSection.rules[1].area == Left; }
    assert HasArea(TripleSection, Middle) by { assert TripleSection.rules[2].area == Middle; }
    assert HasArea(TripleSection, Right) by { assert TripleSection.rules[3].area == Right; }
  }

  lemma TripleSectionWellFormed()
    ensures WellFormed(TripleSection)
  {
    TripleSectionApart();
    TripleSectionRouted();
  }

  /** A section no region claims (an unknown placement, or an unlisted
      kind without a placement) goes where the fallback's substring tests on
      its kind send it; so every section is drawn somewhere. */
  lemma TripleSectionFallback(x: Section)
    ensures FirstClaim(TripleSection, x, 0).None? ==>
      RegionOf(TripleSection, x) == if Mentions(x, "skill") then Some(Left) else if Mentions(x, "education") then Some(Right) else Some(Middle)
    ensures RegionOf(TripleSection, x).Some?
  {
  }

  /** Every section is drawn exactly once: in exactly one region, and
      once per copy in the input. */
  lemma TripleSectionPartitions(sections: seq<Section>, x: Section)
    ensures Pool(Arrange(TripleSection, sections))[x] == multiset(sections)[x]
  {
    TripleSectionWellFormed();
    TripleSectionFallback(x);
    ArrangePartitions(TripleSection, sections, x);
  }

  /** The banner takes no fallback sections: it holds exactly the sections
      placed in the header and the placement-less summaries. */
  lemma TripleSectionBannerIsOwn(sections: seq<Section>)
    ensures Arrange(TripleSection, sections)[0] == Filter(SortByOrder(sections), ClaimTest(TripleSection, 0))
  {
    UnsteeredRegionIsOwn(TripleSection, sections, 0);
  }

  /** Nor does the bottom band. */
  lemma TripleSectionBottomIsOwn(sections: seq<Section>)
    ensures Arrange(TripleSection, sections)[4] == Filter(SortByOrder(sections), ClaimTest(TripleSection, 4))
  {
    UnsteeredRegionIsOwn(TripleSection, sections, 4);
  }

  /** The bottom band is drawn exactly when some section belongs to it. */
  lemma TripleSectionBottomShown(sections: seq<Section>)
    ensures |Arrange(TripleSection, sections)[4]| > 0
        <==> exists x | x in sections :: RegionOf(TripleSection, x) == Some(Bottom)
  {
    TripleSectionWellFormed();
    ShownIffRouted(TripleSection, sections, 4);
  }

  /** This template has no "sidebar" placement: a section placed there skips
      the kind lists and goes wherever the fallback sends it. */
  lemma TripleSectionIgnoresSidebar(x: Section)
    requires PlacedAt(x, "sidebar")
    ensures RegionOf(TripleSection, x)
         == if Mentions(x, "skill") then Some(Left) else if Mentions(x, "education") then Some(Right) else Some(Middle)
  {
    UnknownPlacementFallsBack(TripleSection, x);
  }

  // ---------------------------------------------------------------------------
  // Hybrid Header + Dual Column (kind only, no fallback)
  // ---------------------------------------------------------------------------

  const HybridHeader: Rule := Rule(Header, [], ["professional-summary"])
  const HybridLeft: Rule := Rule(Left, [], ["technical-skills", "education", "achievements", "certifications"])
  const HybridRight: Rule := Rule(Right, [], ["work-experience", "projects"])
  const HybridFooter: Rule := Rule(Footer, [], ["additional-info", "references", "languages"])

  const HybridHeaderDual: Template := Template([HybridHeader, HybridLeft, HybridRight, HybridFooter], false, [], None)

  lemma HybridHeaderApartLeft()
    ensures RulesApart(HybridHeader, HybridLeft)
  {
  }

  lemma HybridHeaderApartRight()
    ensures RulesApart(HybridHeader, HybridRight)
  {
  }

  lemma HybridHeaderApartFooter()
    ensures RulesApart(HybridHeader, HybridFooter)
  {
  }

  lemma HybridLeftApartRight()
    ensures RulesApart(HybridLeft, HybridRight)
  {
  }

  lemma HybridLeftApartFooter()
    ensures RulesApart(HybridLeft, HybridFooter)
  {
  }

  lemma HybridRightApartFooter()
    ensures RulesApart(HybridRight, HybridFooter)
  {
  }

  /** The regions' placement lists and kind lists do not overlap. */
  lemma HybridHeaderDualApart()
    ensures Apart(HybridHeaderDual)
  {
    var r := HybridHeaderDual.rules;
    forall i, j | 0 <= i < j < |r| ensures RulesApart(r[i], r[j]) {
      if i == 0 {
        if j == 1 { HybridHeaderApartLeft(); }
        else if j == 2 { HybridHeaderApartRight(); }
        else { HybridHeaderApartFooter(); }
      } else if i == 1 {
        if j == 2 { HybridLeftApartRight(); }
        else { HybridLeftApartFooter(); }
      } else {
        HybridRightApartFooter();
      }
    }
  }

  /** No region lists the empty placement, and the fallback names only
      regions the template has. */
  lemma HybridHeaderDualRouted()
    ensures NoBlankPlacement(HybridHeaderDual) && Routed(HybridHeaderDual)
  {
  }

  lemma HybridHeaderDualWellFormed()
    ensures WellFormed(HybridHeaderDual)
  {
    HybridHeaderDualApart();
    HybridHeaderDualRouted();
  }

  /** A section added in the editor (kind "custom") does not appear in
      this template. */
  lemma HybridHeaderDualDropsAdded(n: nat, now: nat)
    ensures RegionOf(HybridHeaderDual, SectionEditor.NewSection(n, now)) == None
  {
  }

  /** The footer is drawn exactly when some section belongs to it. */
  lemma HybridHeaderDualFooterShown(sections: seq<Section>)
    ensures |Arrange(HybridHeaderDual, sections)[3]| > 0
        <==> exists x | x in sections :: RegionOf(HybridHeaderDual, x) == Some(Footer)
  {
    HybridHeaderDualWellFormed();
    ShownIffRouted(HybridHeaderDual, sections, 3);
  }

  // ---------------------------------------------------------------------------
  // Google SRE Two-Column (kind only, no fallback)
  // ---------------------------------------------------------------------------

  const SRELeft: Rule := Rule(Left, [], ["technical-skills", "certifications", "education", "tools"])
  const SRERight: Rule := Rule(Right, [], ["professional-summary", "work-experience", "projects", "achievements"])

  const GoogleSRETwoColumn: Template := Template([SRELeft, SRERight], false, [], None)

  lemma SRELeftApartRight()
    ensures RulesApart(SRELeft, SRERight)
  {
  }

  /** The regions' placement lists and kind lists do not overlap. */
  lemma GoogleSRETwoColumnApart()
    ensures Apart(GoogleSRETwoColumn)
  {
    SRELeftApartRight();
  }

  /** No region lists the empty placement, and the fallback names only
      regions the template has. */
  lemma GoogleSRETwoColumnRouted()
    ensures NoBlankPlacement(GoogleSRETwoColumn) && Routed(GoogleSRETwoColumn)
  {
  }

  lemma GoogleSRETwoColumnWellFormed()
    ensures WellFormed(GoogleSRETwoColumn)
  {
    GoogleSRETwoColumnApart();
    GoogleSRETwoColumnRouted();
  }

  /** A section added in the editor (kind "custom") does not appear in
      this template. */
  lemma GoogleSRETwoColumnDropsAdded(n: nat, now: nat)
    ensures RegionOf(GoogleSRETwoColumn, SectionEditor.NewSection(n, now)) == None
  {
  }

}
