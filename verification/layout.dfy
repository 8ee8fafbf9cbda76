/** What the layout templates with named regions share. Each one sorts the
    sections by `order` and lets every region keep the sections its own test
    accepts: a listed placement or, when a section has no placement, a listed
    kind (the simpler templates look at the kind only). The placement-aware
    ones then walk the sections no region kept and append each to the region
    that a substring test on its kind chooses. */
module Layout {
  import opened Wrappers
  import opened Text
  import opened Seqs
  import opened Sections

  /** The named areas of the templates' page grids. */
  datatype Area = Banner | Header | Left | Sidebar | Middle | Main | Right | Bottom | Footer

  /** One region's own test: the placements it accepts and the kinds it takes
      from sections without a placement. */
  datatype Rule = Rule(area: Area, placements: seq<string>, kinds: seq<string>)

  /** One step of the fallback chain: a kind that mentions `word` goes to `area`. */
  datatype Steer = Steer(word: string, area: Area)

  /** A template: its regions in the order the source declares them, whether
      their tests read the placement, and the fallback chain with its final
      `else` (None when the template has no fallback and drops what no region
      accepts). */
  datatype Template = Template(rules: seq<Rule>, placementAware: bool, steers: seq<Steer>, otherwise: Option<Area>)

  /** No string is in both lists. */
  predicate Disjoint(a: seq<string>, b: seq<string>) {
    forall m, n | 0 <= m < |a| && 0 <= n < |b| :: a[m] != b[n]
  }

  /** Two regions that can never both accept a section: different areas, no
      shared placement, no shared kind. */
  predicate RulesApart(a: Rule, b: Rule) {
    a.area != b.area && Disjoint(a.placements, b.placements) && Disjoint(a.kinds, b.kinds)
  }

  /** No two regions can both accept a section. */
  predicate Apart(t: Template) {
    forall i, j | 0 <= i < j < |t.rules| :: RulesApart(t.rules[i], t.rules[j])
  }

  /** No region lists the empty placement, which the tests read as "no
      placement". */
  predicate NoBlankPlacement(t: Template) {
    forall i | 0 <= i < |t.rules| :: "" !in t.rules[i].placements
  }

  /** The fallback only names areas the template has. */
  predicate Routed(t: Template) {
    (forall k | 0 <= k < |t.steers| :: HasArea(t, t.steers[k].area))
    && (t.otherwise.Some? ==> HasArea(t, t.otherwise.value))
  }

  /** The conditions under which every section ends up in at most one region. */
  predicate WellFormed(t: Template) {
    Apart(t) && NoBlankPlacement(t) && Routed(t)
  }

  predicate HasArea(t: Template, a: Area) {
    exists i | 0 <= i < |t.rules| :: t.rules[i].area == a
  }

  // ---------------------------------------------------------------------------
  // The template's two passes
  // ---------------------------------------------------------------------------

  /** Region `i`'s own test, as its `sortedSections.filter(...)` states it. */
  predicate Claims(t: Template, i: nat, x: Section) {
    i < |t.rules|
    && if t.placementAware then
         (x.placement.Some? && x.placement.value in t.rules[i].placements)
         || (!HasPlacement(x) && x.kind in t.rules[i].kinds)
       else x.kind in t.rules[i].kinds
  }

  /** The first region, from `from` on, whose own test accepts `x`. */
  function FirstClaim(t: Template, x: Section, from: nat): (r: Option<nat>)
    ensures r.Some? ==> from <= r.value < |t.rules| && Claims(t, r.value, x)
    ensures r.Some? ==> forall i | from <= i < r.value :: !Claims(t, i, x)
    ensures r.None? <==> forall i | from <= i < |t.rules| :: !Claims(t, i, x)
    decreases |t.rules| - from
  {
    if from >= |t.rules| then None
    else if Claims(t, from, x) then Some(from)
    else FirstClaim(t, x, from + 1)
  }

  /** The fallback chain: the first step whose word the kind mentions, else
      the final `else`. */
  function SteerOf(steers: seq<Steer>, otherwise: Option<Area>, x: Section): (r: Option<Area>)
    ensures r == otherwise || exists k | 0 <= k < |steers| :: r == Some(steers[k].area) && Mentions(x, steers[k].word)
    decreases |steers|
  {
    if |steers| == 0 then otherwise
    else if Mentions(x, steers[0].word) then Some(steers[0].area)
    else
      var r := SteerOf(steers[1..], otherwise, x);
      assert r != otherwise ==> exists k | 1 <= k < |steers| :: r == Some(steers[k].area) && Mentions(x, steers[k].word);
      r
  }

  /** The substring test behind every fallback step: `type.includes(word)`. */
  predicate Mentions(x: Section, word: string) {
    Contains(x.kind, word)
  }

  function ClaimTest(t: Template, i: nat): Section -> bool {
    (x: Section) => Claims(t, i, x)
  }

  /** `!a.includes(section) && !b.includes(section) && ...` over every region's
      own list: no region's own test accepts the section. */
  function UnclaimedTest(t: Template): Section -> bool {
    (x: Section) => FirstClaim(t, x, 0).None?
  }

  function SteerTest(t: Template, i: nat): Section -> bool {
    (x: Section) => i < |t.rules| && SteerOf(t.steers, t.otherwise, x) == Some(t.rules[i].area)
  }

  /** One region's final list: the sections `claims` accepts, then the
      unclaimed sections (those `unclaimed` accepts) that the fallback test
      `leans` sends here. Both parts keep the order of `sorted`. */
  function Region(sorted: seq<Section>, claims: Section -> bool, unclaimed: Section -> bool,
                  leans: Section -> bool): (r: seq<Section>)
    ensures var n := |Filter(sorted, claims)|;
      n <= |r|
      && (forall i | 0 <= i < n :: claims(r[i]) && r[i] in sorted)
      && (forall i | n <= i < |r| :: unclaimed(r[i]) && leans(r[i]) && r[i] in sorted)
    ensures SortedByOrder(sorted) ==>
      var n := |Filter(sorted, claims)|;
      SortedByOrder(r[..n]) && SortedByOrder(r[n..])
  {
    var own := Filter(sorted, claims);
    var extra := Filter(Filter(sorted, unclaimed), leans);
    assert (own + extra)[..|own|] == own;
    assert (own + extra)[|own|..] == extra;
    assert forall i | |own| <= i < |own + extra| :: (own + extra)[i] == extra[i - |own|];
    own + extra
  }

  /** How many copies of `x` a region holds: every copy when its own test
      claims `x`, plus every copy again when `x` is unclaimed and leans here. */
  lemma RegionCount(sorted: seq<Section>, claims: Section -> bool, unclaimed: Section -> bool,
                    leans: Section -> bool, x: Section)
    ensures multiset(Region(sorted, claims, unclaimed, leans))[x]
         == (if claims(x) then multiset(sorted)[x] else 0)
          + (if unclaimed(x) && leans(x) then multiset(sorted)[x] else 0)
  {
    FilterCount(sorted, claims, x);
    FilterCount(sorted, unclaimed, x);
    FilterCount(Filter(sorted, unclaimed), leans, x);
  }

  /** Region `i` of the rendered page. */
  function RegionAt(t: Template, sorted: seq<Section>, i: nat): seq<Section> {
    Region(sorted, ClaimTest(t, i), UnclaimedTest(t), SteerTest(t, i))
  }

  /** What one region's list looks like: its own sections, then its
      fallback sections, each part ascending by `order`. */
  predicate OwnThenFallback(t: Template, i: nat, sorted: seq<Section>, r: seq<Section>) {
    var n := |Filter(sorted, ClaimTest(t, i))|;
    n <= |r|
    && (forall k | 0 <= k < n :: Claims(t, i, r[k]))
    && (forall k | n <= k < |r| :: FirstClaim(t, r[k], 0).None?)
    && SortedByOrder(r[..n]) && SortedByOrder(r[n..])
  }

  lemma RegionAtShape(t: Template, sorted: seq<Section>, i: nat)
    requires SortedByOrder(sorted)
    ensures OwnThenFallback(t, i, sorted, RegionAt(t, sorted, i))
    ensures forall k | 0 <= k < |RegionAt(t, sorted, i)| :: RegionAt(t, sorted, i)[k] in sorted
  {
  }

  /** Every region's list, in the order of `t.rules`. Each region lists its
      own sections first and then its fallback sections, both ascending by
      `order`, and holds nothing that is not among the input sections. */
  function Arrange(t: Template, sections: seq<Section>): (r: seq<seq<Section>>)
    ensures |r| == |t.rules|
    ensures forall i | 0 <= i < |r| :: OwnThenFallback(t, i, SortByOrder(sections), r[i])
    ensures forall i, k | 0 <= i < |r| && 0 <= k < |r[i]| :: r[i][k] in multiset(sections)
  {
    var sorted := SortByOrder(sections);
    var r := seq(|t.rules|, i requires 0 <= i < |t.rules| => RegionAt(t, sorted, i));
    forall i | 0 <= i < |r|
      ensures OwnThenFallback(t, i, sorted, r[i])
      ensures forall k | 0 <= k < |r[i]| :: r[i][k] in multiset(sections)
    {
      RegionAtShape(t, sorted, i);
    }
    r
  }

  // ---------------------------------------------------------------------------
  // Where a section lands
  // ---------------------------------------------------------------------------

  /** The area a section ends up in: the region whose own test accepts it,
      or else the fallback's choice; None when it is dropped. */
  function RegionOf(t: Template, x: Section): Option<Area> {
    match FirstClaim(t, x, 0)
    case Some(i) => Some(t.rules[i].area)
    case None => SteerOf(t.steers, t.otherwise, x)
  }

  /** At most one region's own test accepts a section. */
  lemma {:induction false} ClaimsDisjoint(t: Template, i: nat, j: nat, x: Section)
    requires WellFormed(t)
    requires Claims(t, i, x) && Claims(t, j, x)
    ensures i == j
  {
  }

  /** A section some region's own test accepts belongs to that region: a
      later region's test, or the fallback, never takes it away. */
  lemma ClaimedRegion(t: Template, i: nat, x: Section)
    requires WellFormed(t)
    requires Claims(t, i, x)
    ensures RegionOf(t, x) == Some(t.rules[i].area)
  {
    ClaimsDisjoint(t, i, FirstClaim(t, x, 0).value, x);
  }

  /** Without a placement (or in a template that ignores placements), a
      kind on a region's list sends the section to that region. */
  lemma KindDecides(t: Template, i: nat, x: Section)
    requires WellFormed(t)
    requires i < |t.rules|
    requires t.placementAware ==> !HasPlacement(x)
    requires x.kind in t.rules[i].kinds
    ensures RegionOf(t, x) == Some(t.rules[i].area)
  {
    ClaimedRegion(t, i, x);
  }

  /** In a template that reads placements, a placement on a region's list
      sends the section to that region, whatever its kind. */
  lemma PlacementDecides(t: Template, i: nat, x: Section)
    requires WellFormed(t)
    requires t.placementAware
    requires i < |t.rules|
    requires x.placement.Some? && x.placement.value in t.rules[i].placements
    ensures RegionOf(t, x) == Some(t.rules[i].area)
  {
    ClaimedRegion(t, i, x);
  }

  /** A placement the template does not know hides the kind lists too (they
      only apply without a placement): such a section goes wherever the
      fallback sends it. */
  lemma UnknownPlacementFallsBack(t: Template, x: Section)
    requires t.placementAware
    requires HasPlacement(x)
    requires forall i | 0 <= i < |t.rules| :: x.placement.value !in t.rules[i].placements
    ensures RegionOf(t, x) == SteerOf(t.steers, t.otherwise, x)
  {
  }

  /** In a template that reads only kinds and has no fallback, a section
      whose kind is on no list is not drawn. */
  lemma UnlistedKindDropped(t: Template, x: Section)
    requires !t.placementAware
    requires t.steers == [] && t.otherwise == None
    requires forall i | 0 <= i < |t.rules| :: x.kind !in t.rules[i].kinds
    ensures RegionOf(t, x) == None
  {
  }

  /** Region `i` holds every copy of the sections whose area is its own and
      nothing else. */
  lemma {:induction false} RegionHoldsItsArea(t: Template, sections: seq<Section>, i: nat, x: Section)
    requires WellFormed(t)
    requires i < |t.rules|
    ensures multiset(Arrange(t, sections)[i])[x]
         == if RegionOf(t, x) == Some(t.rules[i].area) then multiset(sections)[x] else 0
  {
    var sorted := SortByOrder(sections);
    assert Arrange(t, sections)[i] == RegionAt(t, sorted, i);
    RegionCount(sorted, ClaimTest(t, i), UnclaimedTest(t), SteerTest(t, i), x);
    var c := FirstClaim(t, x, 0);
    if Claims(t, i, x) {
      ClaimsDisjoint(t, i, c.value, x);
    } else if c.Some? {
      assert t.rules[c.value].area != t.rules[i].area by {
        if c.value < i {
          assert t.rules[c.value].area != t.rules[i].area;
        } else {
          assert c.value != i;
        }
      }
    }
  }

  /** The multiset union of a list of regions. */
  function Pool(rs: seq<seq<Section>>): multiset<Section>
    decreases |rs|
  {
    if |rs| == 0 then multiset{} else multiset(rs[0]) + Pool(rs[1..])
  }

  predicate AreaFrom(t: Template, a: Area, from: nat) {
    exists i | from <= i < |t.rules| :: t.rules[i].area == a
  }

  lemma {:induction false} PoolFrom(t: Template, sections: seq<Section>, from: nat, x: Section)
    requires WellFormed(t)
    requires from <= |t.rules|
    ensures Pool(Arrange(t, sections)[from..])[x]
         == if RegionOf(t, x).Some? && AreaFrom(t, RegionOf(t, x).value, from) then multiset(sections)[x] else 0
    decreases |t.rules| - from
  {
    var rs := Arrange(t, sections);
    if from < |t.rules| {
      PoolFrom(t, sections, from + 1, x);
      HeadTail(rs[from..]);
      DropDrop(rs, from, 1);
      RegionHoldsItsArea(t, sections, from, x);
      var a := RegionOf(t, x);
      if a.Some? && AreaFrom(t, a.value, from + 1) {
        var j :| from + 1 <= j < |t.rules| && t.rules[j].area == a.value;
        assert t.rules[from].area != a.value;
      }
    }
  }

  /** Every copy of every section appears in exactly one region when the
      template routes it somewhere, and in none when it is dropped. */
  lemma {:induction false} ArrangePartitions(t: Template, sections: seq<Section>, x: Section)
    requires WellFormed(t)
    ensures Pool(Arrange(t, sections))[x] == if RegionOf(t, x).Some? then multiset(sections)[x] else 0
  {
    PoolFrom(t, sections, 0, x);
    assert Arrange(t, sections)[0..] == Arrange(t, sections);
    var a := RegionOf(t, x);
    if a.Some? {
      var c := FirstClaim(t, x, 0);
      if c.Some? {
        assert t.rules[c.value].area == a.value;
      } else {
        var s := SteerOf(t.steers, t.otherwise, x);
        if s != t.otherwise {
          var k :| 0 <= k < |t.steers| && s == Some(t.steers[k].area) && Mentions(x, t.steers[k].word);
          assert HasArea(t, t.steers[k].area);
        } else {
          assert HasArea(t, t.otherwise.value);
        }
      }
    }
  }

  /** A region is drawn only when it is non-empty (`list.length > 0 && ...`):
      that happens exactly when some section's area is that region's. */
  lemma {:induction false} ShownIffRouted(t: Template, sections: seq<Section>, i: nat)
    requires WellFormed(t)
    requires i < |t.rules|
    ensures |Arrange(t, sections)[i]| > 0 <==> exists x | x in sections :: RegionOf(t, x) == Some(t.rules[i].area)
  {
    var r := Arrange(t, sections)[i];
    if |r| > 0 {
      RegionHoldsItsArea(t, sections, i, r[0]);
      assert r[0] in multiset(r);
    }
    if x :| x in sections && RegionOf(t, x) == Some(t.rules[i].area) {
      RegionHoldsItsArea(t, sections, i, x);
      assert x in multiset(sections);
    }
  }

  /** A region that no fallback step names holds exactly the sections its
      own test accepts, in sorted order. */
  lemma {:induction false} UnsteeredRegionIsOwn(t: Template, sections: seq<Section>, i: nat)
    requires i < |t.rules|
    requires forall k | 0 <= k < |t.steers| :: t.steers[k].area != t.rules[i].area
    requires t.otherwise != Some(t.rules[i].area)
    ensures Arrange(t, sections)[i] == Filter(SortByOrder(sections), ClaimTest(t, i))
  {
    var sorted := SortByOrder(sections);
    var unclaimed := Filter(sorted, UnclaimedTest(t));
    var extra := Filter(unclaimed, SteerTest(t, i));
    if |extra| > 0 {
      NeverSteered(t, i, extra[0]);
    }
    assert Arrange(t, sections)[i] == Filter(sorted, ClaimTest(t, i)) + extra;
  }

  lemma NeverSteered(t: Template, i: nat, x: Section)
    requires i < |t.rules|
    requires forall k | 0 <= k < |t.steers| :: t.steers[k].area != t.rules[i].area
    requires t.otherwise != Some(t.rules[i].area)
    ensures !SteerTest(t, i)(x)
  {
  }

  /** A template that ignores placements sends a section to the same area
      whatever its placement. */
  lemma {:induction false} PlacementIgnored(t: Template, x: Section, p: Option<string>)
    requires !t.placementAware
    ensures RegionOf(t, x) == RegionOf(t, x.(placement := p))
  {
    var y := x.(placement := p);
    forall i | 0 <= i < |t.rules| ensures Claims(t, i, x) == Claims(t, i, y) { }
    FirstClaimAgree(t, x, y, 0);
    SteerOfAgree(t.steers, t.otherwise, x, y);
  }

  lemma {:induction false} FirstClaimAgree(t: Template, x: Section, y: Section, from: nat)
    requires forall i | 0 <= i < |t.rules| :: Claims(t, i, x) == Claims(t, i, y)
    ensures FirstClaim(t, x, from) == FirstClaim(t, y, from)
    decreases |t.rules| - from
  {
    if from < |t.rules| {
      FirstClaimAgree(t, x, y, from + 1);
    }
  }

  lemma {:induction false} SteerOfAgree(steers: seq<Steer>, otherwise: Option<Area>, x: Section, y: Section)
    requires x.kind == y.kind
    ensures SteerOf(steers, otherwise, x) == SteerOf(steers, otherwise, y)
    decreases |steers|
  {
    if |steers| > 0 {
      SteerOfAgree(steers[1..], otherwise, x, y);
    }
  }
}
