/** The section record (`CVSection` in src/types/cv.ts) and the operations every
    other part of the builder shares: placement tests, generated ids, filtering
    and the stable sort by `order` that each template and the serializer apply. */
module Sections {
  import opened Wrappers
  import opened Text
  import opened Seqs

  /** One heading-delimited block of a resume. `kind` is the source's `type`
      field (a slug derived from the title); `placement` is the optional layout
      hint that only the templates read. */
  datatype Section = Section(
    id: string,
    kind: string,
    title: string,
    content: string,
    order: int,
    required: bool,
    placement: Option<string>)

  /** `!!section.placement`: a placement is present and is not the empty string. */
  predicate HasPlacement(x: Section) {
    x.placement.Some? && x.placement.value != ""
  }

  /** `section.placement === where`. */
  predicate PlacedAt(x: Section, where: string) {
    x.placement == Some(where)
  }

  // ---------------------------------------------------------------------------
  // Generated ids
  // ---------------------------------------------------------------------------

  /** The id the extractor gives a section: `section-<timestamp>-<order>`. */
  function SectionId(timestamp: nat, order: nat): string {
    "section-" + NatToString(timestamp) + "-" + NatToString(order)
  }

  lemma DigitsDashSplit(a: string, b: string, c: string, d: string)
    requires AllDigits(a) && AllDigits(c)
    requires a + "-" + b == c + "-" + d
    ensures a == c && b == d
  {
    var u := a + "-" + b;
    var v := c + "-" + d;
    assert u[|a|] == '-' && v[|c|] == '-';
    assert forall i | 0 <= i < |a| :: u[i] == a[i];
    assert forall i | 0 <= i < |c| :: v[i] == c[i];
    assert |a| == |c|;
    assert a == u[..|a|] && c == v[..|c|];
    assert b == u[|a| + 1..] && d == v[|c| + 1..];
  }

  /** Different (timestamp, order) pairs never give the same id. */
  lemma SectionIdInjective(t1: nat, o1: nat, t2: nat, o2: nat)
    requires SectionId(t1, o1) == SectionId(t2, o2)
    ensures t1 == t2 && o1 == o2
  {
    var p := "section-";
    var u := NatToString(t1) + "-" + NatToString(o1);
    var v := NatToString(t2) + "-" + NatToString(o2);
    assert SectionId(t1, o1) == p + u;
    assert SectionId(t2, o2) == p + v;
    assert u == (p + u)[|p|..] && v == (p + v)[|p|..];
    DigitsDashSplit(NatToString(t1), NatToString(o1), NatToString(t2), NatToString(o2));
    NatToStringInjective(t1, t2);
    NatToStringInjective(o1, o2);
  }

  // ---------------------------------------------------------------------------
  // Collection invariants
  // ---------------------------------------------------------------------------

  /** Every section's `order` is its index: the orders are exactly 0..N-1. */
  predicate DenseOrder(s: seq<Section>) {
    forall i | 0 <= i < |s| :: s[i].order == i
  }

  predicate DistinctIds(s: seq<Section>) {
    forall i, j | 0 <= i < j < |s| :: s[i].id != s[j].id
  }

  /** Ascending by `order` (ties allowed). */
  predicate SortedByOrder(s: seq<Section>) {
    forall i, j | 0 <= i < j < |s| :: s[i].order <= s[j].order
  }

  // ---------------------------------------------------------------------------
  // Array.prototype.filter
  // ---------------------------------------------------------------------------

  /** `s.filter(p)`. */
  function Filter(s: seq<Section>, p: Section -> bool): (r: seq<Section>)
    ensures |r| <= |s|
    ensures forall i | 0 <= i < |r| :: p(r[i]) && r[i] in s
    ensures SortedByOrder(s) ==> SortedByOrder(r)
    decreases |s|
  {
    if |s| == 0 then []
    else if p(s[0]) then [s[0]] + Filter(s[1..], p)
    else Filter(s[1..], p)
  }

  /** Filtering keeps every copy of an element that passes and no copy of one
      that does not. */
  lemma {:induction false} FilterCount(s: seq<Section>, p: Section -> bool, x: Section)
    ensures multiset(Filter(s, p))[x] == if p(x) then multiset(s)[x] else 0
    decreases |s|
  {
    if |s| > 0 {
      FilterCount(s[1..], p, x);
      HeadTail(s);
    }
  }

  /** The survivors keep their input sequence: filtering two pieces is
      filtering each, so with `Filter([x], p)` this pins the result down. */
  lemma {:induction false} FilterConcat(a: seq<Section>, b: seq<Section>, p: Section -> bool)
    ensures Filter(a + b, p) == Filter(a, p) + Filter(b, p)
    decreases |a|
  {
    if |a| == 0 {
      EmptyUnit(b);
      EmptyUnit(Filter(b, p));
    } else {
      ConsTail(a, b);
      FilterConcat(a[1..], b, p);
      if p(a[0]) {
        Assoc([a[0]], Filter(a[1..], p), Filter(b, p));
      }
    }
  }

  // ---------------------------------------------------------------------------
  // Stable sort by order: sections.sort((a, b) => a.order - b.order)
  // ---------------------------------------------------------------------------

  /** The sections whose `order` is `k`, in their original sequence. */
  function WithOrder(s: seq<Section>, k: int): seq<Section>
    decreases |s|
  {
    if |s| == 0 then []
    else (if s[0].order == k then [s[0]] else []) + WithOrder(s[1..], k)
  }

  /** Puts `x` in front of the first element whose order is not below its own. */
  function Insert(x: Section, s: seq<Section>): (r: seq<Section>)
    ensures |r| == |s| + 1
    ensures multiset(r) == multiset(s) + multiset{x}
    ensures forall i | 0 <= i < |r| :: r[i] == x || r[i] in s
    decreases |s|
  {
    if |s| == 0 || x.order <= s[0].order then [x] + s
    else
      assert s == [s[0]] + s[1..];
      [s[0]] + Insert(x, s[1..])
  }

  /** The stable sort: an insertion sort, so that sections with equal `order`
      keep their relative position (as `Array.prototype.sort` guarantees). */
  function SortByOrder(s: seq<Section>): (r: seq<Section>)
    ensures |r| == |s|
    ensures multiset(r) == multiset(s)
    ensures SortedByOrder(r)
    decreases |s|
  {
    if |s| == 0 then []
    else
      assert s == [s[0]] + s[1..];
      var t := SortByOrder(s[1..]);
      InsertSorted(s[0], t);
      Insert(s[0], t)
  }

  lemma {:induction false} InsertSorted(x: Section, t: seq<Section>)
    requires SortedByOrder(t)
    ensures SortedByOrder(Insert(x, t))
    decreases |t|
  {
    if |t| > 0 && x.order > t[0].order {
      InsertSorted(x, t[1..]);
      InsertAbove(x, t[1..], t[0].order);
      SortedCons(t[0], Insert(x, t[1..]));
    } else {
      SortedCons(x, t);
    }
  }

  /** A lower bound on the orders survives an insertion that respects it. */
  lemma {:induction false} InsertAbove(x: Section, s: seq<Section>, m: int)
    requires m <= x.order
    requires forall i | 0 <= i < |s| :: m <= s[i].order
    ensures forall i | 0 <= i < |Insert(x, s)| :: m <= Insert(x, s)[i].order
    decreases |s|
  {
    if |s| > 0 && x.order > s[0].order {
      InsertAbove(x, s[1..], m);
    }
  }

  lemma {:induction false} SortedCons(a: Section, u: seq<Section>)
    requires SortedByOrder(u)
    requires forall i | 0 <= i < |u| :: a.order <= u[i].order
    ensures SortedByOrder([a] + u)
  {
    var r := [a] + u;
    forall i, j | 0 <= i < j < |r| ensures r[i].order <= r[j].order {
      if i > 0 {
        assert r[i] == u[i - 1];
      }
      assert r[j] == u[j - 1];
    }
  }

  lemma {:induction false} WithOrderCons(y: Section, t: seq<Section>, k: int)
    ensures WithOrder([y] + t, k) == (if y.order == k then [y] else []) + WithOrder(t, k)
  {
    ConsTail([y], t);
  }

  lemma {:induction false} InsertWithOrder(x: Section, t: seq<Section>, k: int)
    ensures WithOrder(Insert(x, t), k) == (if x.order == k then [x] else []) + WithOrder(t, k)
    decreases |t|
  {
    if |t| == 0 || x.order <= t[0].order {
      WithOrderCons(x, t, k);
    } else {
      var t' := t[1..];
      var c0 := if t[0].order == k then [t[0]] else [];
      var cx := if x.order == k then [x] else [];
      InsertWithOrder(x, t', k);
      WithOrderCons(t[0], Insert(x, t'), k);
      HeadTail(t);
      WithOrderCons(t[0], t', k);
      SwapEmpty(c0, cx, WithOrder(t', k));
    }
  }

  /** Stability: for every order value, the sections carrying it appear in the
      sorted result in the same relative sequence as in the input. */
  lemma {:induction false} SortIsStable(s: seq<Section>, k: int)
    ensures WithOrder(SortByOrder(s), k) == WithOrder(s, k)
    decreases |s|
  {
    if |s| > 0 {
      SortIsStable(s[1..], k);
      InsertWithOrder(s[0], SortByOrder(s[1..]), k);
    }
  }

  /** Sorting an already sorted sequence changes nothing. */
  lemma {:induction false} SortOfSorted(s: seq<Section>)
    requires SortedByOrder(s)
    ensures SortByOrder(s) == s
    decreases |s|
  {
    if |s| > 0 {
      SortOfSorted(s[1..]);
      HeadTail(s);
    }
  }

  /** Dense orders are in particular sorted, so sorting such a list is the identity. */
  lemma SortOfDense(s: seq<Section>)
    requires DenseOrder(s)
    ensures SortByOrder(s) == s
  {
    SortOfSorted(s);
  }
}
