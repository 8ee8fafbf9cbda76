/** The list operations behind the section editor (src/components/SectionEditor.tsx):
    drag to reorder, edit a title or a content, delete, and append a new
    section. Each callback computes the new list and hands it to the parent;
    here each is a pure function from the old list to the new one. */
module SectionEditor {
  import opened Wrappers
  import opened Text
  import opened Sections
  import opened Seqs

  // ---------------------------------------------------------------------------
  // Renumbering
  // ---------------------------------------------------------------------------

  /** A section with its `order` blanked out: what a drag must preserve. */
  function Unordered(x: Section): Section {
    x.(order := 0)
  }

  /** The list with the orders blanked out. */
  function Shape(s: seq<Section>): seq<Section> {
    Map(Unordered, s)
  }

  /** `s.map((section, index) => ({ ...section, order: index }))`. */
  function Renumber(s: seq<Section>): (r: seq<Section>)
    ensures |r| == |s|
    ensures DenseOrder(r)
    ensures Shape(r) == Shape(s)
  {
    var r := seq(|s|, k requires 0 <= k < |s| => s[k].(order := k));
    assert forall k | 0 <= k < |s| :: Unordered(r[k]) == Unordered(s[k]);
    r
  }

  /** Two dense lists that agree on everything but the orders are equal. */
  lemma {:induction false} DenseShapeUnique(a: seq<Section>, b: seq<Section>)
    requires DenseOrder(a) && DenseOrder(b)
    requires Shape(a) == Shape(b)
    ensures a == b
  {
    assert |a| == |Shape(a)| == |Shape(b)| == |b|;
    forall k | 0 <= k < |a| ensures a[k] == b[k] {
      assert Unordered(a[k]) == Shape(a)[k] == Shape(b)[k] == Unordered(b[k]);
      assert a[k] == Unordered(a[k]).(order := k);
      assert b[k] == Unordered(b[k]).(order := k);
    }
  }

  /** Renumbering a list that is already dense changes nothing. */
  lemma RenumberOfDense(s: seq<Section>)
    requires DenseOrder(s)
    ensures Renumber(s) == s
  {
    DenseShapeUnique(Renumber(s), s);
  }

  // ---------------------------------------------------------------------------
  // handleDragEnd
  // ---------------------------------------------------------------------------

  /** What the drag-and-drop library reports when a drag ends: the index the
      item was dragged from and, unless it was dropped outside the list, the
      index it was dropped at. */
  datatype DropResult = DropResult(source: nat, destination: Option<nat>)

  /** The library only reports indices of the list being dragged in. */
  predicate ValidDrop(s: seq<Section>, d: DropResult) {
    d.source < |s| && (d.destination.Some? ==> d.destination.value < |s|)
  }

  /** `handleDragEnd`: without a destination nothing happens; otherwise the
      dragged section is spliced out and back in at the destination, and the
      orders are reset to the indices. */
  function Reorder(s: seq<Section>, d: DropResult): (r: seq<Section>)
    requires ValidDrop(s, d)
    ensures d.destination.None? ==> r == s
    ensures d.destination.Some? ==>
      var i, j := d.source, d.destination.value;
      && |r| == |s|
      && DenseOrder(r)
      && Unordered(r[j]) == Unordered(s[i])
      && Shape(Remove(r, j)) == Shape(Remove(s, i))
  {
    match d.destination
    case None => s
    case Some(j) =>
      var i := d.source;
      var r := Renumber(Move(s, i, j));
      ReorderShape(s, i, j);
      RemoveInserted(Shape(Remove(s, i)), j, Unordered(s[i]));
      RemoveShape(r, j);
      RemoveShape(s, i);
      r
  }

  lemma {:induction false} ReorderShape(s: seq<Section>, i: nat, j: nat)
    requires i < |s| && j < |s|
    ensures Shape(Renumber(Move(s, i, j))) == Move(Shape(s), i, j)
  {
    MapMove(Unordered, s, i, j);
  }

  lemma {:induction false} RemoveShape(s: seq<Section>, i: nat)
    requires i < |s|
    ensures Shape(Remove(s, i)) == Remove(Shape(s), i)
  {
  }

  /** A drag only rearranges: the same sections, up to their orders, with the
      same multiplicities. */
  lemma {:induction false} ReorderPermutes(s: seq<Section>, i: nat, j: nat)
    requires i < |s| && j < |s|
    ensures multiset(Shape(Reorder(s, DropResult(i, Some(j))))) == multiset(Shape(s))
  {
    ReorderShape(s, i, j);
    MovePermutes(Shape(s), i, j);
  }

  /** Dragging the item back from where it was dropped to where it came from
      restores the list, renumbered. */
  lemma {:induction false} ReorderUndo(s: seq<Section>, i: nat, j: nat)
    requires i < |s| && j < |s|
    ensures var r := Reorder(s, DropResult(i, Some(j)));
      Reorder(r, DropResult(j, Some(i))) == Renumber(s)
  {
    var r := Reorder(s, DropResult(i, Some(j)));
    var back := Reorder(r, DropResult(j, Some(i)));
    ReorderShape(s, i, j);
    ReorderShape(r, j, i);
    MoveBack(Shape(s), i, j);
    DenseShapeUnique(back, Renumber(s));
  }

  /** Dropping an item where it was picked up only renumbers. */
  lemma {:induction false} ReorderInPlace(s: seq<Section>, i: nat)
    requires i < |s|
    ensures Reorder(s, DropResult(i, Some(i))) == Renumber(s)
  {
    assert Move(s, i, i) == s;
  }

  // ---------------------------------------------------------------------------
  // updateSection
  // ---------------------------------------------------------------------------

  /** The two fields the editor's inputs write: the title input and the
      content text area. */
  datatype Field = Title | Content

  function FieldOf(x: Section, f: Field): string {
    match f
    case Title => x.title
    case Content => x.content
  }

  /** `{ ...section, [field]: value }`. */
  function SetField(x: Section, f: Field, value: string): (r: Section)
    ensures FieldOf(r, f) == value
  {
    match f
    case Title => x.(title := value)
    case Content => x.(content := value)
  }

  /** `a` and `b` agree on every field except possibly `f`. */
  predicate SameExcept(a: Section, b: Section, f: Field) {
    && a.id == b.id && a.kind == b.kind && a.order == b.order
    && a.required == b.required && a.placement == b.placement
    && (f != Title ==> a.title == b.title)
    && (f != Content ==> a.content == b.content)
  }

  /** `updateSection(id, field, value)`: every section carrying the id gets the
      new value in that field; nothing else changes. */
  function UpdateSection(s: seq<Section>, id: string, f: Field, value: string): (r: seq<Section>)
    ensures |r| == |s|
    ensures forall k | 0 <= k < |s| ::
      && SameExcept(r[k], s[k], f)
      && (s[k].id == id ==> FieldOf(r[k], f) == value)
      && (s[k].id != id ==> r[k] == s[k])
  {
    seq(|s|, k requires 0 <= k < |s| => if s[k].id == id then SetField(s[k], f, value) else s[k])
  }

  /** The ids, orders and flags the invariants speak of are untouched by an edit. */
  lemma {:induction false} UpdateKeepsInvariants(s: seq<Section>, id: string, f: Field, value: string)
    ensures var r := UpdateSection(s, id, f, value);
      && (DenseOrder(s) ==> DenseOrder(r))
      && (DistinctIds(s) ==> DistinctIds(r))
      && (SortedByOrder(s) ==> SortedByOrder(r))
  {
    var r := UpdateSection(s, id, f, value);
    assert forall k | 0 <= k < |s| :: r[k].id == s[k].id && r[k].order == s[k].order;
  }

  /** Typing twice into the same field keeps only the last value. */
  lemma {:induction false} UpdateLastWins(s: seq<Section>, id: string, f: Field, v1: string, v2: string)
    ensures UpdateSection(UpdateSection(s, id, f, v1), id, f, v2) == UpdateSection(s, id, f, v2)
  {
    var a := UpdateSection(UpdateSection(s, id, f, v1), id, f, v2);
    var b := UpdateSection(s, id, f, v2);
    forall k | 0 <= k < |s| ensures a[k] == b[k] {
      if s[k].id == id {
        FieldsDetermine(a[k], b[k], f);
      }
    }
  }

  /** Edits of different fields, or of different sections, do not interfere. */
  lemma {:induction false} UpdatesCommute(s: seq<Section>, id1: string, f1: Field, v1: string,
    id2: string, f2: Field, v2: string)
    requires f1 != f2 || id1 != id2
    ensures UpdateSection(UpdateSection(s, id1, f1, v1), id2, f2, v2)
      == UpdateSection(UpdateSection(s, id2, f2, v2), id1, f1, v1)
  {
    var a := UpdateSection(UpdateSection(s, id1, f1, v1), id2, f2, v2);
    var b := UpdateSection(UpdateSection(s, id2, f2, v2), id1, f1, v1);
    forall k | 0 <= k < |s| ensures a[k] == b[k] {
      if s[k].id == id1 && s[k].id == id2 {
        var c1 := UpdateSection(s, id1, f1, v1)[k];
        var c2 := UpdateSection(s, id2, f2, v2)[k];
        assert SameExcept(a[k], c1, f2) && SameExcept(c1, s[k], f1);
        assert SameExcept(b[k], c2, f1) && SameExcept(c2, s[k], f2);
        assert FieldOf(a[k], f2) == v2 && FieldOf(b[k], f1) == v1;
        assert FieldOf(a[k], f1) == FieldOf(c1, f1) == v1;
        assert FieldOf(b[k], f2) == FieldOf(c2, f2) == v2;
        if f1 == Title {
          assert a[k].title == v1 && a[k].content == v2;
          assert b[k].title == v1 && b[k].content == v2;
        } else {
          assert a[k].title == v2 && a[k].content == v1;
          assert b[k].title == v2 && b[k].content == v1;
        }
      }
    }
  }

  /** Writing the value a section already holds changes nothing. */
  lemma {:induction false} UpdateSameValue(s: seq<Section>, k: nat, f: Field)
    requires k < |s|
    requires DistinctIds(s)
    ensures UpdateSection(s, s[k].id, f, FieldOf(s[k], f)) == s
  {
    var r := UpdateSection(s, s[k].id, f, FieldOf(s[k], f));
    forall m | 0 <= m < |s| ensures r[m] == s[m] {
      if s[m].id == s[k].id {
        assert m == k;
        FieldsDetermine(r[m], s[m], f);
      }
    }
  }

  /** A section is determined by the field `f` and the others. */
  lemma {:induction false} FieldsDetermine(a: Section, b: Section, f: Field)
    requires SameExcept(a, b, f) && FieldOf(a, f) == FieldOf(b, f)
    ensures a == b
  {
  }

  // ---------------------------------------------------------------------------
  // deleteSection
  // ---------------------------------------------------------------------------

  /** The filter's test: the section does not carry the deleted id. */
  function KeepUnless(id: string): Section -> bool {
    (x: Section) => x.id != id
  }

  /** `deleteSection(id)`: `sections.filter(section => section.id !== id)`. */
  function DeleteSection(s: seq<Section>, id: string): (r: seq<Section>)
    ensures |r| <= |s|
    ensures forall k | 0 <= k < |r| :: r[k].id != id && r[k] in s
  {
    Filter(s, KeepUnless(id))
  }

  /** Exactly the sections with the id go; every other one stays, as often as
      it occurred. */
  lemma DeleteCounts(s: seq<Section>, id: string, x: Section)
    ensures multiset(DeleteSection(s, id))[x] == if x.id == id then 0 else multiset(s)[x]
  {
    FilterCount(s, KeepUnless(id), x);
  }

  /** The survivors keep their sequence: deleting from two pieces is deleting
      from each. */
  lemma DeleteConcat(a: seq<Section>, b: seq<Section>, id: string)
    ensures DeleteSection(a + b, id) == DeleteSection(a, id) + DeleteSection(b, id)
  {
    FilterConcat(a, b, KeepUnless(id));
  }

  /** An id that no section carries deletes nothing. */
  lemma {:induction false} DeleteAbsent(s: seq<Section>, id: string)
    requires forall k | 0 <= k < |s| :: s[k].id != id
    ensures DeleteSection(s, id) == s
    decreases |s|
  {
    if |s| > 0 {
      DeleteAbsent(s[1..], id);
      HeadTail(s);
    }
  }

  /** Deleting twice is deleting once. */
  lemma DeleteIdempotent(s: seq<Section>, id: string)
    ensures DeleteSection(DeleteSection(s, id), id) == DeleteSection(s, id)
  {
    DeleteAbsent(DeleteSection(s, id), id);
  }

  /** With distinct ids, deleting the first section's id drops just that section. */
  lemma {:induction false} DeleteFirst(s: seq<Section>)
    requires |s| > 0 && DistinctIds(s)
    ensures DeleteSection(s, s[0].id) == s[1..]
  {
    DeleteAbsent(s[1..], s[0].id);
  }

  /** The delete button is rendered only for sections that are not required
      (line 106): the editor offers deletion of the k-th section, or nothing. */
  function DeleteButton(s: seq<Section>, k: nat): (r: Option<seq<Section>>)
    requires k < |s|
    ensures r.Some? <==> !s[k].required
  {
    if s[k].required then None else Some(DeleteSection(s, s[k].id))
  }

  /** With distinct ids, no button press ever removes a required section. */
  lemma RequiredSurvive(s: seq<Section>, k: nat, x: Section)
    requires k < |s| && DistinctIds(s)
    requires DeleteButton(s, k).Some?
    requires x in s && x.required
    ensures x in DeleteButton(s, k).value
  {
    var m :| 0 <= m < |s| && s[m] == x;
    assert m != k;
    DeleteCounts(s, s[k].id, x);
  }

  // ---------------------------------------------------------------------------
  // addSection
  // ---------------------------------------------------------------------------

  /** The id of an added section: `section-<timestamp>`. */
  function NewSectionId(now: nat): string {
    "section-" + NatToString(now)
  }

  /** The section `addSection` appends to a list of `n` sections. */
  function NewSection(n: nat, now: nat): Section {
    Section(NewSectionId(now), "custom", "New Section", "", n, false, None)
  }

  /** `addSection`, with `now` the value of `Date.now()`: the list is kept and
      one blank custom section is appended, with `order` the old length. */
  function AddSection(s: seq<Section>, now: nat): (r: seq<Section>)
    ensures |r| == |s| + 1 && r[..|s|] == s
    ensures r[|s|].order == |s| && r[|s|].kind == "custom" && r[|s|].content == ""
    ensures r[|s|].title == "New Section" && r[|s|].id == NewSectionId(now)
    ensures !r[|s|].required && r[|s|].placement == None
  {
    s + [NewSection(|s|, now)]
  }

  /** Appending to a dense list keeps it dense. */
  lemma AddKeepsDense(s: seq<Section>, now: nat)
    requires DenseOrder(s)
    ensures DenseOrder(AddSection(s, now))
  {
  }

  /** ...but after a deletion the new section's order repeats the last order:
      a dense list of at least two sections loses its first one and the
      appended section then shares `order` with the last survivor. */
  lemma {:induction false} DeleteThenAddRepeatsOrder(s: seq<Section>, now: nat)
    requires |s| >= 2 && DenseOrder(s) && DistinctIds(s)
    ensures var r := AddSection(DeleteSection(s, s[0].id), now);
      && |r| == |s|
      && r[|r| - 2].order == r[|r| - 1].order == |s| - 1
      && !DenseOrder(r)
  {
    DeleteFirst(s);
  }

  /** The consequence in the preview, which sorts by `order`: after deleting
      the first two of four sections and adding one, the editor lists the new
      section last, but the preview shows it before the last survivor. */
  lemma {:induction false} DeleteThenAddMisorders(s: seq<Section>, now: nat)
    requires |s| == 4 && DenseOrder(s) && DistinctIds(s)
    ensures var r := AddSection(DeleteSection(DeleteSection(s, s[0].id), s[1].id), now);
      var n := NewSection(2, now);
      && r == [s[2], s[3], n]
      && !SortedByOrder(r)
      && SortByOrder(r) != r
      && forall p, q | 0 <= p < 3 && 0 <= q < 3 && SortByOrder(r)[p] == n && SortByOrder(r)[q] == s[3] :: p < q
  {
    var n := NewSection(2, now);
    DeleteFirstTwo(s);
    var r := [s[2], s[3]] + [n];
    assert r == [s[2], s[3], n];
    assert r[1].order > r[2].order;
  }

  lemma {:induction false} DeleteFirstTwo(s: seq<Section>)
    requires |s| == 4 && DistinctIds(s)
    ensures DeleteSection(DeleteSection(s, s[0].id), s[1].id) == [s[2], s[3]]
  {
    DeleteFirst(s);
    DistinctTail(s);
    DeleteFirst(s[1..]);
    DropDrop(s, 1, 1);
    assert s[2..] == [s[2], s[3]];
  }

  lemma {:induction false} DistinctTail(s: seq<Section>)
    requires |s| > 0 && DistinctIds(s)
    ensures DistinctIds(s[1..])
  {
    var t := s[1..];
    forall i, j | 0 <= i < j < |t| ensures t[i].id != t[j].id {
      assert t[i] == s[i + 1] && t[j] == s[j + 1];
    }
  }

  /** The evidently intended deletion: delete, then renumber as a drag does, so
      the orders stay dense and an added section gets a fresh, last order. */
  function DeleteSectionRenumbered(s: seq<Section>, id: string): (r: seq<Section>)
    ensures DenseOrder(r)
    ensures Shape(r) == Shape(DeleteSection(s, id))
  {
    Renumber(DeleteSection(s, id))
  }

  /** After the corrected deletion, adding keeps the orders dense, so the
      preview shows the sections in the editor's sequence. */
  lemma DeleteRenumberedThenAdd(s: seq<Section>, id: string, now: nat)
    ensures var r := AddSection(DeleteSectionRenumbered(s, id), now);
      DenseOrder(r) && SortByOrder(r) == r
  {
    var r := AddSection(DeleteSectionRenumbered(s, id), now);
    SortOfDense(r);
  }

  // ---------------------------------------------------------------------------
  // An editing session
  // ---------------------------------------------------------------------------

  /** One user action in the editor. */
  datatype Edit =
    | Drag(drop: DropResult)
    | Write(id: string, field: Field, value: string)
    | Delete(id: string)
    | Add(now: nat)

  predicate ValidEdit(s: seq<Section>, e: Edit) {
    e.Drag? ==> ValidDrop(s, e.drop)
  }

  /** The list after one action, with the corrected deletion. */
  function ApplyEdit(s: seq<Section>, e: Edit): (r: seq<Section>)
    requires ValidEdit(s, e)
    ensures DenseOrder(s) ==> DenseOrder(r)
  {
    match e
    case Drag(d) => Reorder(s, d)
    case Write(id, f, v) => UpdateKeepsInvariants(s, id, f, v); UpdateSection(s, id, f, v)
    case Delete(id) => DeleteSectionRenumbered(s, id)
    case Add(now) => AddSection(s, now)
  }

  /** A whole session of valid actions from a dense list (such as the default
      sections or an extraction) keeps it dense, so the preview, which sorts
      by `order`, always agrees with the editor. */
  lemma {:induction false} SessionKeepsPreviewOrder(s: seq<Section>, es: seq<Edit>)
    requires DenseOrder(s)
    ensures ApplyAll(s, es).Some? ==>
      DenseOrder(ApplyAll(s, es).value) && SortByOrder(ApplyAll(s, es).value) == ApplyAll(s, es).value
    decreases |es|
  {
    if |es| > 0 && ValidEdit(s, es[0]) {
      SessionKeepsPreviewOrder(ApplyEdit(s, es[0]), es[1..]);
    }
    if ApplyAll(s, es).Some? {
      SortOfDense(ApplyAll(s, es).value);
    }
  }

  /** The list after a sequence of actions; `None` if one of them is not valid
      for the list it is applied to. */
  function ApplyAll(s: seq<Section>, es: seq<Edit>): Option<seq<Section>>
    decreases |es|
  {
    if |es| == 0 then Some(s)
    else if !ValidEdit(s, es[0]) then None
    else ApplyAll(ApplyEdit(s, es[0]), es[1..])
  }
}
