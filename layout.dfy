/** The client's tree renderer (`generateTree`), as a pure function from a
    family view to an abstract layout: a parents row, a children row, or the
    empty-state placeholder.  The HTML text and its CSS classes are not modelled;
    every choice the markup encodes is a field of a card. */
module Layout {
  import opened Wire

  datatype Icon = FemaleIcon | MaleIcon

  /** The role line of a parent card: "Mère" or "Père". */
  datatype RoleLabel = MereLabel | PereLabel

  /** The badge of a linked card: "Famille d'origine" (arrow up) on a parent,
      "A une famille" (arrow down) on a child. */
  datatype Indicator = OriginFamily | OwnFamily

  /** The client's `formatDate`: "Date inconnue", or the date in the browser's
      French locale (the locale text itself is not modelled). */
  datatype BirthText = UnknownDate | OnDate(date: string)

  /** One person card.  `target` is the `data-target-family` attribute; a card
      with a target is `clickable`. */
  datatype Card = Card(
    icon: Icon,
    motherStyle: bool,
    name: string,
    birth: BirthText,
    role: Option<RoleLabel>,
    indicator: Option<Indicator>,
    target: Option<FamilyId>)
  {
    predicate Clickable()
    {
      target.Some?
    }
  }

  /** An item of the parents row: a card, or the connector drawn between the first two parents. */
  datatype Cell = PersonCell(card: Card) | Connector

  /** The content of the tree container. */
  datatype Tree =
    | Rows(parentsRow: Option<seq<Cell>>, childrenRow: Option<seq<Card>>)
    | Placeholder

  /** `person.hasOtherFamily && person.otherFamilyId`, read as JavaScript
      truthiness: a null or zero family id is falsy. */
  function LinkOf(p: PersonView): (t: Option<FamilyId>)
    ensures t.Some? <==> p.hasOtherFamily && p.otherFamilyId.Some? && p.otherFamilyId.value != 0
    ensures t.Some? ==> t == p.otherFamilyId
  {
    if p.hasOtherFamily && p.otherFamilyId.Some? && p.otherFamilyId.value != 0 then p.otherFamilyId else None
  }

  /** `formatDate(dateString)`: a falsy date gives "Date inconnue". */
  function BirthLabel(date: Option<string>): (b: BirthText)
    ensures b == UnknownDate <==> date.None? || date.value == ""
  {
    if date.None? || date.value == "" then UnknownDate else OnDate(date.value)
  }

  function IconOf(g: Gender): Icon
  {
    if g == Female then FemaleIcon else MaleIcon
  }

  /** `${lastName} ${firstName}`. */
  function FullName(p: PersonView): string
  {
    p.lastName + " " + p.firstName
  }

  function ParentCard(p: PersonView): Card
  {
    var target := LinkOf(p);
    Card(IconOf(p.gender), p.gender == Female, FullName(p), BirthLabel(p.birthDate),
         Some(if p.role == Some(Mere) then MereLabel else PereLabel),
         if target.Some? then Some(OriginFamily) else None,
         target)
  }

  function ChildCard(p: PersonView): Card
  {
    var target := LinkOf(p);
    Card(IconOf(p.gender), false, FullName(p), BirthLabel(p.birthDate), None,
         if target.Some? then Some(OwnFamily) else None,
         target)
  }

  /** What the parent at index `i` contributes: its card, followed by the
      connector when it is the first of several parents. */
  function ParentItem(parents: seq<PersonView>, i: nat): seq<Cell>
    requires i < |parents|
  {
    [PersonCell(ParentCard(parents[i]))] + (if i == 0 && |parents| > 1 then [Connector] else [])
  }

  /** The items of the parents from index `i` on, joined in order. */
  function ParentCells(parents: seq<PersonView>, i: nat): seq<Cell>
    decreases |parents| - i
  {
    if i >= |parents| then [] else ParentItem(parents, i) + ParentCells(parents, i + 1)
  }

  function ChildCards(children: seq<PersonView>): seq<Card>
  {
    seq(|children|, i requires 0 <= i < |children| => ChildCard(children[i]))
  }

  /** `generateTree`: each row is present only for a non-empty list; with
      neither row, the placeholder. */
  function Generate(view: FamilyView): Tree
  {
    var parentsRow := if |view.parents| > 0 then Some(ParentCells(view.parents, 0)) else None;
    var childrenRow := if |view.children| > 0 then Some(ChildCards(view.children)) else None;
    if parentsRow.None? && childrenRow.None? then Placeholder else Rows(parentsRow, childrenRow)
  }

  /** The cards of a row, in order, without the connectors. */
  function CardsOf(cells: seq<Cell>): seq<Card>
  {
    if cells == [] then []
    else if cells[0].PersonCell? then [cells[0].card] + CardsOf(cells[1..])
    else CardsOf(cells[1..])
  }

  function ConnectorCount(cells: seq<Cell>): nat
  {
    if cells == [] then 0 else (if cells[0].Connector? then 1 else 0) + ConnectorCount(cells[1..])
  }

  /** Every card of a layout, parents first, in document order. */
  function AllCards(tree: Tree): seq<Card>
  {
    match tree
    case Placeholder => []
    case Rows(parentsRow, childrenRow) =>
      (if parentsRow.Some? then CardsOf(parentsRow.value) else []) +
      (if childrenRow.Some? then childrenRow.value else [])
  }

  lemma {:induction false} CardsOfAppend(a: seq<Cell>, b: seq<Cell>)
    ensures CardsOf(a + b) == CardsOf(a) + CardsOf(b)
    ensures ConnectorCount(a + b) == ConnectorCount(a) + ConnectorCount(b)
  {
    if a == [] {
      assert a + b == b;
    } else {
      CardsOfAppend(a[1..], b);
      assert (a + b)[0] == a[0];
      assert (a + b)[1..] == a[1..] + b;
    }
  }

  lemma {:induction false} ParentCellsFrom(parents: seq<PersonView>, i: nat)
    requires i <= |parents|
    ensures CardsOf(ParentCells(parents, i)) ==
            seq(|parents| - i, k requires 0 <= k < |parents| - i => ParentCard(parents[i + k]))
    ensures ConnectorCount(ParentCells(parents, i)) == if i == 0 && |parents| > 1 then 1 else 0
    decreases |parents| - i
  {
    if i < |parents| {
      ParentCellsFrom(parents, i + 1);
      CardsOfAppend(ParentItem(parents, i), ParentCells(parents, i + 1));
      var item := ParentItem(parents, i);
      assert CardsOf(item) == [ParentCard(parents[i])] by {
        assert item[1..] == [] || item[1..] == [Connector];
        if item[1..] == [Connector] {
          assert item[1..][1..] == [];
        }
      }
      assert ConnectorCount(item) == if i == 0 && |parents| > 1 then 1 else 0 by {
        if item[1..] != [] {
          assert item[1..][1..] == [];
        }
      }
    }
  }

  /** The parents row shows one card per parent, in input order, and exactly
      one connector, right after the first card, when there are several parents. */
  lemma ParentsRowShape(parents: seq<PersonView>)
    ensures CardsOf(ParentCells(parents, 0)) == seq(|parents|, k requires 0 <= k < |parents| => ParentCard(parents[k]))
    ensures ConnectorCount(ParentCells(parents, 0)) == if |parents| > 1 then 1 else 0
    ensures |parents| > 1 ==> ParentCells(parents, 0)[0] == PersonCell(ParentCard(parents[0])) &&
                              ParentCells(parents, 0)[1] == Connector
  {
    ParentCellsFrom(parents, 0);
  }

  /** A card is clickable exactly when the person is linked to a truthy family
      id; its target is that id and its badge is shown exactly then.  A parent's
      label is "Mère" exactly for role "mere"; the icon is female exactly for a
      female person. */
  lemma CardSpec(p: PersonView)
    ensures ParentCard(p).Clickable() <==> p.hasOtherFamily && p.otherFamilyId.Some? && p.otherFamilyId.value != 0
    ensures ChildCard(p).Clickable() <==> ParentCard(p).Clickable()
    ensures ParentCard(p).Clickable() ==> ParentCard(p).target == ChildCard(p).target == p.otherFamilyId
    ensures ParentCard(p).indicator.Some? <==> ParentCard(p).Clickable()
    ensures ChildCard(p).indicator.Some? <==> ChildCard(p).Clickable()
    ensures ParentCard(p).role == Some(MereLabel) <==> p.role == Some(Mere)
    ensures ParentCard(p).role == Some(PereLabel) <==> p.role != Some(Mere)
    ensures ChildCard(p).role.None?
    ensures ParentCard(p).icon == FemaleIcon <==> p.gender == Female
    ensures ChildCard(p).icon == FemaleIcon <==> p.gender == Female
    ensures ParentCard(p).motherStyle <==> p.gender == Female
  {
  }

  /** The placeholder is shown exactly when there are neither parents nor children. */
  lemma PlaceholderIff(view: FamilyView)
    ensures Generate(view) == Placeholder <==> |view.parents| == 0 && |view.children| == 0
    ensures Generate(view).Rows? ==>
              (Generate(view).parentsRow.Some? <==> |view.parents| > 0) &&
              (Generate(view).childrenRow.Some? <==> |view.children| > 0)
  {
  }

  /** The cards of a layout are the parents' cards then the children's, one
      per person and in the view's order. */
  lemma AllCardsSpec(view: FamilyView)
    ensures |AllCards(Generate(view))| == |view.parents| + |view.children|
    ensures forall k :: 0 <= k < |view.parents| ==> AllCards(Generate(view))[k] == ParentCard(view.parents[k])
    ensures forall k :: 0 <= k < |view.children| ==>
              AllCards(Generate(view))[|view.parents| + k] == ChildCard(view.children[k])
  {
    ParentsRowShape(view.parents);
  }
}
