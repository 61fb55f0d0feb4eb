/** The client's navigation controller: the module-level `currentFamilyId` and
    `familyHistory`, `displayFamily` with its success and failure paths,
    `updateHistory`, `goBack`, the refresh and retry buttons and the card
    clicks.  The request for a family is answered by the server model over a
    link that may be down; the request is resolved before the next event. */
module Navigation {
  import opened Wire
  import Server
  import Layout
  import opened ServerExamples

  /** The family shown at start-up and by the retry button. */
  const HOME: FamilyId := 1

  /** The network between the browser and the server. */
  datatype Link = Offline | Online(db: Server.Db)

  /** What `fetch` yields: a rejected promise, or a response. */
  datatype Reply = NetworkError | Delivered(response: Server.Response)

  /** Why `displayFamily` fell into its `catch`. */
  datatype LoadError = HttpError(status: int) | NotSuccessful | Unreachable

  datatype Load = Loaded(view: FamilyView) | Failed(error: LoadError)

  /** The tree container: nothing yet, a rendered tree, or the error message with its retry button. */
  datatype Screen = Blank | Showing(tree: Layout.Tree) | ErrorShown(error: LoadError)

  function Fetch(link: Link, id: FamilyId): Reply
  {
    match link
    case Offline => NetworkError
    case Online(db) => Delivered(Server.Handle(db, id))
  }

  /** The `try` block up to `updateHistory`: `!response.ok` and `!family.success` both throw. */
  function Receive(reply: Reply): (l: Load)
    ensures l.Loaded? <==> reply.Delivered? && reply.response.Found?
    ensures l.Loaded? ==> l.view == reply.response.view
  {
    match reply
    case NetworkError => Failed(Unreachable)
    case Delivered(response) =>
      var status := Server.Status(response);
      if !(200 <= status < 300) then Failed(HttpError(status))
      else if !Server.Success(response) then Failed(NotSuccessful)
      else Loaded(response.view)
  }

  /** A load succeeds exactly when the server finds the family and none of its
      queries fails; the view it brings is that of the requested family.  An
      unknown family is reported as HTTP 404, a failing query as HTTP 500. */
  lemma LoadSpec(link: Link, id: FamilyId)
    ensures Receive(Fetch(link, id)).Loaded? <==>
              link.Online? && Server.FamilyLookup !in link.db.failing && id in link.db.store.families &&
              Server.Issued(link.db.store, id) * link.db.failing == {}
    ensures Receive(Fetch(link, id)).Loaded? ==> Receive(Fetch(link, id)).view.id == id
    ensures link.Online? && Server.Handle(link.db, id).NotFound? ==> Receive(Fetch(link, id)) == Failed(HttpError(404))
    ensures link.Online? && Server.Handle(link.db, id).InternalError? ==> Receive(Fetch(link, id)) == Failed(HttpError(500))
  {
  }

  predicate Distinct(h: seq<FamilyId>)
  {
    forall i, j :: 0 <= i < j < |h| ==> h[i] != h[j]
  }

  /** `familyHistory` after `updateHistory(id)`: `id` is appended when absent. */
  function Pushed(h: seq<FamilyId>, id: FamilyId): seq<FamilyId>
  {
    if id in h then h else h + [id]
  }

  /** `familyHistory` after the `pop` of `goBack`; no change at length 1 or less. */
  function Popped(h: seq<FamilyId>): seq<FamilyId>
  {
    if |h| > 1 then h[..|h| - 1] else h
  }

  /** Pushing keeps the history as a prefix, adds at most `id`, and leaves it
      identical when `id` is already there; it keeps it free of duplicates. */
  lemma PushedSpec(h: seq<FamilyId>, id: FamilyId)
    ensures h <= Pushed(h, id) && id in Pushed(h, id)
    ensures id in h ==> Pushed(h, id) == h
    ensures id !in h ==> |Pushed(h, id)| == |h| + 1 && Pushed(h, id)[|h|] == id
    ensures forall x :: x in Pushed(h, id) <==> x in h || x == id
    ensures Distinct(h) ==> Distinct(Pushed(h, id))
  {
  }

  /** Popping removes exactly the last entry of a history of two or more, and
      keeps the rest, its first entry and its freedom from duplicates. */
  lemma PoppedSpec(h: seq<FamilyId>)
    ensures |h| > 1 ==> Popped(h) + [h[|h| - 1]] == h
    ensures |h| <= 1 ==> Popped(h) == h
    ensures |h| > 0 ==> |Popped(h)| > 0 && Popped(h)[0] == h[0]
    ensures Distinct(h) ==> Distinct(Popped(h))
  {
  }

  /** Any run of successful loads and back steps from the start-up history
      `[HOME]` keeps a history that starts with `HOME` and has no duplicates. */
  lemma {:induction false} HistoryInvariant(steps: seq<Option<FamilyId>>)
    ensures |Replay([HOME], steps)| > 0
    ensures Replay([HOME], steps)[0] == HOME
    ensures Distinct(Replay([HOME], steps))
  {
    ReplayKeeps([HOME], steps);
  }

  /** The history after a run of events: `Some(id)` a successful load of `id`,
      `None` a back step (whose reload does not change the history further). */
  function Replay(h: seq<FamilyId>, steps: seq<Option<FamilyId>>): seq<FamilyId>
    decreases |steps|
  {
    if steps == [] then h
    else Replay(if steps[0].Some? then Pushed(h, steps[0].value) else Popped(h), steps[1..])
  }

  lemma {:induction false} ReplayKeeps(h: seq<FamilyId>, steps: seq<Option<FamilyId>>)
    requires |h| > 0 && Distinct(h)
    ensures |Replay(h, steps)| > 0 && Replay(h, steps)[0] == h[0] && Distinct(Replay(h, steps))
    decreases |steps|
  {
    if steps != [] {
      var next := if steps[0].Some? then Pushed(h, steps[0].value) else Popped(h);
      if steps[0].Some? {
        PushedSpec(h, steps[0].value);
        assert h[0] == next[0];
      } else {
        PoppedSpec(h);
      }
      ReplayKeeps(next, steps[1..]);
    }
  }

  /** A family 1 with a father, a mother and three children, one of whom
      (person 7) is the father of family 4 (see `ExampleView`): the card of
      person 7 in the rendered tree targets family 4, and that family loads. */
  lemma LinkedChildExample()
    ensures var db := Server.Db(ExampleStore(), {});
      && Server.Handle(db, 1).Found?
      && |Layout.AllCards(Layout.Generate(Server.Handle(db, 1).view))| > 2
      && Layout.AllCards(Layout.Generate(Server.Handle(db, 1).view))[2].target == Some(4)
      && Receive(Fetch(Online(db), 4)).Loaded?
  {
    var db := Server.Db(ExampleStore(), {});
    ExampleFound();
    ExampleView();
    LinkedCard(db, Server.Assemble(ExampleStore(), 1));
  }

  /** A found family whose first child links to family 4, with family 4
      found too: that child's card targets family 4, and family 4 loads. */
  lemma LinkedCard(db: Server.Db, v: FamilyView)
    requires Server.Handle(db, 1) == Server.Found(v) && Server.Handle(db, 4).Found?
    requires |v.parents| == 2 && |v.children| > 0
    requires v.children[0].hasOtherFamily && v.children[0].otherFamilyId == Some(4)
    ensures |Layout.AllCards(Layout.Generate(Server.Handle(db, 1).view))| > 2
    ensures Layout.AllCards(Layout.Generate(Server.Handle(db, 1).view))[2].target == Some(4)
    ensures Receive(Fetch(Online(db), 4)).Loaded?
  {
    ExampleCardTarget(v);
  }

  lemma ExampleCardTarget(v: FamilyView)
    requires |v.parents| == 2 && |v.children| > 0
    requires v.children[0].hasOtherFamily && v.children[0].otherFamilyId == Some(4)
    ensures |Layout.AllCards(Layout.Generate(v))| > 2
    ensures Layout.AllCards(Layout.Generate(v))[2].target == Some(4)
  {
    Layout.AllCardsSpec(v);
    assert Layout.AllCards(Layout.Generate(v))[2] == Layout.ChildCard(v.children[0]);
  }

  class Navigator {
    var current: FamilyId
    var history: seq<FamilyId>
    /** The back button's `disabled` state. */
    var backDisabled: bool
    /** The `currentFamily` heading; `None` until a family has been shown. */
    var title: Option<string>
    var screen: Screen

    ghost predicate Valid()
      reads this
    {
      |history| > 0 && history[0] == HOME && Distinct(history)
    }

    /** The module's initial state; the back button starts as the page declares it. */
    constructor (backDisabledAtStart: bool)
      ensures Valid()
      ensures current == HOME && history == [HOME]
      ensures backDisabled == backDisabledAtStart && title.None? && screen == Blank
    {
      current := HOME;
      history := [HOME];
      backDisabled := backDisabledAtStart;
      title := None;
      screen := Blank;
    }

    /** The state `displayFamily(id)` leaves behind for the outcome `load`. */
    twostate predicate DisplayedAfter(id: FamilyId, load: Load)
      reads this
    {
      match load
      case Loaded(view) =>
        && history == Pushed(old(history), id)
        && current == id
        && backDisabled == (|history| <= 1)
        && title == Some(view.name)
        && screen == Showing(Layout.Generate(view))
      case Failed(error) =>
        && history == old(history)
        && current == old(current)
        && backDisabled == old(backDisabled)
        && title == old(title)
        && screen == ErrorShown(error)
    }

    method UpdateHistory(id: FamilyId)
      requires Valid()
      modifies this`history, this`current, this`backDisabled
      ensures Valid()
      ensures history == Pushed(old(history), id) && id in history
      ensures current == id
      ensures backDisabled == (|history| <= 1)
    {
      PushedSpec(history, id);
      if id !in history {
        history := history + [id];
      }
      current := id;
      backDisabled := |history| <= 1;
    }

    /** `displayFamily(id)`: the history and the current family change only
        when the load succeeds. */
    method DisplayFamily(id: FamilyId, link: Link)
      requires Valid()
      modifies this
      ensures Valid()
      ensures DisplayedAfter(id, Receive(Fetch(link, id)))
    {
      var load := Receive(Fetch(link, id));
      match load
      case Loaded(view) =>
        UpdateHistory(id);
        title := Some(view.name);
        screen := Showing(Layout.Generate(view));
      case Failed(error) =>
        screen := ErrorShown(error);
    }

    /** `init`: show the home family. */
    method Start(link: Link)
      requires Valid()
      modifies this
      ensures Valid()
      ensures DisplayedAfter(HOME, Receive(Fetch(link, HOME)))
    {
      DisplayFamily(HOME, link);
    }

    /** The refresh button: reload the current family.  The history is left
        as it was whenever the current family is in it. */
    method Refresh(link: Link)
      requires Valid()
      modifies this
      ensures Valid()
      ensures DisplayedAfter(old(current), Receive(Fetch(link, old(current))))
      ensures old(current) in old(history) ==> history == old(history)
    {
      DisplayFamily(current, link);
    }

    /** The retry button of the error message: load the home family. */
    method Retry(link: Link)
      requires Valid() && screen.ErrorShown?
      modifies this
      ensures Valid()
      ensures DisplayedAfter(HOME, Receive(Fetch(link, HOME)))
    {
      DisplayFamily(HOME, link);
    }

    /** A click on a card of the shown tree: a clickable card loads exactly its
        target, any other card does nothing. */
    method Click(card: Layout.Card, link: Link)
      requires Valid() && screen.Showing? && card in Layout.AllCards(screen.tree)
      modifies this
      ensures Valid()
      ensures card.target.Some? ==> DisplayedAfter(card.target.value, Receive(Fetch(link, card.target.value)))
      ensures card.target.None? ==>
                history == old(history) && current == old(current) && backDisabled == old(backDisabled) &&
                title == old(title) && screen == old(screen)
    {
      if card.target.Some? {
        DisplayFamily(card.target.value, link);
      }
    }

    /** `goBack`: with two or more entries, drop the last and load the new
        last one.  The entry stays dropped even when that load fails, and the
        back button is then left as it was. */
    method GoBack(link: Link) returns (requested: Option<FamilyId>)
      requires Valid()
      modifies this
      ensures Valid()
      ensures |old(history)| <= 1 ==>
                requested.None? && history == old(history) && current == old(current) &&
                backDisabled == old(backDisabled) && title == old(title) && screen == old(screen)
      ensures |old(history)| > 1 ==>
                requested == Some(old(history)[|old(history)| - 2]) &&
                history == Popped(old(history)) &&
                match Receive(Fetch(link, requested.value))
                case Loaded(view) =>
                  current == requested.value && backDisabled == (|history| <= 1) &&
                  title == Some(view.name) && screen == Showing(Layout.Generate(view))
                case Failed(error) =>
                  current == old(current) && backDisabled == old(backDisabled) &&
                  title == old(title) && screen == ErrorShown(error)
    {
      if |history| > 1 {
        PoppedSpec(history);
        history := history[..|history| - 1];
        var previous := history[|history| - 1];
        requested := Some(previous);
        DisplayFamily(previous, link);
      } else {
        requested := None;
      }
    }
  }
}
