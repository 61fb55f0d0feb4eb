# ARBRE family tree: a Dafny model

ARBRE shows a genealogical family tree in the browser. A server answers
`GET /api/families/:id` with one family: its name, its parents and its
children. Each person is annotated with a link to one other family: for a
parent, a family in which it is a child; for a child, a family in which it is
a father or mother. The browser renders this view as a parents row and a
children row of cards. Linked cards can be clicked to open the linked family.
The browser keeps a navigation history, with a back button, a refresh button
and a retry button.

The project has five modules:

- `Wire` (`wire.dfy`): the JSON view exchanged between server and client.
- `Server` (`server.dfy`): the family handler of `server.js`, as a pure
  function `Handle` over an in-memory store. The store holds the `famille`
  names, the `personne` rows and the `personne_famille` memberships. A `Db`
  also names the queries that throw. The result is `Found(view)`,
  `NotFound` (404) or `InternalError` (500).
  - The joins are filters over the membership sequence.
  - `ORDER BY pf.role` puts every `mere` row before every `pere` row, because
    "mere" < "pere".
  - `ORDER BY p.date_naissance` is a stable insertion sort: ascending dates,
    NULLs last, ISO dates compared as text.
  - Each `LIMIT 1` cross-link query takes the first matching membership in
    table order.
- `ServerExamples` (`server_examples.dfy`): a small sample store and the view
  the handler builds from it.
- `Layout` (`layout.dfy`): `generateTree` from `script.js`, as a pure function
  from a view to an abstract tree. A parents row is a sequence of cards and
  connectors. A children row is a sequence of cards. Otherwise the tree is the
  placeholder. Each card carries its icon, its role label, its badge and its
  click target.
- `Navigation` (`navigation.dfy`): the module-level state of `script.js` as
  the class `Navigator`. Its fields are `currentFamilyId`, `familyHistory`,
  the back button's `disabled` flag, the heading and the tree container.
  Each request is answered by `Server.Handle` over a `Link`, or fails when the
  link is `Offline`.

The code behaves as follows where a reader might expect otherwise:

- Parents come mothers first, because the code sorts by the role string.
- A child's cross-link does not exclude the requested family
  (`Server.ChildMayLinkToOwnFamily`).
- `currentFamilyId` is not always the last entry of the history. After A, B,
  A the current family is A and the last entry is B.
- `goBack` pops before it reloads. A failed reload does not restore the popped
  entry and does not re-enable or disable the back button. A later refresh of
  the current family can then append that family again. So refresh leaves the
  history unchanged only when the current family is in it
  (`Navigation.Navigator.Refresh`).

## Model

| member | source | states |
|---|---|---|
| `Server.Handle` | server.js:30-146 | 404 exactly when the family lookup succeeds and finds nothing; 500 exactly when the lookup fails, or when the family exists and any issued query (rows or per-person check) fails; otherwise 200 with the fully assembled view, never a partial one |
| `Server.Assemble` | server.js:111-137 | the response's id and name are the requested family's, parents and children have as many entries as the selected rows, and every record's `familyId` is the requested id |
| `Server.RowOf` | server.js:46-54 | a joined row's `id` is the membership's person key (`p.pk_personne = pf.fk_personne`) and its role the membership's role; the other columns are the stored person's |
| `Server.Members` | server.js:53-55 | the join selects only rows with a requested role and never more rows than memberships |
| `Server.MembersExactly` | server.js:53-69 | a row is selected exactly when some membership of the family with one of the roles joins a person and produces it |
| `Server.MembersSplit` | server.js:55 | selecting `pere` and `mere` together gives the same rows, with multiplicity, as selecting each role separately |
| `Server.ParentRowsSpec` | server.js:45-57 | the parent rows are exactly the family's father and mother rows (as a multiset), ordered by role string, so no father precedes a mother |
| `Server.SortByBirthSpec` | server.js:70 | the sort is a permutation of its input and orders rows by birth date ascending, undated rows last |
| `Server.ChildRows` | server.js:60-71 | the child rows are exactly the family's `enfant` rows (as a multiset), sorted by birth date with NULLs last |
| `Server.FirstFamilyWith` | server.js:77-82 | `LIMIT 1` finds a family exactly when the person has a membership with one of the roles, and it is the family of the first such membership |
| `Server.LinkTarget` | server.js:87 | `otherFamilyId` is null when no row was found or the family id is the falsy 0, and otherwise the found id |
| `Server.ParentsAnnotated` | server.js:93-126 | each parent in the view is the parent row at the same position: same id, role `pere`/`mere`, requested `familyId`, gender `male` exactly for `'M'`, missing names as `''`, birth date the row's date formatted (null exactly for a missing or empty one, otherwise the text before the first `'T'`), `hasOtherFamily` exactly when the person is a child in some family, and `otherFamilyId` the family of the first such membership in table order, or null when there is none or that id is 0 |
| `Server.ChildrenAnnotated` | server.js:74-136 | each child in the view is the child row at the same position, normalised as above, with no role, `hasOtherFamily` exactly when the person is a father or mother in some family, and `otherFamilyId` the family of the first such membership in table order, or null when there is none or that id is 0 |
| `Server.ChildMayLinkToOwnFamily` | server.js:77-82 | a child whose first father/mother membership is in the requested family links back to that family |
| `Server.GenderOf` | server.js:120 | `male` exactly for `'M'` |
| `Server.OrEmpty` | server.js:118-119 | a missing name becomes `''`, a present one is kept |
| `Server.DatePart` | server.js:151 | the result is a prefix of the input without any `'T'`, and is followed in the input by a `'T'` when it is shorter |
| `Server.DatePartIdempotent` | server.js:151 | cutting at the first `'T'` twice equals cutting once |
| `Server.FormatDate` | server.js:149-151 | null exactly for a missing or empty date; otherwise the text before the first `'T'`, free of `'T'` |
| `Server.FormatDateIdempotent` | server.js:149-151 | formatting a formatted date changes nothing, except that an empty first result becomes null |
| `Layout.LinkOf` | script.js:118 | a card has a target exactly when `hasOtherFamily` holds and `otherFamilyId` is a non-zero id, and the target is that id |
| `Layout.BirthLabel` | script.js:223-224 | "Date inconnue" exactly for a missing or empty date |
| `Layout.ParentsRowShape` | script.js:114-140 | the parents row holds one card per parent in input order, and one connector right after the first card exactly when there are several parents |
| `Layout.CardSpec` | script.js:117-165 | a card is clickable, shows its badge and targets `otherFamilyId` exactly when the person's link is truthy; the role label is "Mère" exactly for role `mere`, else "Père"; the icon is female exactly for a female person |
| `Layout.PlaceholderIff` | script.js:113-180 | the placeholder appears exactly when there are neither parents nor children; otherwise each row is present exactly when its list is non-empty |
| `Layout.AllCardsSpec` | script.js:106-188 | the tree's cards are the parents' cards and then the children's cards, one per person, in view order |
| `Navigation.Receive` | script.js:46-56 | the client accepts a reply exactly when it is a delivered, successful family response, and then takes its view |
| `Navigation.LoadSpec` | script.js:46-56 | a load succeeds exactly when the link is up, the family exists and none of the issued queries fails; the loaded view is the requested family; an unknown family shows as HTTP 404 and a failing query as HTTP 500 |
| `Navigation.PushedSpec` | script.js:89-91 | `updateHistory` leaves the history identical when the id is present, and otherwise appends it last and keeps the prefix; the history stays free of duplicates |
| `Navigation.PoppedSpec` | script.js:235-236 | the pop removes exactly the last entry of a history of two or more, and keeps the first entry and freedom from duplicates |
| `Navigation.HistoryInvariant` | script.js:233-241 | from the start-up history `['1']`, any run of successful loads and back steps keeps the history non-empty, starting with the home family, and free of duplicates |
| `Navigation.Navigator.constructor` | script.js:3-4 | the current family is 1 and the history is `[1]` |
| `Navigation.Navigator.UpdateHistory` | script.js:88-98 | the history becomes the pushed history, the current family becomes the id, and the back button is disabled exactly when the history has at most one entry |
| `Navigation.Navigator.DisplayFamily` | script.js:34-85 | on success the history is pushed, the current family, heading and tree are updated and the back button is recomputed; on failure only the error message is shown and the history, current family, heading and button are unchanged |
| `Navigation.Navigator.Start` | script.js:18 | start-up displays the home family |
| `Navigation.Navigator.Refresh` | script.js:26-29 | refresh displays the current family, and leaves the history unchanged whenever the current family is in it |
| `Navigation.Navigator.Retry` | script.js:81 | the retry button of the error message displays the home family |
| `Navigation.Navigator.Click` | script.js:197-204 | clicking a card with a target loads exactly that target; clicking any other card changes nothing |
| `Navigation.Navigator.GoBack` | script.js:234-241 | with at most one entry nothing changes; otherwise the last entry is removed for good and the new last entry is requested and displayed, and on failure the current family and back button stay as they were |
| `ServerExamples.ExampleView` | server.js:45-88 | in the sample store the mother is listed first, child 7 (born first) leads the children and is linked to family 4 where it is a father, and the undated child is last |
| `Navigation.LinkedChildExample` | script.js:148-154 | in the sample store, child 7's card targets family 4, and family 4 loads |

## Left out

- HTML text, CSS classes, the hover effects, the pointer cursor and console
  logging. The layout is abstract data.
- The loading placeholder that `displayFamily` shows while its request is in
  flight. Each request is answered before the next event, so that placeholder
  is always replaced by the tree or the error message.
- Concurrent `displayFamily` calls that race, and the parallel `Promise.all`
  checks. Each request is resolved in turn.
- `fetch`, Express routing, CORS, static files, the single-page fallback,
  `pool.connect`, `app.listen` and the database configuration.
- The text of error messages. The model keeps only the kind of failure:
  an HTTP status, `success: false`, or an unreachable server.
- Identifiers are integers. The client keeps them as decimal strings, and the
  server parses the path parameter with `parseInt`. Non-numeric path
  parameters are not modelled.
- The `Date` branches of the server's `formatDate` and the French locale text
  of the client's `formatDate`. Dates are ISO-8601 strings, and PostgreSQL's
  date order is their text order.
- The order of rows with equal sort keys, which the SQL leaves open. The model
  fixes table order.
- The page's initial back-button state and heading (in `index.html`, which is
  not part of this model). The constructor takes the button state as a
  parameter, and the heading starts as `None`.
- Missing `parents` or `children` fields in a response. The view type always
  carries both lists.
