/** The family-view handler of the server (`GET /api/families/:id`), as a pure
    function over an in-memory copy of the three tables it reads: `famille`,
    `personne` and `personne_famille`.  The SQL engine is replaced by filters
    over sequences; a query that fails is named in `Db.failing`. */
module Server {
  import opened Wire

  /** A `personne` row.  Nullable columns are options; `birthDate` is the
      ISO-8601 text of `date_naissance` ("YYYY-MM-DD", possibly with a time part). */
  datatype Person = Person(
    id: PersonId,
    lastName: Option<string>,
    firstName: Option<string>,
    sex: Option<string>,
    birthDate: Option<string>)

  /** A `personne_famille` row: person `personId` holds `role` in family `familyId`. */
  datatype Membership = Membership(personId: PersonId, familyId: FamilyId, role: Role)

  /** `famille` (id to name), `personne` (id to row) and `personne_famille`, in table order. */
  datatype Store = Store(
    families: map<FamilyId, string>,
    persons: map<PersonId, Person>,
    memberships: seq<Membership>)

  /** The queries the handler issues. */
  datatype Query =
    | FamilyLookup
    | ParentsQuery
    | ChildrenQuery
    | OwnFamilyCheck(childId: PersonId)      // is this child a father or mother somewhere?
    | OriginFamilyCheck(parentId: PersonId)  // is this parent a child somewhere?

  /** The store together with the queries that throw when issued. */
  datatype Db = Db(store: Store, failing: set<Query>)

  /** 200 with the view, 404 `{success: false}`, or 500 `{success: false}`. */
  datatype Response = Found(view: FamilyView) | NotFound | InternalError

  function Status(r: Response): int
  {
    match r
    case Found(_) => 200
    case NotFound => 404
    case InternalError => 500
  }

  /** The `success` field of the response body. */
  predicate Success(r: Response)
  {
    r.Found?
  }

  /** A row of the join `personne p JOIN personne_famille pf`. */
  datatype Row = Row(person: Person, role: Role)

  predicate Joins(s: Store, fam: FamilyId, roles: set<Role>, m: Membership)
  {
    m.familyId == fam && m.role in roles && m.personId in s.persons
  }

  /** The joined row of a membership.  Its `id` is the join key
      `p.pk_personne = pf.fk_personne`, whatever the stored record says. */
  function RowOf(s: Store, m: Membership): (r: Row)
    requires m.personId in s.persons
    ensures r.person.id == m.personId && r.role == m.role
    ensures r.person.(id := 0) == s.persons[m.personId].(id := 0)
  {
    Row(s.persons[m.personId].(id := m.personId), m.role)
  }

  /** `WHERE pf.fk_famille = fam AND pf.role IN roles` over the join, in
      `personne_famille` order (the order the engine returns without ORDER BY
      is unspecified; this model fixes table order). */
  function Members(s: Store, fam: FamilyId, roles: set<Role>, ms: seq<Membership>): (rows: seq<Row>)
    ensures |rows| <= |ms|
    ensures forall i :: 0 <= i < |rows| ==> rows[i].role in roles && rows[i].person.id in s.persons
  {
    if ms == [] then []
    else if Joins(s, fam, roles, ms[0]) then [RowOf(s, ms[0])] + Members(s, fam, roles, ms[1..])
    else Members(s, fam, roles, ms[1..])
  }

  /** A row is selected exactly when some membership of the family with one
      of the roles joins a person and produces it. */
  lemma {:induction false} MembersExactly(s: Store, fam: FamilyId, roles: set<Role>, ms: seq<Membership>, x: Row)
    ensures x in Members(s, fam, roles, ms) <==>
            exists m :: m in ms && Joins(s, fam, roles, m) && x == RowOf(s, m)
  {
    if ms != [] {
      MembersExactly(s, fam, roles, ms[1..], x);
      assert forall m :: m in ms <==> m == ms[0] || m in ms[1..];
    }
  }

  /** Selecting two disjoint role sets separately selects the same rows, with
      the same multiplicities, as selecting their union. */
  lemma {:induction false} MembersSplit(s: Store, fam: FamilyId, a: set<Role>, b: set<Role>, ms: seq<Membership>)
    requires a !! b
    ensures multiset(Members(s, fam, a + b, ms)) ==
            multiset(Members(s, fam, a, ms)) + multiset(Members(s, fam, b, ms))
  {
    if ms != [] {
      MembersSplit(s, fam, a, b, ms[1..]);
    }
  }

  /** Lexicographic order on text: PostgreSQL's order on the role strings and,
      for ISO-8601 dates, the chronological order of `date_naissance`. */
  predicate LexLe(a: string, b: string)
  {
    |a| == 0 || (|b| > 0 && (a[0] < b[0] || (a[0] == b[0] && LexLe(a[1..], b[1..]))))
  }

  lemma {:induction false} LexLeTotal(a: string, b: string)
    ensures LexLe(a, b) || LexLe(b, a)
  {
    if |a| > 0 && |b| > 0 && a[0] == b[0] {
      LexLeTotal(a[1..], b[1..]);
    }
  }

  lemma {:induction false} LexLeTrans(a: string, b: string, c: string)
    requires LexLe(a, b) && LexLe(b, c)
    ensures LexLe(a, c)
  {
    if |a| > 0 && a[0] == b[0] && b[0] == c[0] {
      LexLeTrans(a[1..], b[1..], c[1..]);
    }
  }

  /** The parent rows: `role IN ('pere', 'mere') ORDER BY pf.role`.  The
      engine leaves the order of equal roles open; this model keeps table
      order, so all "mere" rows come first, then all "pere" rows. */
  function ParentRows(s: Store, fam: FamilyId): seq<Row>
  {
    Members(s, fam, {Mere}, s.memberships) + Members(s, fam, {Pere}, s.memberships)
  }

  /** The parent rows are exactly the family's father and mother rows, with
      multiplicity, sorted by the role string; so mothers precede fathers. */
  lemma ParentRowsSpec(s: Store, fam: FamilyId)
    ensures multiset(ParentRows(s, fam)) == multiset(Members(s, fam, {Pere, Mere}, s.memberships))
    ensures forall i :: 0 <= i < |ParentRows(s, fam)| ==> ParentRows(s, fam)[i].role in {Pere, Mere}
    ensures forall i, j :: 0 <= i < j < |ParentRows(s, fam)| ==>
              LexLe(RoleName(ParentRows(s, fam)[i].role), RoleName(ParentRows(s, fam)[j].role))
    ensures forall i, j :: 0 <= i < j < |ParentRows(s, fam)| && ParentRows(s, fam)[i].role == Pere ==>
              ParentRows(s, fam)[j].role == Pere
  {
    MembersSplit(s, fam, {Mere}, {Pere}, s.memberships);
    assert {Mere} + {Pere} == {Pere, Mere};
    var mothers := Members(s, fam, {Mere}, s.memberships);
    var rows := ParentRows(s, fam);
    assert LexLe("mere", "pere");
    forall i, j | 0 <= i < j < |rows|
      ensures LexLe(RoleName(rows[i].role), RoleName(rows[j].role))
    {
      if i < |mothers| && |mothers| <= j {
        assert rows[i].role == Mere && rows[j].role == Pere;
      } else {
        assert rows[i].role == rows[j].role;
        LexLeRefl(RoleName(rows[i].role));
      }
    }
  }

  lemma {:induction false} LexLeRefl(a: string)
    ensures LexLe(a, a)
  {
    if |a| > 0 {
      LexLeRefl(a[1..]);
    }
  }

  /** `ORDER BY p.date_naissance`: ascending, NULLs last (PostgreSQL's default). */
  predicate BirthLe(x: Option<string>, y: Option<string>)
  {
    match (x, y)
    case (Some(a), Some(b)) => LexLe(a, b)
    case (Some(_), None) => true
    case (None, None) => true
    case (None, Some(_)) => false
  }

  predicate SortedByBirth(rows: seq<Row>)
  {
    forall i, j :: 0 <= i < j < |rows| ==> BirthLe(rows[i].person.birthDate, rows[j].person.birthDate)
  }

  /** Places `r` before the first row that is not earlier than it. */
  function InsertByBirth(r: Row, sorted: seq<Row>): seq<Row>
  {
    if sorted == [] then [r]
    else if BirthLe(r.person.birthDate, sorted[0].person.birthDate) then [r] + sorted
    else [sorted[0]] + InsertByBirth(r, sorted[1..])
  }

  /** The engine's sort, modelled as a stable insertion sort. */
  function SortByBirth(rows: seq<Row>): seq<Row>
  {
    if rows == [] then [] else InsertByBirth(rows[0], SortByBirth(rows[1..]))
  }

  lemma BirthLeTotal(x: Option<string>, y: Option<string>)
    ensures BirthLe(x, y) || BirthLe(y, x)
  {
    if x.Some? && y.Some? {
      LexLeTotal(x.value, y.value);
    }
  }

  lemma BirthLeTrans(x: Option<string>, y: Option<string>, z: Option<string>)
    requires BirthLe(x, y) && BirthLe(y, z)
    ensures BirthLe(x, z)
  {
    if x.Some? && y.Some? && z.Some? {
      LexLeTrans(x.value, y.value, z.value);
    }
  }

  lemma {:induction false} InsertByBirthSpec(r: Row, sorted: seq<Row>)
    requires SortedByBirth(sorted)
    ensures SortedByBirth(InsertByBirth(r, sorted))
    ensures multiset(InsertByBirth(r, sorted)) == multiset(sorted) + multiset{r}
  {
    if sorted == [] {
    } else if BirthLe(r.person.birthDate, sorted[0].person.birthDate) {
      var out := [r] + sorted;
      forall i, j | 0 <= i < j < |out|
        ensures BirthLe(out[i].person.birthDate, out[j].person.birthDate)
      {
        if i == 0 && j > 1 {
          BirthLeTrans(r.person.birthDate, sorted[0].person.birthDate, sorted[j - 1].person.birthDate);
        }
      }
    } else {
      var head := sorted[0];
      var tail := InsertByBirth(r, sorted[1..]);
      InsertByBirthSpec(r, sorted[1..]);
      assert sorted == [head] + sorted[1..];
      BirthLeTotal(r.person.birthDate, head.person.birthDate);
      var out := [head] + tail;
      forall j | 0 <= j < |tail|
        ensures BirthLe(head.person.birthDate, tail[j].person.birthDate)
      {
        assert tail[j] in multiset(tail);
        if tail[j] != r {
          assert tail[j] in multiset(sorted[1..]);
          var k :| 0 <= k < |sorted[1..]| && sorted[1..][k] == tail[j];
          assert sorted[k + 1] == tail[j];
        }
      }
      forall i, j | 0 <= i < j < |out|
        ensures BirthLe(out[i].person.birthDate, out[j].person.birthDate)
      {
        if i > 0 {
          assert out[i] == tail[i - 1] && out[j] == tail[j - 1];
        }
      }
    }
  }

  /** The sort returns the same rows, with multiplicity, in birth-date order. */
  lemma {:induction false} SortByBirthSpec(rows: seq<Row>)
    ensures SortedByBirth(SortByBirth(rows))
    ensures multiset(SortByBirth(rows)) == multiset(rows)
  {
    if rows != [] {
      SortByBirthSpec(rows[1..]);
      InsertByBirthSpec(rows[0], SortByBirth(rows[1..]));
      assert rows == [rows[0]] + rows[1..];
    }
  }

  /** The child rows: `role = 'enfant' ORDER BY p.date_naissance`. */
  function ChildRows(s: Store, fam: FamilyId): (rows: seq<Row>)
    ensures SortedByBirth(rows)
    ensures multiset(rows) == multiset(Members(s, fam, {Enfant}, s.memberships))
  {
    var selected := Members(s, fam, {Enfant}, s.memberships);
    SortByBirthSpec(selected);
    SortByBirth(selected)
  }

  /** `date.split('T')[0]` on a string date. */
  function DatePart(s: string): (r: string)
    ensures 'T' !in r
    ensures r <= s
    ensures |r| < |s| ==> s[|r|] == 'T'
  {
    if s == [] || s[0] == 'T' then [] else [s[0]] + DatePart(s[1..])
  }

  lemma DatePartIdempotent(s: string)
    ensures DatePart(DatePart(s)) == DatePart(s)
  {
    DatePartNoT(DatePart(s));
  }

  lemma {:induction false} DatePartNoT(s: string)
    requires 'T' !in s
    ensures DatePart(s) == s
  {
    if s != [] {
      DatePartNoT(s[1..]);
    }
  }

  /** The server's `formatDate` on a string or a missing value: a falsy input
      (null or "") gives null, otherwise the text before the first 'T'. */
  function FormatDate(date: Option<string>): (r: Option<string>)
    ensures r.None? <==> date.None? || date.value == ""
    ensures r.Some? ==> 'T' !in r.value && r.value <= date.value
    ensures r.Some? && |r.value| < |date.value| ==> date.value[|r.value|] == 'T'
  {
    if date.None? || date.value == "" then None else Some(DatePart(date.value))
  }

  /** Formatting a formatted date changes nothing, unless the first pass
      produced the falsy "" (an input starting with 'T'), which a second pass
      turns into null. */
  lemma FormatDateIdempotent(date: Option<string>)
    ensures FormatDate(date) != Some("") ==> FormatDate(FormatDate(date)) == FormatDate(date)
    ensures FormatDate(date) == Some("") ==> FormatDate(FormatDate(date)) == None
  {
    if FormatDate(date).Some? {
      DatePartIdempotent(date.value);
    }
  }

  /** `gender === 'M' ? 'male' : 'female'`. */
  function GenderOf(sex: Option<string>): (g: Gender)
    ensures g == Male <==> sex == Some("M")
  {
    if sex == Some("M") then Male else Female
  }

  /** `name || ''`. */
  function OrEmpty(name: Option<string>): (r: string)
    ensures name.Some? ==> r == name.value
    ensures name.None? ==> r == ""
  {
    if name.Some? then name.value else ""
  }

  predicate Holds(m: Membership, person: PersonId, roles: set<Role>)
  {
    m.personId == person && m.role in roles
  }

  /** `SELECT pf.fk_famille ... WHERE pf.fk_personne = person AND pf.role IN roles
      LIMIT 1`, taking the first matching row in table order. */
  function FirstFamilyWith(ms: seq<Membership>, person: PersonId, roles: set<Role>): (r: Option<FamilyId>)
    ensures r.Some? <==> exists i :: 0 <= i < |ms| && Holds(ms[i], person, roles)
    ensures r.Some? ==> exists i :: 0 <= i < |ms| && Holds(ms[i], person, roles) && ms[i].familyId == r.value &&
                          forall k :: 0 <= k < i ==> !Holds(ms[k], person, roles)
  {
    if ms == [] then None
    else if Holds(ms[0], person, roles) then
      assert Holds(ms[0], person, roles) && ms[0].familyId == ms[0].familyId;
      Some(ms[0].familyId)
    else
      var r := FirstFamilyWith(ms[1..], person, roles);
      assert forall i :: 0 < i < |ms| ==> ms[i] == ms[1..][i - 1];
      assert forall i :: 0 <= i < |ms| - 1 ==> ms[1..][i] == ms[i + 1];
      r
  }

  /** `rows[0]?.otherFamilyId || null`: a missing row, or a falsy family id 0, gives null. */
  function LinkTarget(found: Option<FamilyId>): (r: Option<FamilyId>)
    ensures r.Some? <==> found.Some? && found.value != 0
    ensures r.Some? ==> r == found
  {
    if found.Some? && found.value != 0 then found else None
  }

  /** One response record, from its row, the requested family and the cross-link found. */
  function Shape(p: Person, role: Option<Role>, fam: FamilyId, found: Option<FamilyId>): PersonView
  {
    PersonView(p.id, OrEmpty(p.firstName), OrEmpty(p.lastName), GenderOf(p.sex), FormatDate(p.birthDate),
               role, fam, found.Some?, LinkTarget(found))
  }

  /** A parent, annotated with the first family in which it is a child. */
  function ParentView(s: Store, fam: FamilyId, row: Row): PersonView
  {
    Shape(row.person, Some(row.role), fam, FirstFamilyWith(s.memberships, row.person.id, {Enfant}))
  }

  /** A child, annotated with the first family in which it is a father or
      mother; the requested family itself is not excluded. */
  function ChildView(s: Store, fam: FamilyId, row: Row): PersonView
  {
    Shape(row.person, None, fam, FirstFamilyWith(s.memberships, row.person.id, {Pere, Mere}))
  }

  /** The per-person checks issued once both row queries have answered. */
  function Checks(s: Store, fam: FamilyId): set<Query>
  {
    (set r | r in ChildRows(s, fam) :: OwnFamilyCheck(r.person.id)) +
    (set r | r in ParentRows(s, fam) :: OriginFamilyCheck(r.person.id))
  }

  /** Every query issued for a family that exists. */
  function Issued(s: Store, fam: FamilyId): set<Query>
  {
    {FamilyLookup, ParentsQuery, ChildrenQuery} + Checks(s, fam)
  }

  /** The response body once every query has answered: `id` and `familyId`
      are the requested family, parents and children keep the order of their rows. */
  function Assemble(s: Store, fam: FamilyId): (v: FamilyView)
    requires fam in s.families
    ensures v.id == fam && v.name == s.families[fam]
    ensures |v.parents| == |ParentRows(s, fam)| && |v.children| == |ChildRows(s, fam)|
    ensures forall p :: p in v.parents + v.children ==> p.familyId == fam
  {
    var parents := ParentRows(s, fam);
    var children := ChildRows(s, fam);
    FamilyView(
      fam,
      s.families[fam],
      seq(|parents|, i requires 0 <= i < |parents| => ParentView(s, fam, parents[i])),
      seq(|children|, i requires 0 <= i < |children| => ChildView(s, fam, children[i])))
  }

  /** The handler.  Any failing query aborts with 500 and no partial view. */
  function Handle(db: Db, fam: FamilyId): (r: Response)
    ensures r.NotFound? <==> FamilyLookup !in db.failing && fam !in db.store.families
    ensures r.InternalError? <==>
              FamilyLookup in db.failing ||
              (fam in db.store.families && Issued(db.store, fam) * db.failing != {})
    ensures r.Found? ==> fam in db.store.families && r.view == Assemble(db.store, fam)
  {
    var s := db.store;
    if FamilyLookup in db.failing then InternalError
    else if fam !in s.families then NotFound
    else if ParentsQuery in db.failing then
      assert ParentsQuery in Issued(s, fam) * db.failing;
      InternalError
    else if ChildrenQuery in db.failing then
      assert ChildrenQuery in Issued(s, fam) * db.failing;
      InternalError
    else if Checks(s, fam) * db.failing != {} then InternalError
    else Found(Assemble(s, fam))
  }

  /** Each parent of a found view is the row in the same position, normalised,
      and is linked to another family exactly when the person is a child in some
      family; the link is the family of the first such membership, or null when
      that family id is the falsy 0. */
  lemma ParentsAnnotated(db: Db, fam: FamilyId, i: int)
    requires Handle(db, fam).Found?
    requires 0 <= i < |Handle(db, fam).view.parents|
    ensures var p, row := Handle(db, fam).view.parents[i], ParentRows(db.store, fam)[i];
      && p.id == row.person.id
      && p.role == Some(row.role) && row.role in {Pere, Mere}
      && p.familyId == fam
      && (p.gender == Male <==> row.person.sex == Some("M"))
      && p.firstName == OrEmpty(row.person.firstName) && p.lastName == OrEmpty(row.person.lastName)
      && p.birthDate == FormatDate(row.person.birthDate)
      && (p.birthDate.None? <==> row.person.birthDate.None? || row.person.birthDate == Some(""))
      && (p.hasOtherFamily <==> exists k :: 0 <= k < |db.store.memberships| && Holds(db.store.memberships[k], p.id, {Enfant}))
      && p.otherFamilyId == LinkTarget(FirstFamilyWith(db.store.memberships, p.id, {Enfant}))
      && (p.otherFamilyId.Some? ==> exists k :: 0 <= k < |db.store.memberships| &&
                                       Holds(db.store.memberships[k], p.id, {Enfant}) &&
                                       db.store.memberships[k].familyId == p.otherFamilyId.value &&
                                       forall j :: 0 <= j < k ==> !Holds(db.store.memberships[j], p.id, {Enfant}))
  {
    ParentRowsSpec(db.store, fam);
  }

  /** Each child of a found view is the row in the same position, normalised,
      and is linked to another family exactly when the person is a father or
      mother in some family (possibly the requested one); the link is the family
      of the first such membership, or null when that family id is 0. */
  lemma ChildrenAnnotated(db: Db, fam: FamilyId, i: int)
    requires Handle(db, fam).Found?
    requires 0 <= i < |Handle(db, fam).view.children|
    ensures var c, row := Handle(db, fam).view.children[i], ChildRows(db.store, fam)[i];
      && c.id == row.person.id
      && c.role.None? && c.familyId == fam
      && (c.gender == Male <==> row.person.sex == Some("M"))
      && c.firstName == OrEmpty(row.person.firstName) && c.lastName == OrEmpty(row.person.lastName)
      && c.birthDate == FormatDate(row.person.birthDate)
      && (c.birthDate.None? <==> row.person.birthDate.None? || row.person.birthDate == Some(""))
      && (c.hasOtherFamily <==> exists k :: 0 <= k < |db.store.memberships| && Holds(db.store.memberships[k], c.id, {Pere, Mere}))
      && c.otherFamilyId == LinkTarget(FirstFamilyWith(db.store.memberships, c.id, {Pere, Mere}))
      && (c.otherFamilyId.Some? ==> exists k :: 0 <= k < |db.store.memberships| &&
                                       Holds(db.store.memberships[k], c.id, {Pere, Mere}) &&
                                       db.store.memberships[k].familyId == c.otherFamilyId.value &&
                                       forall j :: 0 <= j < k ==> !Holds(db.store.memberships[j], c.id, {Pere, Mere}))
  {
  }

  /** The requested family is not excluded from a child's cross-link: when the
      first father-or-mother row of a child is in the requested family itself,
      the child links back to that family. */
  lemma ChildMayLinkToOwnFamily(db: Db, fam: FamilyId, i: int, k: int)
    requires Handle(db, fam).Found? && fam != 0
    requires 0 <= i < |Handle(db, fam).view.children|
    requires 0 <= k < |db.store.memberships|
    requires Holds(db.store.memberships[k], Handle(db, fam).view.children[i].id, {Pere, Mere})
    requires db.store.memberships[k].familyId == fam
    requires forall j :: 0 <= j < k ==> !Holds(db.store.memberships[j], Handle(db, fam).view.children[i].id, {Pere, Mere})
    ensures Handle(db, fam).view.children[i].hasOtherFamily
    ensures Handle(db, fam).view.children[i].otherFamilyId == Some(fam)
  {
    var ms := db.store.memberships;
    var c := Handle(db, fam).view.children[i];
    var found := FirstFamilyWith(ms, c.id, {Pere, Mere});
    assert found.Some?;
    var first :| 0 <= first < |ms| && Holds(ms[first], c.id, {Pere, Mere}) && ms[first].familyId == found.value &&
                 forall j :: 0 <= j < first ==> !Holds(ms[j], c.id, {Pere, Mere});
    assert first == k;
  }
}
