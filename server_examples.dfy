/** A worked example of the family handler: a small store in which family 1
    has a father, a mother and three children, one of whom is the father of
    family 4. */
module ServerExamples {
  import opened Wire
  import Server

  function ExampleStore(): Server.Store
  {
    Server.Store(
      map[1 := "Famille Un", 4 := "Famille Quatre"],
      map[1 := Server.Person(1, Some("A"), Some("Paul"), Some("M"), Some("1970-02-03")),
          2 := Server.Person(2, Some("A"), Some("Marie"), Some("F"), None),
          5 := Server.Person(5, Some("A"), Some("Luc"), Some("M"), Some("2001-01-01")),
          6 := Server.Person(6, Some("A"), Some("Anne"), Some("F"), None),
          7 := Server.Person(7, Some("A"), Some("Jean"), Some("M"), Some("1999-05-05T00:00:00"))],
      [Server.Membership(1, 1, Pere), Server.Membership(2, 1, Mere),
       Server.Membership(5, 1, Enfant), Server.Membership(6, 1, Enfant), Server.Membership(7, 1, Enfant),
       Server.Membership(7, 4, Pere)])
  }

  /** The rows each role selects for family 1, in table order. */
  lemma ExampleSelectsMere()
    ensures var s := ExampleStore();
      Server.Members(s, 1, {Mere}, s.memberships) == [Server.Row(s.persons[2], Mere)]
  {
  }

  lemma ExampleSelectsPere()
    ensures var s := ExampleStore();
      Server.Members(s, 1, {Pere}, s.memberships) == [Server.Row(s.persons[1], Pere)]
  {
  }

  lemma ExampleSelectsEnfant()
    ensures var s := ExampleStore();
      Server.Members(s, 1, {Enfant}, s.memberships) == [Server.Row(s.persons[5], Enfant), Server.Row(s.persons[6], Enfant), Server.Row(s.persons[7], Enfant)]
  {
  }

  /** The parent rows of family 1: the mother, then the father. */
  lemma ExampleParentRows()
    ensures var s := ExampleStore();
      Server.ParentRows(s, 1) == [Server.Row(s.persons[2], Mere), Server.Row(s.persons[1], Pere)]
  {
  }

  /** Sorting the three children of family 1 by birth date: person 7 (1999)
      before person 5 (2001), and the undated person 6 last. */
  lemma ExampleSort(r5: Server.Row, r6: Server.Row, r7: Server.Row)
    requires r5.person.birthDate == Some("2001-01-01")
    requires r6.person.birthDate.None?
    requires r7.person.birthDate == Some("1999-05-05T00:00:00")
    ensures Server.SortByBirth([r5, r6, r7]) == [r7, r5, r6]
  {
    assert Server.SortByBirth([r7]) == [r7];
    assert Server.InsertByBirth(r6, [r7]) == [r7, r6];
    assert [r6, r7][1..] == [r7];
    assert Server.SortByBirth([r6, r7]) == [r7, r6];
    assert Server.LexLe("1999-05-05T00:00:00", "2001-01-01");
    assert Server.InsertByBirth(r5, [r6]) == [r5, r6];
    assert Server.InsertByBirth(r5, [r7, r6]) == [r7, r5, r6];
    assert [r5, r6, r7][1..] == [r6, r7];
  }

  /** The child rows of family 1, in birth-date order. */
  lemma ExampleChildRows()
    ensures var s := ExampleStore();
      Server.ChildRows(s, 1) ==
        [Server.Row(s.persons[7], Enfant), Server.Row(s.persons[5], Enfant), Server.Row(s.persons[6], Enfant)]
  {
    var s := ExampleStore();
    ExampleSelectsEnfant();
    ExampleSort(Server.Row(s.persons[5], Enfant), Server.Row(s.persons[6], Enfant), Server.Row(s.persons[7], Enfant));
  }

  lemma ExampleLinks()
    ensures var ms := ExampleStore().memberships;
      && Server.FirstFamilyWith(ms, 7, {Pere, Mere}) == Some(4)
      && Server.FirstFamilyWith(ms, 5, {Pere, Mere}) == None
  {
    var ms := ExampleStore().memberships;
    assert Server.Holds(ms[5], 7, {Pere, Mere});
    assert forall k :: 0 <= k < |ms| ==> !Server.Holds(ms[k], 5, {Pere, Mere});
  }

  lemma ExampleFound()
    ensures Server.Handle(Server.Db(ExampleStore(), {}), 1) == Server.Found(Server.Assemble(ExampleStore(), 1))
    ensures Server.Handle(Server.Db(ExampleStore(), {}), 4).Found?
  {
  }

  /** Family 1 of the example store: the mother is listed before the father;
      person 7, born first, leads the children and is linked to family 4,
      where it is a father; the undated person 6 comes last. */
  lemma ExampleView()
    ensures var v := Server.Assemble(ExampleStore(), 1);
      && |v.parents| == 2 && v.parents[0].role == Some(Mere) && v.parents[1].role == Some(Pere)
      && |v.children| == 3
      && v.children[0].id == 7 && v.children[0].hasOtherFamily && v.children[0].otherFamilyId == Some(4)
      && v.children[1].id == 5 && !v.children[1].hasOtherFamily
      && v.children[2].id == 6 && v.children[2].birthDate.None?
  {
    var s := ExampleStore();
    ExampleParentRows();
    ExampleChildRows();
    ExampleLinks();
    AssembledView(s, s.persons[2], s.persons[1], s.persons[7], s.persons[5], s.persons[6]);
  }

  /** The view assembled for family 1 of any store with these rows and links. */
  lemma AssembledView(s: Server.Store, mother: Server.Person, father: Server.Person,
                      c0: Server.Person, c1: Server.Person, c2: Server.Person)
    requires 1 in s.families
    requires Server.ParentRows(s, 1) == [Server.Row(mother, Mere), Server.Row(father, Pere)]
    requires Server.ChildRows(s, 1) == [Server.Row(c0, Enfant), Server.Row(c1, Enfant), Server.Row(c2, Enfant)]
    requires c0.id == 7 && c1.id == 5 && c2.id == 6 && c2.birthDate.None?
    requires Server.FirstFamilyWith(s.memberships, 7, {Pere, Mere}) == Some(4)
    requires Server.FirstFamilyWith(s.memberships, 5, {Pere, Mere}) == None
    ensures var v := Server.Assemble(s, 1);
      && |v.parents| == 2 && v.parents[0].role == Some(Mere) && v.parents[1].role == Some(Pere)
      && |v.children| == 3
      && v.children[0].id == 7 && v.children[0].hasOtherFamily && v.children[0].otherFamilyId == Some(4)
      && v.children[1].id == 5 && !v.children[1].hasOtherFamily
      && v.children[2].id == 6 && v.children[2].birthDate.None?
  {
  }
}
