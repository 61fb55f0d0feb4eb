/** The JSON contract between the family-tree server and its browser client:
    the family view that `GET /api/families/:id` returns and the client renders. */
module Wire {

  datatype Option<+T> = None | Some(value: T)

  /** Primary keys of the `famille` and `personne` tables. */
  type FamilyId = int
  type PersonId = int

  /** The `role` column of `personne_famille`: father, mother or child. */
  datatype Role = Pere | Mere | Enfant

  /** The role as the store spells it; the server's ORDER BY compares these strings. */
  function RoleName(r: Role): string
  {
    match r
    case Pere => "pere"
    case Mere => "mere"
    case Enfant => "enfant"
  }

  /** The normalised `gender` field of the response ("male" or "female"). */
  datatype Gender = Male | Female

  /** One person record of the response: a parent carries a role, a child does not. */
  datatype PersonView = PersonView(
    id: PersonId,
    firstName: string,
    lastName: string,
    gender: Gender,
    birthDate: Option<string>,
    role: Option<Role>,
    familyId: FamilyId,
    hasOtherFamily: bool,
    otherFamilyId: Option<FamilyId>)

  /** The body of a successful family response. */
  datatype FamilyView = FamilyView(
    id: FamilyId,
    name: string,
    parents: seq<PersonView>,
    children: seq<PersonView>)
}
