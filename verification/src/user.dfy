/** The guest record; only its identifier derivation matters to booking. */
module User {

  /** The generated `userId` is a persistence detail and is left out. */
  datatype User = User(firstName: string, lastName: string, email: string) {

    /** `getIdentifier`: the last name and the e-mail joined by `_`. */
    function Identifier(): (r: string)
      ensures |r| == |lastName| + 1 + |email|
      ensures r[..|lastName|] == lastName
      ensures r[|lastName|] == '_'
      ensures r[|lastName| + 1..] == email
    {
      lastName + "_" + email
    }
  }

  /** The first name plays no part in the identifier. */
  lemma IdentifierIgnoresFirstName(u: User, otherFirstName: string)
    ensures u.(firstName := otherFirstName).Identifier() == u.Identifier()
  {
  }

  /** When last names hold no `_` (as every valid name does), the
      identifier determines both the last name and the e-mail. */
  lemma IdentifierDeterminesNameAndEmail(u: User, v: User)
    requires '_' !in u.lastName && '_' !in v.lastName
    requires u.Identifier() == v.Identifier()
    ensures u.lastName == v.lastName && u.email == v.email
  {
    var id := u.Identifier();
    assert id[..|u.lastName|] == u.lastName && id[..|v.lastName|] == v.lastName;
  }
}
