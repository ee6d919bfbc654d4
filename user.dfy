/** The user entity with its completeness test and its password-free projection. */
module UserEntity {

  import opened Common

  datatype User = User(
    id: Option<nat>,
    email: Option<string>,
    password: Option<string>,
    name: Option<string>,
    createdAt: Option<int>,
    updatedAt: Option<int>)
  {
    /** `isValid()`: e-mail, password and name are all truthy. */
    predicate IsValid() {
      TruthyStr(email) && TruthyStr(password) && TruthyStr(name)
    }

    /** `toJSON()`: every field but the password. */
    function ToJson(): (j: UserJson)
      ensures j.id == id && j.email == email && j.name == name
      ensures j.createdAt == createdAt && j.updatedAt == updatedAt
    {
      UserJson(id, email, name, createdAt, updatedAt)
    }
  }

  /** The serialised form of a user; it has no password field. */
  datatype UserJson = UserJson(
    id: Option<nat>,
    email: Option<string>,
    name: Option<string>,
    createdAt: Option<int>,
    updatedAt: Option<int>)

  /** The projection reveals nothing about the password: users that differ only in it serialise alike. */
  lemma ToJsonIgnoresPassword(u: User, p: Option<string>)
    ensures u.(password := p).ToJson() == u.ToJson()
  {
  }

  /** The projection is injective on everything but the password. */
  lemma ToJsonInjective(u: User, v: User)
    requires u.ToJson() == v.ToJson()
    ensures u == v.(password := u.password)
  {
  }

  /** Validity asks for non-empty e-mail, password and name, whatever the other fields are. */
  lemma IsValidMeaning(u: User)
    ensures u.IsValid() <==>
              u.email.Some? && |u.email.value| > 0 && u.password.Some? && |u.password.value| > 0
              && u.name.Some? && |u.name.value| > 0
  {
  }
}
