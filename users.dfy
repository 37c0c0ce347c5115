/** The user record (`User`): its field constraints, the fields its equality looks at, and the
    rule that a user without a name is named after the login. */
module Users {
  import opened Wrappers
  import opened Dates
  import opened Text

  /** A user; `id` is `None` until the storage assigns one and `name` may be null. Friends are
      kept by id. The e-mail, login and birthday are non-null by construction here. */
  datatype User = User(
    id: Option<int>,
    name: Option<string>,
    email: string,
    login: string,
    birthday: Date,
    friends: set<int>)

  /** The bean-validation constraints on a user, `today` being the clock's date: the login
      matches `\A\S+\Z` and the birthday is not in the future (the e-mail format is left out). */
  predicate ValidUser(u: User, today: Date)
    ensures ValidUser(u, today) ==> u.login != [] && ' ' !in u.login && !Before(today, u.birthday)
  {
    MatchesNonSpaceRun(u.login) && !After(u.birthday, today)
  }

  /** The user cases of the controller tests, on a clock between 1946 and 2555: the sample user
      is valid, a login with a space ("Login Loginovich") is rejected, and so is a birthday
      in 2555. */
  lemma ValidUserExamples(u: User, today: Date)
    requires u.login == "Login" && u.birthday == Date(1946, 8, 20)
    requires 1946 < today.year < 2555
    ensures ValidUser(u, today)
    ensures !ValidUser(u.(login := "Login Loginovich"), today)
    ensures !ValidUser(u.(birthday := Date(2555, 8, 20)), today)
  {
    assert "Login Loginovich"[5] == ' ';
  }

  /** Lombok's `equals`: every field except `friends`. */
  predicate SameUser(a: User, b: User) {
    a.id == b.id && a.name == b.name && a.email == b.email && a.login == b.login && a.birthday == b.birthday
  }

  /** Changing the friends leaves a user equal to itself. */
  lemma SameUserIgnoresFriends(u: User, friends: set<int>)
    ensures SameUser(u, u.(friends := friends))
  {
  }

  /** The name is null, empty or blank (an empty string is blank). */
  predicate NameMissing(name: Option<string>) {
    name.None? || IsBlank(name.value)
  }

  /** `checkPresenceUserName`: a missing name is replaced by the login; nothing else changes. */
  function CheckPresenceUserName(u: User): (r: User)
    ensures r == u.(name := r.name)
    ensures NameMissing(u.name) ==> r.name == Some(u.login)
    ensures !NameMissing(u.name) ==> r == u
  {
    if NameMissing(u.name) then u.(name := Some(u.login)) else u
  }

  /** Defaulting the name twice is defaulting it once. */
  lemma CheckPresenceUserNameIdempotent(u: User)
    ensures CheckPresenceUserName(CheckPresenceUserName(u)) == CheckPresenceUserName(u)
  {
  }

  /** After defaulting, the name is present whenever the login is not blank; a valid login need
      not be enough, because `\S` admits characters that `isBlank` counts as white space. */
  lemma DefaultedNameIsPresent(u: User)
    requires !IsBlank(u.login)
    ensures !NameMissing(CheckPresenceUserName(u).name)
  {
  }

  /** A user created without a name is named after the login; one created with a name keeps it. */
  lemma NameDefaultExamples(u: User)
    requires u.login == "Login"
    ensures CheckPresenceUserName(u.(name := None)).name == Some("Login")
    ensures CheckPresenceUserName(u.(name := Some(""))).name == Some("Login")
    ensures CheckPresenceUserName(u.(name := Some("Name"))).name == Some("Name")
  {
    assert !IsBlank("Name") by { assert !IsJavaWhitespace("Name"[0]); }
  }
}
