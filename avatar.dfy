/** The initials shown in a user's avatar when there is no picture. */
module Avatar {
  import opened Wrappers
  import opened Text

  /** The name fields of the signed-in user, each possibly absent. */
  datatype Person = Person(firstName: Option<string>, lastName: Option<string>)

  /** The field's value when present and non-empty (JavaScript truthiness). */
  predicate Given(name: Option<string>) {
    name.Some? && name.value != ""
  }

  /** `getAvatarFallback`: both initials, or the first-name initial, upper-cased;
      `U` when there is no user or no first name. */
  function AvatarFallback(user: Option<Person>): (r: string)
    ensures |r| == 1 || |r| == 2
  {
    if user.Some? && Given(user.value.firstName) && Given(user.value.lastName) then
      Upper([user.value.firstName.value[0], user.value.lastName.value[0]])
    else if user.Some? && Given(user.value.firstName) then
      Upper([user.value.firstName.value[0]])
    else "U"
  }

  /** With both names the result is the two upper-cased initials, first name first. */
  lemma BothInitials(first: string, last: string)
    requires first != "" && last != ""
    ensures AvatarFallback(Some(Person(Some(first), Some(last)))) == [UpperChar(first[0]), UpperChar(last[0])]
  {
  }

  /** With a first name only (the last one absent or empty), one initial. */
  lemma FirstInitialOnly(first: string, last: Option<string>)
    requires first != "" && !Given(last)
    ensures AvatarFallback(Some(Person(Some(first), last))) == [UpperChar(first[0])]
  {
  }

  /** Without a user or a non-empty first name the result is `U`, whatever the last name. */
  lemma DefaultInitial(user: Option<Person>)
    requires user.None? || !Given(user.value.firstName)
    ensures AvatarFallback(user) == "U"
  {
  }

  /** Only the first character of each name matters. */
  lemma OnlyFirstCharacters(a: Person, b: Person)
    requires Given(a.firstName) == Given(b.firstName) && Given(a.lastName) == Given(b.lastName)
    requires Given(a.firstName) ==> a.firstName.value[0] == b.firstName.value[0]
    requires Given(a.lastName) ==> a.lastName.value[0] == b.lastName.value[0]
    ensures AvatarFallback(Some(a)) == AvatarFallback(Some(b))
  {
  }

  /** The initials are upper case: no ASCII lower-case letter survives. */
  lemma InitialsUpperCase(user: Option<Person>)
    ensures forall i :: 0 <= i < |AvatarFallback(user)| ==> !('a' <= AvatarFallback(user)[i] <= 'z')
  {
  }
}
