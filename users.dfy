/** The display names of the custom user model: its name, or a fallback on its email. */
module Users {
  import opened PyOps

  datatype User = User(name: string, email: string)

  /** `User.__str__`: the name when it is non-empty, otherwise the email. */
  function UserStr(u: User): (r: string)
    ensures u.name != "" ==> r == u.name
    ensures u.name == "" ==> r == u.email
  {
    if u.name != "" then u.name else u.email
  }

  /** `get_full_name`: the same fallback, written out again in the source. */
  function GetFullName(u: User): string {
    if u.name != "" then u.name else u.email
  }

  /** The full name is the string form, for every user. */
  lemma FullNameIsStr(u: User)
    ensures GetFullName(u) == UserStr(u)
  {
  }

  /** `get_short_name`: the name, or the part of the email before its first '@'. */
  function GetShortName(u: User): (r: string)
    ensures u.name != "" ==> r == u.name
    ensures u.name == "" ==> '@' !in r && |r| <= |u.email| && r == u.email[..|r|]
    ensures u.name == "" && |r| < |u.email| ==> u.email[|r|] == '@'
  {
    if u.name != "" then u.name else PrefixBefore(u.email, '@')
  }

  /** The short name is a prefix of the string form: equal with a name, cut at the first '@' without one. */
  lemma ShortNamePrefixOfStr(u: User)
    ensures var s := GetShortName(u); |s| <= |UserStr(u)| && s == UserStr(u)[..|s|]
  {
  }
}
