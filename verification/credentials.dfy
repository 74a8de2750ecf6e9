/** The user record and the five AsyncStorage keys the authentication code reads and writes
    (`user`, `accessToken`, `refreshToken`, `accessTokenExpires`, `refreshTokenExpires`). */
module Credentials {
  import opened Wrappers

  datatype Category = Category(id: string, name: string, description: Option<string>)

  /** The user profile; the store keeps it serialised, here it is kept as the record itself. */
  datatype User = User(
    id: string,
    name: string,
    email: string,
    userType: Option<string>,
    lawyerId: Option<string>,
    preferredCategories: Option<seq<Category>>)

  /** A `Partial<User>`: the fields that are present override those of the current user. */
  datatype UserPatch = UserPatch(
    id: Option<string>,
    name: Option<string>,
    email: Option<string>,
    userType: Option<string>,
    lawyerId: Option<string>,
    preferredCategories: Option<seq<Category>>)

  function Override<T>(current: T, patch: Option<T>): T {
    if patch.Some? then patch.value else current
  }

  function OverrideOptional<T>(current: Option<T>, patch: Option<T>): Option<T> {
    if patch.Some? then patch else current
  }

  /** `{ ...user, ...patch }`. */
  function Merge(u: User, p: UserPatch): User {
    User(
      Override(u.id, p.id),
      Override(u.name, p.name),
      Override(u.email, p.email),
      OverrideOptional(u.userType, p.userType),
      OverrideOptional(u.lawyerId, p.lawyerId),
      OverrideOptional(u.preferredCategories, p.preferredCategories))
  }

  /** The token pair the server issues, expiries as milliseconds since the epoch. */
  datatype TokenSet = TokenSet(
    accessToken: string,
    refreshToken: string,
    accessTokenExpires: int,
    refreshTokenExpires: int)

  /** The five authentication keys of AsyncStorage; None is a key that is absent. */
  datatype Store = Store(
    user: Option<User>,
    accessToken: Option<string>,
    refreshToken: Option<string>,
    accessTokenExpires: Option<int>,
    refreshTokenExpires: Option<int>)

  /** The store after `multiRemove` of all five authentication keys. */
  const Cleared := Store(None, None, None, None, None)

  /** A stored string that is present and not empty, as JavaScript's truthiness reads it. */
  predicate Present(s: Option<string>) {
    s.Some? && s.value != ""
  }

  /** `multiSet` of the four token keys. */
  function WithTokens(s: Store, t: TokenSet): Store {
    s.(accessToken := Some(t.accessToken),
       refreshToken := Some(t.refreshToken),
       accessTokenExpires := Some(t.accessTokenExpires),
       refreshTokenExpires := Some(t.refreshTokenExpires))
  }

  /** The AsyncStorage instance both the API client and the session controller use. */
  class Storage {
    var items: Store

    constructor (initial: Store)
      ensures items == initial
    {
      items := initial;
    }
  }
}
