/** The signed-in account as the authentication provider reports it, and
    the user record the pages store on the server. */
module Users {
  import opened JsValues

  /** The authentication user: its profile members (absent or "" when not
      set) and the `providerId` of each `providerData` entry. */
  datatype AuthUser = AuthUser(
    displayName: Option<string>,
    email: Option<string>,
    photoURL: Option<string>,
    providerIds: seq<Option<string>>)

  /** The user record sent to `POST /users`. */
  datatype UserRecord = UserRecord(
    name: string,
    email: string,
    photo: string,
    bio: string,
    authProvider: string,
    createdAt: string)
}
