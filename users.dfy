/** The UserInfo model and the registration it backs. */
module Users {
  import opened JsValues

  /** A stored user account. */
  datatype UserInfo = UserInfo(
    userId: string,
    email: string,
    displayName: string,
    photoURL: string,
    createdAt: int)

  /** The fields a registration request body carries; `email` is taken as supplied. */
  datatype Registration = Registration(
    uid: Option<string>,
    email: string,
    displayName: Option<string>,
    photoURL: Option<string>)

  const DefaultDisplayName := "Unknown User"
  const DefaultPhotoURL := "https://randomuser.me/api/portraits/men/1.jpg"

  /** The validators of the user schema: userId and email are required strings. */
  predicate UserConforms(u: UserInfo) {
    u.userId != "" && u.email != ""
  }

  /** No two accounts share an email, as the unique index on `email` demands. */
  predicate EmailsUnique(users: seq<UserInfo>) {
    forall i, j :: 0 <= i < j < |users| ==> users[i].email != users[j].email
  }

  /** `UserInfo.findOne({ email })`: the account registered with that email, if any. */
  function FindByEmail(users: seq<UserInfo>, email: string): (r: Option<UserInfo>)
    ensures r.None? <==> forall u :: u in users ==> u.email != email
    ensures r.Some? ==> r.value in users && r.value.email == email
  {
    if users == [] then None
    else if users[0].email == email then Some(users[0])
    else FindByEmail(users[1..], email)
  }

  /** The account `new UserInfo({...})` builds: a falsy uid is replaced by the generated id,
      a falsy displayName and photoURL by their defaults, and createdAt is the current time. */
  function NewUser(reg: Registration, generatedId: string, now: int): (u: UserInfo)
    ensures u.email == reg.email && u.createdAt == now
    ensures u.userId == (if Truthy(reg.uid) then reg.uid.value else generatedId)
    ensures u.displayName == (if Truthy(reg.displayName) then reg.displayName.value else DefaultDisplayName)
    ensures u.photoURL == (if Truthy(reg.photoURL) then reg.photoURL.value else DefaultPhotoURL)
    ensures u.displayName != "" && u.photoURL != ""
  {
    UserInfo(
      userId := OrElse(reg.uid, generatedId),
      email := reg.email,
      displayName := OrElse(reg.displayName, DefaultDisplayName),
      photoURL := OrElse(reg.photoURL, DefaultPhotoURL),
      createdAt := now)
  }

  /** Appending an account whose email is not yet registered keeps emails unique. */
  lemma AppendKeepsEmailsUnique(users: seq<UserInfo>, u: UserInfo)
    requires EmailsUnique(users)
    requires FindByEmail(users, u.email).None?
    ensures EmailsUnique(users + [u])
  {
  }
}
