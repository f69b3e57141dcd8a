/** The read resolvers (`Query.thoughts`, `thought`, `users`, `user`, `me`) and
    `login`, which only reads the store. Each is a function of a snapshot of
    the two collections, held in store order. */
module Query {
  import opened Models
  import opened Mongo

  /** `thoughts(username)`: the thoughts written by `username`, or every thought
      when the argument is absent or the empty string (the resolver's
      `username ? { username } : {}` treats "" as no filter), newest first. */
  function Thoughts(ts: seq<ThoughtDoc>, username: Option<string>): (r: seq<ThoughtDoc>)
    ensures NewestFirst(r)
    ensures username.None? || username.value == "" ==> multiset(r) == multiset(ts)
    ensures username.Some? && username.value != "" ==>
              forall t :: multiset(r)[t] == if t.username == username.value then multiset(ts)[t] else 0
  {
    var params := if username.Some? && username.value != "" then username else None;
    var found := match params
      case None => ts
      case Some(name) => Filter(ts, (t: ThoughtDoc) => t.username == name);
    SortNewestFirst(found)
  }

  /** With a non-empty username, `thoughts` lists exactly that author's stored thoughts. */
  lemma ThoughtsByAuthor(ts: seq<ThoughtDoc>, name: string, t: ThoughtDoc)
    requires name != ""
    ensures t in Thoughts(ts, Some(name)) <==> t in ts && t.username == name
  {
  }

  /** `thought(_id)`: the stored thought with that id, or null. */
  function Thought(ts: seq<ThoughtDoc>, id: Id): (r: Option<ThoughtDoc>)
    ensures r.Some? ==> r.value in ts && r.value.id == id
    ensures r.None? <==> forall t :: t in ts ==> t.id != id
  {
    match ThoughtIndex(ts, id)
    case None => None
    case Some(k) => Some(ts[k])
  }

  /** A stored user as the queries return it: without its password, its
      friends and thoughts populated from the two collections, one document
      per id that resolves, in the order of the user's lists. */
  function ProfileOf(u: UserDoc, us: seq<UserDoc>, ts: seq<ThoughtDoc>): (p: Profile)
    ensures p.id == u.id && p.username == u.username && p.email == u.email
    ensures forall f :: f in p.friends ==> f in us && f.id in u.friends
    ensures forall t :: t in p.thoughts ==> t in ts && t.id in u.thoughts
    ensures forall i :: 0 <= i < |p.friends| ==> FirstCarrier(us, UserId, p.friends[i])
    ensures forall i :: 0 <= i < |p.thoughts| ==> FirstCarrier(ts, ThoughtId, p.thoughts[i])
    ensures |p.friends| == |Resolved(u.friends, us, UserId)|
    ensures forall i :: 0 <= i < |p.friends| ==> p.friends[i].id == Resolved(u.friends, us, UserId)[i]
    ensures |p.thoughts| == |Resolved(u.thoughts, ts, ThoughtId)|
    ensures forall i :: 0 <= i < |p.thoughts| ==> p.thoughts[i].id == Resolved(u.thoughts, ts, ThoughtId)[i]
    ensures (forall id :: id in u.friends ==> exists f :: f in us && f.id == id) ==>
              |p.friends| == |u.friends| &&
              forall i :: 0 <= i < |u.friends| ==> p.friends[i].id == u.friends[i]
    ensures (forall id :: id in u.thoughts ==> exists t :: t in ts && t.id == id) ==>
              |p.thoughts| == |u.thoughts| &&
              forall i :: 0 <= i < |u.thoughts| ==> p.thoughts[i].id == u.thoughts[i]
  {
    Profile(
      u.id, u.username, u.email,
      PopulateUsers(u.friends, us),
      PopulateThoughts(u.thoughts, ts))
  }

  /** `users`: every stored user, in store order, as its profile. */
  function Users(us: seq<UserDoc>, ts: seq<ThoughtDoc>): (r: seq<Profile>)
    ensures |r| == |us|
    ensures forall i :: 0 <= i < |us| ==> r[i] == ProfileOf(us[i], us, ts)
  {
    seq(|us|, i requires 0 <= i < |us| => ProfileOf(us[i], us, ts))
  }

  /** `user(username)`: the profile of the first user with that username, or null. */
  function User(us: seq<UserDoc>, ts: seq<ThoughtDoc>, username: string): (r: Option<Profile>)
    ensures r.None? <==> forall u :: u in us ==> u.username != username
    ensures r.Some? ==> exists i :: 0 <= i < |us| && us[i].username == username &&
                                   (forall j :: 0 <= j < i ==> us[j].username != username) &&
                                   r.value == ProfileOf(us[i], us, ts)
  {
    match FindFirst(us, (u: UserDoc) => u.username == username)
    case None => None
    case Some(k) => Some(ProfileOf(us[k], us, ts))
  }

  /** `me`: the caller's own profile; an anonymous caller is refused with
      'Not logged in'. A caller whose id matches no stored user gets null. */
  function Me(us: seq<UserDoc>, ts: seq<ThoughtDoc>, ctx: Context): (r: Result<Option<Profile>>)
    ensures ctx.Anonymous? <==> r.Err?
    ensures r.Err? ==> r.error == AuthenticationError(NotLoggedIn)
    ensures r.Ok? ==> (r.value.None? <==> forall u :: u in us ==> u.id != ctx.id)
    ensures r.Ok? && r.value.Some? ==>
              exists i :: 0 <= i < |us| && us[i].id == ctx.id &&
                          (forall j :: 0 <= j < i ==> us[j].id != ctx.id) &&
                          r.value.value == ProfileOf(us[i], us, ts)
  {
    match ctx
    case Anonymous => Err(AuthenticationError(NotLoggedIn))
    case Authenticated(id, _, _) =>
      match UserIndex(us, id)
      case None => Ok(None)
      case Some(k) => Ok(Some(ProfileOf(us[k], us, ts)))
  }

  /** `login(email, password)`: succeeds exactly when the first user with that
      email accepts the password, and then returns a token for that user; an
      unknown email and a wrong password fail with the same message.
      `isCorrectPassword(plain, hash)` stands for the password-hash comparison
      and `signToken` for token issuance. */
  function Login(
    us: seq<UserDoc>, email: string, password: string,
    isCorrectPassword: (string, string) -> bool, signToken: UserDoc -> string): (r: Result<Auth>)
    ensures r.Err? ==> r.error == AuthenticationError(IncorrectCredentials)
    ensures r.Ok? <==> exists i :: 0 <= i < |us| && us[i].email == email &&
                                   (forall j :: 0 <= j < i ==> us[j].email != email) &&
                                   isCorrectPassword(password, us[i].password)
    ensures r.Ok? ==> r.value.user in us && r.value.user.email == email &&
                      isCorrectPassword(password, r.value.user.password) &&
                      r.value.token == signToken(r.value.user)
    ensures r.Ok? ==> exists i :: 0 <= i < |us| && us[i].email == email &&
                                 (forall j :: 0 <= j < i ==> us[j].email != email) &&
                                 r.value.user == us[i] && r.value.token == signToken(us[i])
  {
    match FindFirst(us, (u: UserDoc) => u.email == email)
    case None => Err(AuthenticationError(IncorrectCredentials))
    case Some(k) =>
      var user := us[k];
      if !isCorrectPassword(password, user.password) then Err(AuthenticationError(IncorrectCredentials))
      else Ok(Auth(signToken(user), user))
  }

  /** An unknown email and a known email with a wrong password give the caller
      the same failure, so a failed login does not reveal which check failed. */
  lemma LoginFailuresAlike(
    us: seq<UserDoc>, unknown: string, known: string, password: string,
    isCorrectPassword: (string, string) -> bool, signToken: UserDoc -> string)
    requires forall u :: u in us ==> u.email != unknown
    requires exists u :: u in us && u.email == known
    requires forall u :: u in us && u.email == known ==> !isCorrectPassword(password, u.password)
    ensures Login(us, unknown, password, isCorrectPassword, signToken)
         == Login(us, known, password, isCorrectPassword, signToken)
         == Err(AuthenticationError(IncorrectCredentials))
  {
  }
}
