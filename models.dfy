/** The documents the resolvers read and write, the per-request context and
    the errors the resolvers raise. The thought and reaction fields follow the
    `Thought` and `Reaction` types of server/schemas/typeDefs.js, with `_id`
    written `id`; the other types follow the resolvers' own use of them. */
module Models {

  /** A document id (a Mongo ObjectId); users and thoughts draw from one id space. */
  type Id = nat

  datatype Option<T> = None | Some(value: T)

  /** A reaction is embedded in its thought and has no lifecycle of its own. */
  datatype Reaction = Reaction(reactionBody: string, username: string)

  /** A stored thought; `username` is the author, `createdAt` a store timestamp. */
  datatype ThoughtDoc = ThoughtDoc(
    id: Id,
    thoughtText: string,
    username: string,
    createdAt: nat,
    reactions: seq<Reaction>)

  /** A stored user; `password` holds the one-way hash, never the plain text;
      `friends` and `thoughts` hold ids of other documents. */
  datatype UserDoc = UserDoc(
    id: Id,
    username: string,
    email: string,
    password: string,
    friends: seq<Id>,
    thoughts: seq<Id>)

  /** What `select('-__v -password').populate('friends').populate('thoughts')`
      yields: the stored user without its password, its id lists replaced by
      the documents they reference. The type has no password field. */
  datatype Profile = Profile(
    id: Id,
    username: string,
    email: string,
    friends: seq<UserDoc>,
    thoughts: seq<ThoughtDoc>)

  /** What `findOneAndUpdate(...).populate('friends')` yields in addFriend:
      the whole stored user (no projection) with its friends populated. */
  datatype FriendsPopulated = FriendsPopulated(
    id: Id,
    username: string,
    email: string,
    password: string,
    friends: seq<UserDoc>,
    thoughts: seq<Id>)

  /** The arguments of addThought. `username` is whatever the client sends
      beside the text; the resolver's spread copies it and then overrides it. */
  datatype ThoughtArgs = ThoughtArgs(thoughtText: string, username: Option<string>)

  /** `{ token, user }`, the payload of addUser and login. */
  datatype Auth = Auth(token: string, user: UserDoc)

  /** `context.user`: absent, or the identity decoded from a verified token. */
  datatype Context = Anonymous | Authenticated(id: Id, username: string, email: string)

  datatype Error =
    | AuthenticationError(message: string)
    | DuplicateKey(field: string)

  datatype Result<T> = Ok(value: T) | Err(error: Error)

  const NotLoggedIn: string := "Not logged in"
  const MustBeLoggedIn: string := "You need to be logged in!"
  const IncorrectCredentials: string := "Incorrect credentials"

  /** No two users share an id (Mongo's `_id` index). */
  predicate UniqueUserIds(us: seq<UserDoc>)
  {
    forall i, j :: 0 <= i < j < |us| ==> us[i].id != us[j].id
  }

  /** No two thoughts share an id. */
  predicate UniqueThoughtIds(ts: seq<ThoughtDoc>)
  {
    forall i, j :: 0 <= i < j < |ts| ==> ts[i].id != ts[j].id
  }

  /** No value occurs twice: the shape `$addToSet` keeps a `friends` list in. */
  predicate NoDuplicates<T(==)>(s: seq<T>)
  {
    forall i, j :: 0 <= i < j < |s| ==> s[i] != s[j]
  }
}
