# Deep Thoughts resolvers in Dafny

A model of the GraphQL resolver layer of Deep Thoughts, a small social-posting
API (users, thoughts, reactions, friends). It covers `server/schemas/resolvers.js`:

- the read resolvers `thoughts`, `thought`, `users`, `user` and `me`, and `login`;
  each is a pure function of a snapshot of the two collections (module `Query`);
- the write resolvers `addUser`, `addThought`, `addReaction` and `addFriend`;
  each is a method of a `Store` class whose `users` and `thoughts` sequences it
  updates in place (module `Mutation`);
- the document-store operators those resolvers rely on: `findOne` (first match
  in store order), `find` with an equality filter, `sort({ createdAt: -1 })`,
  `populate`, `$push` and `$addToSet` (module `Mongo`);
- the documents, the request context `Anonymous | Authenticated(id, username, email)`
  and the errors, with the exact messages `'Not logged in'`,
  `'You need to be logged in!'` and `'Incorrect credentials'` (module `Models`).

Each gated resolver tests the context first. An anonymous caller gets an
`AuthenticationError` and the store is `unchanged`. An authenticated caller's
request runs as one step. The store keeps an invariant, `Mutation.StoreInvariant`,
and every mutation preserves it:
- ids are unique and fresh;
- timestamps are below the store clock;
- usernames and emails are unique;
- no friends list repeats an id;
- every id in a user's `thoughts` names a stored thought.

The user projections (`Profile`) have no password field at all. The
`select('-__v -password')` of `users`, `user` and `me` therefore holds by
construction.

Collaborators outside this file become parameters:
- `isCorrectPassword(plain, hash)`, the password check of the User model;
- `hashPassword`, the model's pre-save hash;
- `signToken`, token issuance in `server/utils/auth`, which is not part of this model.

The model follows the resolver code:
- `addReaction` on an unknown `thoughtId` returns null and changes nothing. It
  does not fail with a not-found error.
- `addThought` copies the client's arguments and then overrides `username` with
  the caller's. The model keeps that argument (`ThoughtArgs.username`) to show it
  is ignored.
- `addUser`, `login` and `addFriend` return the stored document with no password
  projection, so these resolvers return the password hash. The same holds for
  the friends that `populate` fills in. What a client sees of it is outside
  this model.
- `thoughts("")` returns every thought, because the empty string is falsy in
  `username ? { username } : {}`.

## Model

| member | source | states |
|---|---|---|
| Mongo.FindFirst | server/schemas/resolvers.js:19-21 | `findOne`: the index returned is the first whose document matches; none is returned exactly when no document matches |
| Mongo.Filter | server/schemas/resolvers.js:13-17 | `find(params)`: every document that matches occurs in the result as often as it is stored, and no other document does |
| Mongo.InsertNewestFirst | server/schemas/resolvers.js:17 | inserting into a newest-first list keeps it newest-first and adds exactly that one thought |
| Mongo.NewestIsFirst | server/schemas/resolvers.js:17 | in a newest-first list, a thought strictly newer than every other one is at the head |
| Mongo.SortNewestFirst | server/schemas/resolvers.js:17 | `sort({ createdAt: -1 })`: the result is a permutation of the input with `createdAt` non-increasing |
| Mongo.FirstCarrying | server/schemas/resolvers.js:28-29 | the lookup `populate` makes per id: the position of the first document carrying the id, or none exactly when no document carries it |
| Mongo.Populate | server/schemas/resolvers.js:27-29 | `populate`: exactly one document per id that resolves, in the ids' order, each the first stored document carrying that id; unresolved ids are dropped; when every id resolves, one document per id |
| Mongo.ResolvedFromIds | server/schemas/resolvers.js:27-29 | the ids `populate` keeps are drawn from the list, and are the whole list when every id resolves |
| Mongo.AddToSet | server/schemas/resolvers.js:111 | `$addToSet`: the old list is kept as a prefix, the value is present afterwards, and it is appended only if it was absent |
| Mongo.AddToSetIdempotent | server/schemas/resolvers.js:111 | applying `$addToSet` twice with one value equals applying it once |
| Mongo.AddToSetKeepsNoDuplicates | server/schemas/resolvers.js:111 | a duplicate-free list stays duplicate-free and then holds the value exactly once |
| Mongo.OccursOnce | server/schemas/resolvers.js:111 | in a duplicate-free list a present value has multiplicity one |
| Mongo.UserIndex | server/schemas/resolvers.js:83-85 | the index of the first user with the id, or none exactly when no user has it |
| Mongo.ThoughtIndex | server/schemas/resolvers.js:96-97 | the index of the first thought with the id, or none exactly when no thought has it |
| Query.Thoughts | server/schemas/resolvers.js:10-18 | `thoughts`: newest first; with a non-empty username exactly the stored thoughts of that author with their multiplicities; with none or "" every stored thought |
| Query.ThoughtsByAuthor | server/schemas/resolvers.js:13-17 | a thought is listed for a non-empty username if and only if it is stored and has that author |
| Query.Thought | server/schemas/resolvers.js:19-21 | `thought(_id)`: a stored thought with that id, or null exactly when none has it |
| Query.ProfileOf | server/schemas/resolvers.js:33-36 | the projection keeps id, username and email; its friends and its thoughts are, each list exactly, one stored document per referenced id that resolves, in the user's order, each the first document with that id; when every id resolves, one per id |
| Query.Users | server/schemas/resolvers.js:23-30 | `users`: one profile per stored user, in store order |
| Query.User | server/schemas/resolvers.js:32-37 | `user(username)`: the profile of the first user with that username, or null exactly when none has it |
| Query.Me | server/schemas/resolvers.js:38-48 | `me`: fails with 'Not logged in' exactly when anonymous; otherwise the profile of the first user whose id is the caller's, or null when none has it |
| Query.Login | server/schemas/resolvers.js:62-78 | `login`: succeeds if and only if the first user with the email accepts the password; then returns exactly that first user and `signToken` of it; every failure is 'Incorrect credentials' |
| Query.LoginFailuresAlike | server/schemas/resolvers.js:65-74 | an unknown email and a wrong password for a known email produce the identical error |
| Mutation.PushThoughtRef | server/schemas/resolvers.js:83-87 | `$push` of a thought id: the first user with the id gets it at the end of its `thoughts`, earlier entries kept; every other user is unchanged |
| Mutation.PushReaction | server/schemas/resolvers.js:96-100 | `$push` of a reaction: the first thought with the id gets it at the end of its `reactions`, earlier ones kept; every other thought is unchanged |
| Mutation.AddFriendRef | server/schemas/resolvers.js:109-113 | `$addToSet` on friends: only the first user with the caller's id changes, only in `friends`; the friend's own document is untouched (the edge is one-sided) |
| Mutation.AddFriendIdempotent | server/schemas/resolvers.js:109-113 | adding the same friend twice leaves the users collection as adding it once |
| Mutation.AddFriendListsFriendOnce | server/schemas/resolvers.js:109-113 | after `addFriend` the caller lists the friend, exactly once when its list had no duplicates |
| Mutation.NewestHeadsFeed | server/schemas/resolvers.js:17 | a thought newer than every stored one heads `thoughts`, unfiltered and filtered by its author |
| Mutation.AddUserKeepsInvariant | server/schemas/resolvers.js:54-59 | appending a user with a fresh id, username and email and empty lists preserves the store invariant |
| Mutation.AddThoughtKeepsInvariant | server/schemas/resolvers.js:79-89 | creating a thought with the next id and the clock and pushing its id preserves the store invariant |
| Mutation.AddReactionKeepsInvariant | server/schemas/resolvers.js:94-102 | pushing a reaction preserves the store invariant |
| Mutation.AddFriendKeepsInvariant | server/schemas/resolvers.js:107-115 | adding a friend preserves the store invariant, including duplicate-free friends lists |
| Mutation.Store.AddUser | server/schemas/resolvers.js:54-59 | appends `{username, email, hash(password), [], []}` under a fresh id and returns it with `signToken` of it; a taken username or email fails and changes nothing |
| Mutation.Store.AddThought | server/schemas/resolvers.js:79-93 | anonymous: 'You need to be logged in!' and nothing changes; otherwise appends a thought whose author is the caller whatever the arguments say, newer than every stored one, and pushes its id onto the caller's thoughts |
| Mutation.Store.AddReaction | server/schemas/resolvers.js:94-106 | anonymous: 'You need to be logged in!' and nothing changes; unknown thought: null and nothing changes; otherwise appends `{reactionBody, caller's username}` and returns the updated thought |
| Mutation.Store.AddFriend | server/schemas/resolvers.js:107-119 | anonymous: 'You need to be logged in!' and nothing changes; unknown caller: null and nothing changes; otherwise `$addToSet` on the caller only, returning the caller's document with friends populated |

## Left out

- Token signing and verification (`signToken`, the bearer-header context builder) live in `server/utils/auth`, which is not part of this model. `signToken` is a parameter, and the context arrives already decoded.
- Password hashing and `isCorrectPassword` belong to the User model (`server/models`, not part of this model). They are the parameters `hashPassword` and `isCorrectPassword`.
- The schema rules of `server/models` are not modelled: field validation, `runValidators`, the thought text length, the email format and id casting. Uniqueness of username and email is modelled as a `DuplicateKey` failure that checks username before email. The real check is the store's unique index, whose order of reporting is unknown.
- Mutation.Store.AddUser: stores only `username`, `email` and `password` of the arguments that `User.create(args)` receives whole.
- Mutation.Store.AddThought: `ThoughtArgs` holds only `thoughtText` and a client `username`. The `...args` spread of `Thought.create` would also pass a client-supplied `createdAt` or `_id` into the stored thought. The model cannot express that, so its promise that the new thought is newer than every stored one, with a fresh id, holds only for clients that send neither.
- Reactions carry only `reactionBody` and `username`. Their schema-assigned `_id` and `createdAt` and the `reactionCount` virtual are not modelled.
- Timestamps are a store clock (a natural number that grows by one per thought), not wall-clock dates. The order that `sort` gives to thoughts with equal timestamps is left open by the store. The model keeps store order for them.
- `__v` is not modelled.
- `populate` drops ids that match no document, which is the library's default, and takes the first document with an id (ids are unique in a valid store). Populated friends are the whole stored documents, because the projection applies only to the top-level user.
- `async`/`await` and Apollo request plumbing are not modelled. Each resolver runs as one sequential step against the store.
- The React client (`client/src/App.js`, `client/src/pages/Home.js`) and the schema declaration (`server/schemas/typeDefs.js`) have no logic to model.
