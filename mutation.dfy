/** The write resolvers (`Mutation.addUser`, `addThought`, `addReaction`,
    `addFriend`) as methods of the document store they update in place.
    Each atomic update the resolvers issue is first stated as a function of
    the collection it rewrites; the methods are tied to those functions. */
module Mutation {
  import opened Models
  import opened Mongo
  import Query

  /** `User.findByIdAndUpdate({ _id: uid }, { $push: { thoughts: tid } })`:
      the first user with id `uid` gets `tid` at the end of its thoughts;
      every other user is left as it was. */
  function PushThoughtRef(us: seq<UserDoc>, uid: Id, tid: Id): (r: seq<UserDoc>)
    ensures |r| == |us|
    ensures forall i :: 0 <= i < |us| && us[i].id != uid ==> r[i] == us[i]
    ensures forall i :: 0 <= i < |us| && us[i].id == uid && (forall j :: 0 <= j < i ==> us[j].id != uid) ==>
              r[i] == us[i].(thoughts := us[i].thoughts + [tid])
    ensures forall i, j :: 0 <= j < i < |us| && us[j].id == uid ==> r[i] == us[i]
  {
    match UserIndex(us, uid)
    case None => us
    case Some(k) => us[k := us[k].(thoughts := us[k].thoughts + [tid])]
  }

  /** `Thought.findOneAndUpdate({ _id }, { $push: { reactions: reaction } })`:
      the first thought with that id gets `reaction` at the end of its
      reactions; every other thought is left as it was. */
  function PushReaction(ts: seq<ThoughtDoc>, id: Id, reaction: Reaction): (r: seq<ThoughtDoc>)
    ensures |r| == |ts|
    ensures forall i :: 0 <= i < |ts| && ts[i].id != id ==> r[i] == ts[i]
    ensures forall i :: 0 <= i < |ts| && ts[i].id == id && (forall j :: 0 <= j < i ==> ts[j].id != id) ==>
              r[i] == ts[i].(reactions := ts[i].reactions + [reaction])
    ensures forall i, j :: 0 <= j < i < |ts| && ts[j].id == id ==> r[i] == ts[i]
  {
    match ThoughtIndex(ts, id)
    case None => ts
    case Some(k) => ts[k := ts[k].(reactions := ts[k].reactions + [reaction])]
  }

  /** `User.findOneAndUpdate({ _id: uid }, { $addToSet: { friends: friendId } })`:
      only the first user with id `uid` may change, and only in its friends;
      the user `friendId` names is not touched unless it is that same user. */
  function AddFriendRef(us: seq<UserDoc>, uid: Id, friendId: Id): (r: seq<UserDoc>)
    ensures |r| == |us|
    ensures forall i :: 0 <= i < |us| && us[i].id != uid ==> r[i] == us[i]
    ensures forall i :: 0 <= i < |us| && us[i].id == uid && (forall j :: 0 <= j < i ==> us[j].id != uid) ==>
              r[i] == us[i].(friends := AddToSet(us[i].friends, friendId))
    ensures forall i, j :: 0 <= j < i < |us| && us[j].id == uid ==> r[i] == us[i]
  {
    match UserIndex(us, uid)
    case None => us
    case Some(k) => us[k := us[k].(friends := AddToSet(us[k].friends, friendId))]
  }

  /** Adding the same friend twice leaves the users as adding it once. */
  lemma AddFriendIdempotent(us: seq<UserDoc>, uid: Id, friendId: Id)
    ensures AddFriendRef(AddFriendRef(us, uid, friendId), uid, friendId) == AddFriendRef(us, uid, friendId)
  {
  }

  /** The acting user lists `friendId` after `addFriend`, and exactly once
      when its friends had no duplicates before. */
  lemma AddFriendListsFriendOnce(us: seq<UserDoc>, uid: Id, friendId: Id, i: nat)
    requires UniqueUserIds(us)
    requires i < |us| && us[i].id == uid
    ensures friendId in AddFriendRef(us, uid, friendId)[i].friends
    ensures NoDuplicates(us[i].friends) ==> multiset(AddFriendRef(us, uid, friendId)[i].friends)[friendId] == 1
  {
    assert forall j :: 0 <= j < i ==> us[j].id != uid;
    if NoDuplicates(us[i].friends) {
      AddToSetKeepsNoDuplicates(us[i].friends, friendId);
    }
  }

  /** A thought created after every stored one heads the `thoughts` feed, both
      unfiltered and filtered by its author. */
  lemma {:induction false} NewestHeadsFeed(ts: seq<ThoughtDoc>, t: ThoughtDoc, username: Option<string>)
    requires forall x :: x in ts ==> x.createdAt < t.createdAt
    requires username.None? || username.value == "" || username.value == t.username
    ensures var feed := Query.Thoughts(ts + [t], username); |feed| > 0 && feed[0] == t
  {
    var feed := Query.Thoughts(ts + [t], username);
    assert multiset(ts + [t])[t] > 0;
    assert t in feed by {
      assert multiset(feed)[t] > 0;
    }
    forall x | x in feed && x != t
      ensures x.createdAt < t.createdAt
    {
      assert x in multiset(ts + [t]);
    }
    NewestIsFirst(feed, t);
  }

  /** Every id in a user's thoughts names a stored thought. */
  predicate ThoughtRefsResolve(us: seq<UserDoc>, ts: seq<ThoughtDoc>)
  {
    forall u, id :: u in us && id in u.thoughts ==> exists t :: t in ts && t.id == id
  }

  /** What the store keeps true between requests: ids are unique and below
      `nextId`; timestamps are below `clock`; usernames and emails are unique;
      no friends list repeats an id; every thought reference resolves. */
  predicate StoreInvariant(us: seq<UserDoc>, ts: seq<ThoughtDoc>, nextId: Id, clock: nat)
  {
    && UniqueUserIds(us)
    && UniqueThoughtIds(ts)
    && (forall u :: u in us ==> u.id < nextId)
    && (forall t :: t in ts ==> t.id < nextId && t.createdAt < clock)
    && (forall i, j :: 0 <= i < j < |us| ==> us[i].username != us[j].username && us[i].email != us[j].email)
    && (forall u :: u in us ==> NoDuplicates(u.friends))
    && ThoughtRefsResolve(us, ts)
  }

  /** `addUser` with a fresh username and email keeps the invariant. */
  lemma AddUserKeepsInvariant(
    us: seq<UserDoc>, ts: seq<ThoughtDoc>, nextId: Id, clock: nat,
    username: string, email: string, hash: string)
    requires StoreInvariant(us, ts, nextId, clock)
    requires forall u :: u in us ==> u.username != username && u.email != email
    ensures StoreInvariant(us + [UserDoc(nextId, username, email, hash, [], [])], ts, nextId + 1, clock)
  {
  }

  /** `addThought` keeps the invariant: the new thought takes the next id and
      the current clock, and its id is pushed onto the author's thoughts. */
  lemma AddThoughtKeepsInvariant(
    us: seq<UserDoc>, ts: seq<ThoughtDoc>, nextId: Id, clock: nat,
    uid: Id, thoughtText: string, username: string)
    requires StoreInvariant(us, ts, nextId, clock)
    ensures var t := ThoughtDoc(nextId, thoughtText, username, clock, []);
            StoreInvariant(PushThoughtRef(us, uid, t.id), ts + [t], nextId + 1, clock + 1)
  {
  }

  /** `addReaction` keeps the invariant: it changes only a thought's reactions. */
  lemma AddReactionKeepsInvariant(
    us: seq<UserDoc>, ts: seq<ThoughtDoc>, nextId: Id, clock: nat, id: Id, reaction: Reaction)
    requires StoreInvariant(us, ts, nextId, clock)
    ensures StoreInvariant(us, PushReaction(ts, id, reaction), nextId, clock)
  {
  }

  /** `addFriend` keeps the invariant: it changes only one friends list, and
      `$addToSet` keeps that list free of duplicates. */
  lemma AddFriendKeepsInvariant(
    us: seq<UserDoc>, ts: seq<ThoughtDoc>, nextId: Id, clock: nat, uid: Id, friendId: Id)
    requires StoreInvariant(us, ts, nextId, clock)
    ensures StoreInvariant(AddFriendRef(us, uid, friendId), ts, nextId, clock)
  {
    var r := AddFriendRef(us, uid, friendId);
    forall i | 0 <= i < |r|
      ensures r[i] == us[i] || r[i] == us[i].(friends := AddToSet(us[i].friends, friendId))
    {
      assert forall j :: 0 <= j < i ==> us[j].id != us[i].id;
    }
    forall u | u in r ensures u.id < nextId && NoDuplicates(u.friends) {
      var i :| 0 <= i < |r| && r[i] == u;
      assert us[i] in us;
      AddToSetKeepsNoDuplicates(us[i].friends, friendId);
    }
    forall u, tid | u in r && tid in u.thoughts ensures exists x :: x in ts && x.id == tid {
      var i :| 0 <= i < |r| && r[i] == u;
      assert us[i] in us;
    }
  }

  /** The document store: the users and thoughts collections, the next fresh
      id, and the clock that stamps `createdAt`. */
  class Store {
    var users: seq<UserDoc>
    var thoughts: seq<ThoughtDoc>
    var nextId: Id
    var clock: nat

    /** The store invariant, over the current collections. */
    ghost predicate Valid()
      reads this
    {
      StoreInvariant(users, thoughts, nextId, clock)
    }

    constructor ()
      ensures Valid()
      ensures users == [] && thoughts == []
    {
      users := [];
      thoughts := [];
      nextId := 0;
      clock := 0;
    }

    /** `addUser`: ungated. Appends a new user with no friends and no thoughts,
        its password stored as `hashPassword` of the plain text, and returns
        it with a token; a username or email already taken is refused. */
    method AddUser(
      username: string, email: string, password: string,
      hashPassword: string -> string, signToken: UserDoc -> string) returns (r: Result<Auth>)
      requires Valid()
      modifies this
      ensures Valid()
      ensures (exists u :: u in old(users) && u.username == username) ==>
                r == Err(DuplicateKey("username")) && unchanged(this)
      ensures (forall u :: u in old(users) ==> u.username != username) &&
              (exists u :: u in old(users) && u.email == email) ==>
                r == Err(DuplicateKey("email")) && unchanged(this)
      ensures (forall u :: u in old(users) ==> u.username != username && u.email != email) ==>
                && r.Ok?
                && r.value.user == UserDoc(old(nextId), username, email, hashPassword(password), [], [])
                && r.value.token == signToken(r.value.user)
                && users == old(users) + [r.value.user]
                && thoughts == old(thoughts) && nextId == old(nextId) + 1 && clock == old(clock)
    {
      if FindFirst(users, (u: UserDoc) => u.username == username).Some? {
        return Err(DuplicateKey("username"));
      }
      if FindFirst(users, (u: UserDoc) => u.email == email).Some? {
        return Err(DuplicateKey("email"));
      }
      var user := UserDoc(nextId, username, email, hashPassword(password), [], []);
      AddUserKeepsInvariant(users, thoughts, nextId, clock, username, email, user.password);
      users := users + [user];
      nextId := nextId + 1;
      r := Ok(Auth(signToken(user), user));
    }

    /** `addThought`: gated. Creates a thought whose author is the caller, not
        any username the arguments carry, stamps it with the clock, and pushes
        its id onto the caller's thoughts. An anonymous caller is refused and
        nothing changes. */
    method AddThought(ctx: Context, args: ThoughtArgs) returns (r: Result<ThoughtDoc>)
      requires Valid()
      modifies this
      ensures Valid()
      ensures ctx.Anonymous? ==> r == Err(AuthenticationError(MustBeLoggedIn)) && unchanged(this)
      ensures ctx.Authenticated? ==>
                && r.Ok?
                && r.value == ThoughtDoc(old(nextId), args.thoughtText, ctx.username, old(clock), [])
                && thoughts == old(thoughts) + [r.value]
                && users == PushThoughtRef(old(users), ctx.id, r.value.id)
                && nextId == old(nextId) + 1 && clock == old(clock) + 1
      ensures ctx.Authenticated? ==> forall t :: t in old(thoughts) ==> t.createdAt < r.value.createdAt
    {
      if ctx.Anonymous? {
        return Err(AuthenticationError(MustBeLoggedIn));
      }
      var thought := ThoughtDoc(nextId, args.thoughtText, ctx.username, clock, []);
      AddThoughtKeepsInvariant(users, thoughts, nextId, clock, ctx.id, args.thoughtText, ctx.username);
      thoughts := thoughts + [thought];
      nextId := nextId + 1;
      clock := clock + 1;
      users := PushThoughtRef(users, ctx.id, thought.id);
      r := Ok(thought);
    }

    /** `addReaction`: gated. Appends one reaction by the caller to the thought
        with `thoughtId` and returns the updated thought, or null (and no
        change) when no thought has that id. An anonymous caller is refused
        and nothing changes. */
    method AddReaction(ctx: Context, thoughtId: Id, reactionBody: string) returns (r: Result<Option<ThoughtDoc>>)
      requires Valid()
      modifies this
      ensures Valid()
      ensures ctx.Anonymous? ==> r == Err(AuthenticationError(MustBeLoggedIn)) && unchanged(this)
      ensures ctx.Authenticated? ==>
                && r.Ok?
                && thoughts == PushReaction(old(thoughts), thoughtId, Reaction(reactionBody, ctx.username))
                && users == old(users) && nextId == old(nextId) && clock == old(clock)
      ensures ctx.Authenticated? ==>
                (r.value.None? <==> forall t :: t in old(thoughts) ==> t.id != thoughtId)
      ensures ctx.Authenticated? && r.value.None? ==> unchanged(this)
      ensures ctx.Authenticated? && r.value.Some? ==>
                && r.value.value in thoughts
                && exists t :: t in old(thoughts) && t.id == thoughtId &&
                               r.value.value == t.(reactions := t.reactions + [Reaction(reactionBody, ctx.username)])
    {
      if ctx.Anonymous? {
        return Err(AuthenticationError(MustBeLoggedIn));
      }
      var reaction := Reaction(reactionBody, ctx.username);
      AddReactionKeepsInvariant(users, thoughts, nextId, clock, thoughtId, reaction);
      match ThoughtIndex(thoughts, thoughtId)
      case None =>
        r := Ok(None);
      case Some(k) =>
        var updated := thoughts[k].(reactions := thoughts[k].reactions + [reaction]);
        thoughts := thoughts[k := updated];
        r := Ok(Some(updated));
    }

    /** `addFriend`: gated. Adds `friendId` to the caller's friends unless it
        is already there, and returns the caller's whole document with its
        friends populated, or null (and no change) when no user has the
        caller's id. Only the caller's own list changes. An anonymous caller
        is refused and nothing changes. */
    method AddFriend(ctx: Context, friendId: Id) returns (r: Result<Option<FriendsPopulated>>)
      requires Valid()
      modifies this
      ensures Valid()
      ensures ctx.Anonymous? ==> r == Err(AuthenticationError(MustBeLoggedIn)) && unchanged(this)
      ensures ctx.Authenticated? ==>
                && r.Ok?
                && users == AddFriendRef(old(users), ctx.id, friendId)
                && thoughts == old(thoughts) && nextId == old(nextId) && clock == old(clock)
      ensures ctx.Authenticated? ==>
                (r.value.None? <==> forall u :: u in old(users) ==> u.id != ctx.id)
      ensures ctx.Authenticated? && r.value.None? ==> unchanged(this)
      ensures ctx.Authenticated? && r.value.Some? ==>
                exists u :: u in old(users) && u.id == ctx.id &&
                  var friends := AddToSet(u.friends, friendId);
                  r.value.value == FriendsPopulated(
                    u.id, u.username, u.email, u.password,
                    PopulateUsers(friends, users), u.thoughts)
    {
      if ctx.Anonymous? {
        return Err(AuthenticationError(MustBeLoggedIn));
      }
      match UserIndex(users, ctx.id)
      case None =>
        r := Ok(None);
      case Some(k) =>
        var updated := users[k].(friends := AddToSet(users[k].friends, friendId));
        AddFriendKeepsInvariant(users, thoughts, nextId, clock, ctx.id, friendId);
        users := users[k := updated];
        r := Ok(Some(FriendsPopulated(
          updated.id, updated.username, updated.email, updated.password,
          PopulateUsers(updated.friends, users), updated.thoughts)));
    }
  }
}
