/** The few document-store operators the resolvers use, as functions over a
    collection held in store order: `findOne` (first match), `find` with an
    equality filter, `sort({ createdAt: -1 })`, `populate` and `$addToSet`.
    `$push` is sequence append and needs no definition of its own. */
module Mongo {
  import opened Models

  /** `findOne`: the index of the first document that satisfies the filter. */
  function FindFirst<T>(s: seq<T>, p: T -> bool): (r: Option<nat>)
    ensures r.Some? ==> r.value < |s| && p(s[r.value])
    ensures r.Some? ==> forall j :: 0 <= j < r.value ==> !p(s[j])
    ensures r.None? <==> forall j :: 0 <= j < |s| ==> !p(s[j])
    decreases |s|
  {
    if |s| == 0 then None
    else if p(s[0]) then Some(0)
    else match FindFirst(s[1..], p)
      case None => None
      case Some(k) => Some(k + 1)
  }

  /** `find(filter)`: the documents that satisfy the filter, each as often as it is stored. */
  function Filter<T(!new)>(s: seq<T>, p: T -> bool): (r: seq<T>)
    ensures |r| <= |s|
    ensures forall x :: multiset(r)[x] == if p(x) then multiset(s)[x] else 0
    decreases |s|
  {
    if |s| == 0 then []
    else
      assert s == [s[0]] + s[1..];
      if p(s[0]) then [s[0]] + Filter(s[1..], p) else Filter(s[1..], p)
  }

  /** Newest first: `createdAt` never increases along the sequence. */
  predicate NewestFirst(ts: seq<ThoughtDoc>)
  {
    forall i, j :: 0 <= i < j < |ts| ==> ts[i].createdAt >= ts[j].createdAt
  }

  /** Places `t` into a newest-first sequence, ahead of every thought that is not newer. */
  function InsertNewestFirst(t: ThoughtDoc, ts: seq<ThoughtDoc>): (r: seq<ThoughtDoc>)
    requires NewestFirst(ts)
    ensures NewestFirst(r)
    ensures multiset(r) == multiset(ts) + multiset{t}
    ensures r[0] == t || (|ts| > 0 && r[0] == ts[0])
    decreases |ts|
  {
    if |ts| == 0 || t.createdAt >= ts[0].createdAt then [t] + ts
    else
      var rest := InsertNewestFirst(t, ts[1..]);
      assert ts == [ts[0]] + ts[1..];
      assert ts[0].createdAt >= rest[0].createdAt;
      [ts[0]] + rest
  }

  /** A thought strictly newer than every other one in a newest-first sequence heads it. */
  lemma NewestIsFirst(feed: seq<ThoughtDoc>, t: ThoughtDoc)
    requires NewestFirst(feed) && t in feed
    requires forall x :: x in feed && x != t ==> x.createdAt < t.createdAt
    ensures feed[0] == t
  {
  }

  /** `sort({ createdAt: -1 })`: the same thoughts, newest first. */
  function SortNewestFirst(ts: seq<ThoughtDoc>): (r: seq<ThoughtDoc>)
    ensures NewestFirst(r)
    ensures multiset(r) == multiset(ts)
    decreases |ts|
  {
    if |ts| == 0 then []
    else
      assert ts == [ts[0]] + ts[1..];
      InsertNewestFirst(ts[0], SortNewestFirst(ts[1..]))
  }

  /** The ids that name some document, in their order, each as often as listed:
      the ids `populate` can resolve. */
  ghost function Resolved<T(!new)>(ids: seq<Id>, docs: seq<T>, idOf: T -> Id): seq<Id>
    decreases |ids|
  {
    if |ids| == 0 then []
    else if Names(docs, idOf, ids[0]) then [ids[0]] + Resolved(ids[1..], docs, idOf)
    else Resolved(ids[1..], docs, idOf)
  }

  /** Some document carries this id. */
  ghost predicate Names<T>(docs: seq<T>, idOf: T -> Id, id: Id)
  {
    exists d :: d in docs && idOf(d) == id
  }

  /** Every id names some document. */
  ghost predicate AllResolve<T>(ids: seq<Id>, docs: seq<T>, idOf: T -> Id)
  {
    forall id :: id in ids ==> Names(docs, idOf, id)
  }

  /** The position of the first document carrying `id`. */
  function FirstCarrying<T>(docs: seq<T>, idOf: T -> Id, id: Id): (r: Option<nat>)
    ensures r.Some? ==> r.value < |docs| && idOf(docs[r.value]) == id
    ensures r.Some? ==> forall j :: 0 <= j < r.value ==> idOf(docs[j]) != id
    ensures r.None? <==> forall j :: 0 <= j < |docs| ==> idOf(docs[j]) != id
  {
    FindFirst(docs, (d: T) => idOf(d) == id)
  }

  /** `x` is stored, and no document stored before it carries its id. */
  ghost predicate FirstCarrier<T>(docs: seq<T>, idOf: T -> Id, x: T)
  {
    exists k :: 0 <= k < |docs| && docs[k] == x && forall j :: 0 <= j < k ==> idOf(docs[j]) != idOf(x)
  }

  /** `populate(path)`: each id replaced by the first document carrying it, in
      the order of the ids; an id that matches no document is dropped. */
  function Populate<T(!new)>(ids: seq<Id>, docs: seq<T>, idOf: T -> Id): (r: seq<T>)
    ensures |r| == |Resolved(ids, docs, idOf)|
    ensures forall i :: 0 <= i < |r| ==> idOf(r[i]) == Resolved(ids, docs, idOf)[i]
    ensures forall i :: 0 <= i < |r| ==> FirstCarrier(docs, idOf, r[i])
    ensures forall x :: x in r ==> x in docs && idOf(x) in ids
    ensures AllResolve(ids, docs, idOf) ==>
              |r| == |ids| && forall i :: 0 <= i < |r| ==> idOf(r[i]) == ids[i]
    decreases |ids|
  {
    ResolvedFromIds(ids, docs, idOf);
    var r := if |ids| == 0 then [] else
      var rest := Populate(ids[1..], docs, idOf);
      match FirstCarrying(docs, idOf, ids[0])
      case None =>
        assert !Names(docs, idOf, ids[0]);
        rest
      case Some(k) =>
        assert FirstCarrier(docs, idOf, docs[k]);
        assert forall i :: 0 < i < |rest| + 1 ==> ([docs[k]] + rest)[i] == rest[i - 1];
        [docs[k]] + rest;
    assert forall x :: x in r ==> x in docs && idOf(x) in ids by {
      forall x | x in r
        ensures x in docs && idOf(x) in ids
      {
        var i :| 0 <= i < |r| && r[i] == x;
        assert FirstCarrier(docs, idOf, x);
      }
    }
    r
  }

  /** The resolved ids are drawn from the ids, and are all of them when every id resolves. */
  lemma {:induction false} ResolvedFromIds<T(!new)>(ids: seq<Id>, docs: seq<T>, idOf: T -> Id)
    ensures forall i :: 0 <= i < |Resolved(ids, docs, idOf)| ==> Resolved(ids, docs, idOf)[i] in ids
    ensures AllResolve(ids, docs, idOf) ==> Resolved(ids, docs, idOf) == ids
    decreases |ids|
  {
    if |ids| > 0 {
      ResolvedFromIds(ids[1..], docs, idOf);
      assert forall id :: id in ids[1..] ==> id in ids;
      assert ids == [ids[0]] + ids[1..];
      var rs := Resolved(ids, docs, idOf);
      forall i | 0 <= i < |rs|
        ensures rs[i] in ids
      {
        if Names(docs, idOf, ids[0]) && i > 0 {
          assert rs[i] == Resolved(ids[1..], docs, idOf)[i - 1];
        }
      }
      if AllResolve(ids, docs, idOf) {
        assert ids[0] in ids;
      }
    }
  }

  /** The id of a user document. */
  function UserId(u: UserDoc): Id
  {
    u.id
  }

  /** The id of a thought document. */
  function ThoughtId(t: ThoughtDoc): Id
  {
    t.id
  }

  /** `populate('friends')`: ids resolved against the users collection. */
  function PopulateUsers(ids: seq<Id>, us: seq<UserDoc>): seq<UserDoc>
  {
    Populate(ids, us, UserId)
  }

  /** `populate('thoughts')`: ids resolved against the thoughts collection. */
  function PopulateThoughts(ids: seq<Id>, ts: seq<ThoughtDoc>): seq<ThoughtDoc>
  {
    Populate(ids, ts, ThoughtId)
  }

  /** `findOne({ _id })` on the users collection: the position of the first user with this id. */
  function UserIndex(us: seq<UserDoc>, id: Id): (r: Option<nat>)
    ensures r.Some? ==> r.value < |us| && us[r.value].id == id
    ensures r.Some? ==> forall j :: 0 <= j < r.value ==> us[j].id != id
    ensures r.None? <==> forall j :: 0 <= j < |us| ==> us[j].id != id
  {
    FirstCarrying(us, UserId, id)
  }

  /** `findOne({ _id })` on the thoughts collection: the position of the first thought with this id. */
  function ThoughtIndex(ts: seq<ThoughtDoc>, id: Id): (r: Option<nat>)
    ensures r.Some? ==> r.value < |ts| && ts[r.value].id == id
    ensures r.Some? ==> forall j :: 0 <= j < r.value ==> ts[j].id != id
    ensures r.None? <==> forall j :: 0 <= j < |ts| ==> ts[j].id != id
  {
    FirstCarrying(ts, ThoughtId, id)
  }

  /** `$addToSet`: appends `x` unless it is already present. */
  function AddToSet<T(==)>(s: seq<T>, x: T): (r: seq<T>)
    ensures |r| == if x in s then |s| else |s| + 1
    ensures r[..|s|] == s
    ensures x in r
  {
    if x in s then s else s + [x]
  }

  /** Adding the same value twice leaves the set as adding it once. */
  lemma AddToSetIdempotent<T>(s: seq<T>, x: T)
    ensures AddToSet(AddToSet(s, x), x) == AddToSet(s, x)
  {
  }

  /** A duplicate-free list stays duplicate-free, and then holds `x` exactly once. */
  lemma AddToSetKeepsNoDuplicates<T>(s: seq<T>, x: T)
    requires NoDuplicates(s)
    ensures NoDuplicates(AddToSet(s, x))
    ensures multiset(AddToSet(s, x))[x] == 1
  {
    if x in s {
      OccursOnce(s, x);
    }
  }

  /** In a duplicate-free list, a present value is counted once. */
  lemma {:induction false} OccursOnce<T>(s: seq<T>, x: T)
    requires NoDuplicates(s)
    requires x in s
    ensures multiset(s)[x] == 1
    decreases |s|
  {
    assert s == [s[0]] + s[1..];
    if s[0] == x {
      assert x !in s[1..] by {
        forall j | 0 <= j < |s[1..]| ensures s[1..][j] != x {
          assert s[1..][j] == s[j + 1];
        }
      }
    } else {
      OccursOnce(s[1..], x);
    }
  }
}
