/** The reactions endpoint (src/app/api/reactions/route.ts). GET lists a
    post's reactions and the caller's own; POST toggles the caller's reaction on
    a post: it adds one, removes it when the same type is sent again, or changes
    its type in place. The JSON file the handlers load and save is the
    `reactions` field of a ReactionStore. */
module ReactionsRoute {
  import opened Common

  /** A stored reaction; `kind` is the record's `type`, stored as received. */
  datatype Reaction = Reaction(id: string, kind: string, postId: string, userId: string, createdAt: string)

  predicate SamePair(r: Reaction, postId: string, userId: string) {
    r.postId == postId && r.userId == userId
  }

  /** The `findIndex` callback of POST. */
  function OfPair(postId: string, userId: string): Reaction -> bool {
    r => SamePair(r, postId, userId)
  }

  function NotOfPair(postId: string, userId: string): Reaction -> bool {
    r => !SamePair(r, postId, userId)
  }

  /** The store's intended invariant: at most one reaction per (postId, userId). */
  predicate UniquePairs(rs: seq<Reaction>) {
    forall i, j :: 0 <= i < j < |rs| ==> !SamePair(rs[j], rs[i].postId, rs[i].userId)
  }

  /** The type of the first reaction of `userId` on `postId`, if there is one. */
  function KindOf(rs: seq<Reaction>, postId: string, userId: string): Option<string> {
    match First(rs, OfPair(postId, userId))
    case None => None
    case Some(r) => Some(r.kind)
  }

  // ---------------------------------------------------------------------
  // GET

  datatype ReactionView = ReactionView(reactions: seq<Reaction>, userReaction: Option<Reaction>)

  function OnPost(postId: string): Reaction -> bool {
    (r: Reaction) => r.postId == postId
  }

  function ByUser(userId: string): Reaction -> bool {
    (r: Reaction) => r.userId == userId
  }

  /** GET /api/reactions?postId=..., with the `x-user-id` header as `userId`. */
  function Get(stored: seq<Reaction>, postId: Option<string>, userId: Option<string>): (r: Reply<ReactionView>)
    ensures r.Fail? <==> !Truthy(postId)
    ensures r.Fail? ==> r == Fail(400, "Post ID is required")
    ensures r.Ok? ==> r.status == 200
    ensures r.Ok? ==> forall x :: x in r.data.reactions <==> x in stored && x.postId == postId.value
    ensures r.Ok? && !Truthy(userId) ==> r.data.userReaction == None
    ensures r.Ok? && Truthy(userId) && r.data.userReaction.Some? ==>
      var u := r.data.userReaction.value;
      u in stored && SamePair(u, postId.value, userId.value)
    ensures r.Ok? && Truthy(userId) && r.data.userReaction.None? ==>
      forall x :: x in stored ==> !SamePair(x, postId.value, userId.value)
  {
    if !Truthy(postId) then Fail(400, "Post ID is required")
    else
      var postReactions := Filter(stored, OnPost(postId.value));
      FilterMembers(stored, OnPost(postId.value));
      var userReaction := if Truthy(userId) then First(postReactions, ByUser(userId.value)) else None;
      Ok(200, ReactionView(postReactions, userReaction))
  }

  /** GET lists reactions in store order: the listing of a concatenation is
      the concatenation of the listings. */
  lemma GetKeepsStoreOrder(a: seq<Reaction>, b: seq<Reaction>, postId: string, userId: Option<string>)
    requires postId != ""
    ensures Get(a + b, Some(postId), userId).data.reactions
         == Get(a, Some(postId), userId).data.reactions + Get(b, Some(postId), userId).data.reactions
  {
    FilterAppend(a, b, OnPost(postId));
  }

  /** A single stored record is listed once when it is on the post and not at
      all otherwise; with GetKeepsStoreOrder this fixes the listing of any
      store, each matching record once, in store order. */
  lemma GetOne(x: Reaction, postId: string, userId: Option<string>)
    requires postId != ""
    ensures Get([x], Some(postId), userId).data.reactions == if x.postId == postId then [x] else []
  {
    FilterSingleton(x, OnPost(postId));
  }

  /** GET's `userReaction` is the caller's first reaction on the post in
      store order, so KindOf reads its type. */
  lemma GetUserReactionIsFirst(stored: seq<Reaction>, postId: string, userId: string)
    requires postId != "" && userId != ""
    ensures Get(stored, Some(postId), Some(userId)).data.userReaction == First(stored, OfPair(postId, userId))
  {
    FirstOfPostThenUser(stored, postId, userId);
  }

  lemma {:induction false} FirstOfPostThenUser(s: seq<Reaction>, postId: string, userId: string)
    ensures First(Filter(s, OnPost(postId)), ByUser(userId)) == First(s, OfPair(postId, userId))
  {
    if s != [] {
      FirstOfPostThenUser(s[1..], postId, userId);
      var f := Filter(s, OnPost(postId));
      if s[0].postId == postId {
        assert f == [s[0]] + Filter(s[1..], OnPost(postId));
        if s[0].userId != userId {
          assert f[1..] == Filter(s[1..], OnPost(postId));
          FirstSkipsHead(f, ByUser(userId));
        }
      } else {
        assert f == Filter(s[1..], OnPost(postId));
      }
      FirstSkipsHead(s, OfPair(postId, userId));
    }
  }

  // ---------------------------------------------------------------------
  // POST

  datatype ToggleBody = ToggleBody(postId: Option<string>, kind: Option<string>)

  /** The reply data: `{removed: true}` or `{type}`. */
  datatype Toggled = Removed | Kind(kind: string)

  datatype Toggle = Toggle(store: seq<Reaction>, data: Toggled)

  /** The record POST appends, with id "reaction_<Date.now()>". */
  function NewReaction(postId: string, userId: string, kind: string, now: nat, isoNow: string): (r: Reaction)
    ensures SamePair(r, postId, userId) && r.kind == kind && r.createdAt == isoNow
    ensures r.id == "reaction_" + Decimal(now)
  {
    Reaction("reaction_" + Decimal(now), kind, postId, userId, isoNow)
  }

  /** Records created at different clock readings have different ids. */
  lemma NewReactionIdsDiffer(postId: string, userId: string, kind: string, now1: nat, now2: nat, isoNow: string)
    requires now1 != now2
    ensures NewReaction(postId, userId, kind, now1, isoNow).id != NewReaction(postId, userId, kind, now2, isoNow).id
  {
    var id1, id2 := NewReaction(postId, userId, kind, now1, isoNow).id, NewReaction(postId, userId, kind, now2, isoNow).id;
    if id1 == id2 {
      assert Decimal(now1) == id1[9..];
      assert Decimal(now2) == id2[9..];
      DecimalInjective(now1, now2);
    }
  }

  /** The store and the reply after `userId` toggles `kind` on `postId`:
      the first reaction of the pair is found; a missing one is appended, one
      of the same type is spliced out, one of another type has its type set. */
  function ToggleReaction(rs: seq<Reaction>, postId: string, userId: string, kind: string, now: nat, isoNow: string): (t: Toggle)
    ensures (forall j :: 0 <= j < |rs| ==> !SamePair(rs[j], postId, userId)) ==>
      t == Toggle(rs + [NewReaction(postId, userId, kind, now, isoNow)], Kind(kind))
    ensures t.data.Removed? ==> |t.store| == |rs| - 1
    ensures t.data.Kind? ==> t.data.kind == kind
  {
    var i := IndexWhere(rs, OfPair(postId, userId));
    if i < 0 then Toggle(rs + [NewReaction(postId, userId, kind, now, isoNow)], Kind(kind))
    else if rs[i].kind == kind then Toggle(Splice(rs, i), Removed)
    else Toggle(rs[i := rs[i].(kind := kind)], Kind(kind))
  }

  /** On a store with one reaction per pair, a reaction of the pair is the first one. */
  lemma UniqueFirstOfPair(rs: seq<Reaction>, postId: string, userId: string, x: Reaction)
    requires UniquePairs(rs)
    requires x in rs && SamePair(x, postId, userId)
    ensures First(rs, OfPair(postId, userId)) == Some(x)
  {
    var j :| 0 <= j < |rs| && rs[j] == x;
    assert OfPair(postId, userId)(rs[j]);
  }

  /** A toggle when the pair's first reaction is at index i: the same type
      removes exactly that entry, another type changes only its `type`. */
  lemma ToggleExisting(rs: seq<Reaction>, postId: string, userId: string, kind: string, now: nat, isoNow: string, i: nat)
    requires i < |rs| && SamePair(rs[i], postId, userId)
    requires forall j :: 0 <= j < i ==> !SamePair(rs[j], postId, userId)
    ensures var t := ToggleReaction(rs, postId, userId, kind, now, isoNow);
      if rs[i].kind == kind then
        t.data == Removed && t.store == Splice(rs, i)
      else
        && t.data == Kind(kind)
        && |t.store| == |rs|
        && t.store[i] == rs[i].(kind := kind)
        && forall j :: 0 <= j < |rs| && j != i ==> t.store[j] == rs[j]
  {
    assert OfPair(postId, userId)(rs[i]);
  }

  /** A toggle changes nothing about the other (postId, userId) pairs: the
      reactions of other pairs are the same, in the same order. */
  lemma ToggleLeavesOtherPairs(rs: seq<Reaction>, postId: string, userId: string, kind: string, now: nat, isoNow: string)
    ensures Filter(ToggleReaction(rs, postId, userId, kind, now, isoNow).store, NotOfPair(postId, userId))
         == Filter(rs, NotOfPair(postId, userId))
  {
    var p := NotOfPair(postId, userId);
    var i := IndexWhere(rs, OfPair(postId, userId));
    var t := ToggleReaction(rs, postId, userId, kind, now, isoNow);
    if i < 0 {
      var n := NewReaction(postId, userId, kind, now, isoNow);
      FilterAppend(rs, [n], p);
      assert Filter([n], p) == [];
    } else {
      assert !p(rs[i]);
      if rs[i].kind == kind {
        SpliceKeepsFilter(rs, p, i);
      } else {
        UpdateKeepsFilter(rs, p, i, rs[i].(kind := kind));
      }
    }
  }

  /** A toggle keeps the store's one-reaction-per-pair invariant. */
  lemma TogglePreservesUnique(rs: seq<Reaction>, postId: string, userId: string, kind: string, now: nat, isoNow: string)
    requires UniquePairs(rs)
    ensures UniquePairs(ToggleReaction(rs, postId, userId, kind, now, isoNow).store)
  {
    var i := IndexWhere(rs, OfPair(postId, userId));
    if i < 0 {
      AppendKeepsUnique(rs, NewReaction(postId, userId, kind, now, isoNow));
    } else if rs[i].kind == kind {
      SpliceKeepsUnique(rs, i);
    } else {
      UpdateKeepsUnique(rs, i, rs[i].(kind := kind));
    }
  }

  /** Appending a reaction of a pair the store lacks keeps one reaction per pair. */
  lemma AppendKeepsUnique(rs: seq<Reaction>, n: Reaction)
    requires UniquePairs(rs)
    requires forall j :: 0 <= j < |rs| ==> !SamePair(rs[j], n.postId, n.userId)
    ensures UniquePairs(rs + [n])
  {
    var s := rs + [n];
    forall a, b | 0 <= a < b < |s|
      ensures !SamePair(s[b], s[a].postId, s[a].userId)
    {
      if b == |rs| {
        assert !SamePair(rs[a], n.postId, n.userId);
      }
    }
  }

  /** Splicing a reaction out keeps one reaction per pair. */
  lemma SpliceKeepsUnique(rs: seq<Reaction>, i: nat)
    requires UniquePairs(rs) && i < |rs|
    ensures UniquePairs(Splice(rs, i))
  {
    var s := Splice(rs, i);
    forall a, b | 0 <= a < b < |s|
      ensures !SamePair(s[b], s[a].postId, s[a].userId)
    {
      var a', b' := if a < i then a else a + 1, if b < i then b else b + 1;
      assert a' < b';
    }
  }

  /** Replacing a reaction by one of the same pair keeps one reaction per pair. */
  lemma UpdateKeepsUnique(rs: seq<Reaction>, i: nat, y: Reaction)
    requires UniquePairs(rs) && i < |rs|
    requires y.postId == rs[i].postId && y.userId == rs[i].userId
    ensures UniquePairs(rs[i := y])
  {
    var s := rs[i := y];
    forall a, b | 0 <= a < b < |s|
      ensures !SamePair(s[b], s[a].postId, s[a].userId)
    {
      assert s[a].postId == rs[a].postId && s[a].userId == rs[a].userId;
      assert s[b].postId == rs[b].postId && s[b].userId == rs[b].userId;
    }
  }

  /** The per-pair state machine {absent, LIKE, CLAP, ...}: on a store with
      one reaction per pair, toggling `kind` turns the pair's state `kind` into
      absent and any other state into `kind`, and reports which happened. */
  lemma ToggleStateMachine(rs: seq<Reaction>, postId: string, userId: string, kind: string, now: nat, isoNow: string)
    requires UniquePairs(rs)
    ensures var t := ToggleReaction(rs, postId, userId, kind, now, isoNow);
      && KindOf(t.store, postId, userId) == (if KindOf(rs, postId, userId) == Some(kind) then None else Some(kind))
      && t.data == (if KindOf(rs, postId, userId) == Some(kind) then Removed else Kind(kind))
  {
    var t := ToggleReaction(rs, postId, userId, kind, now, isoNow);
    var i := IndexWhere(rs, OfPair(postId, userId));
    TogglePreservesUnique(rs, postId, userId, kind, now, isoNow);
    if i < 0 {
      var n := NewReaction(postId, userId, kind, now, isoNow);
      assert t.store[|rs|] == n;
      UniqueFirstOfPair(t.store, postId, userId, n);
    } else if rs[i].kind == kind {
      forall j | 0 <= j < |t.store|
        ensures !OfPair(postId, userId)(t.store[j])
      {
        var j' := if j < i then j else j + 1;
        assert t.store[j] == rs[j'];
        if j' < i {
          assert !OfPair(postId, userId)(rs[j']);
        } else {
          assert !SamePair(rs[j'], rs[i].postId, rs[i].userId);
        }
      }
    } else {
      assert t.store[i] == rs[i].(kind := kind);
      UniqueFirstOfPair(t.store, postId, userId, t.store[i]);
    }
  }

  /** Toggling the same type twice, starting with no reaction of the pair,
      gives the store back as it was. */
  lemma ToggleTwiceRestores(rs: seq<Reaction>, postId: string, userId: string, kind: string,
                            now1: nat, iso1: string, now2: nat, iso2: string)
    requires forall j :: 0 <= j < |rs| ==> !SamePair(rs[j], postId, userId)
    ensures var t1 := ToggleReaction(rs, postId, userId, kind, now1, iso1);
      var t2 := ToggleReaction(t1.store, postId, userId, kind, now2, iso2);
      t1.data == Kind(kind) && t2.data == Removed && t2.store == rs
  {
    var t1 := ToggleReaction(rs, postId, userId, kind, now1, iso1);
    var n := NewReaction(postId, userId, kind, now1, iso1);
    assert t1.store == rs + [n];
    IndexWhereIsFirst(t1.store, OfPair(postId, userId), |rs|);
    assert t1.store[..|rs|] == rs;
  }

  /** Toggling A and then a different B, starting with no reaction of the
      pair, leaves one reaction of type B: the record added by the first
      toggle, with its type changed. */
  lemma ToggleThenSwitch(rs: seq<Reaction>, postId: string, userId: string, a: string, b: string,
                         now1: nat, iso1: string, now2: nat, iso2: string)
    requires forall j :: 0 <= j < |rs| ==> !SamePair(rs[j], postId, userId)
    requires a != b
    ensures var t1 := ToggleReaction(rs, postId, userId, a, now1, iso1);
      var t2 := ToggleReaction(t1.store, postId, userId, b, now2, iso2);
      && t2.data == Kind(b)
      && t2.store == rs + [NewReaction(postId, userId, b, now1, iso1)]
      && Filter(t2.store, OfPair(postId, userId)) == [NewReaction(postId, userId, b, now1, iso1)]
  {
    var t1 := ToggleReaction(rs, postId, userId, a, now1, iso1);
    var n := NewReaction(postId, userId, b, now1, iso1);
    IndexWhereIsFirst(t1.store, OfPair(postId, userId), |rs|);
    var s := rs + [n];
    FilterAppend(rs, [n], OfPair(postId, userId));
    FilterKeepsNone(rs, OfPair(postId, userId));
  }

  /** LIKE, LIKE, CLAP from no reaction: one reaction remains, of type CLAP. */
  lemma LikeLikeClap(rs: seq<Reaction>, postId: string, userId: string,
                     now1: nat, now2: nat, now3: nat, iso1: string, iso2: string, iso3: string)
    requires forall j :: 0 <= j < |rs| ==> !SamePair(rs[j], postId, userId)
    ensures var t1 := ToggleReaction(rs, postId, userId, "LIKE", now1, iso1);
      var t2 := ToggleReaction(t1.store, postId, userId, "LIKE", now2, iso2);
      var t3 := ToggleReaction(t2.store, postId, userId, "CLAP", now3, iso3);
      t3.store == rs + [NewReaction(postId, userId, "CLAP", now3, iso3)]
  {
    ToggleTwiceRestores(rs, postId, userId, "LIKE", now1, iso1, now2, iso2);
  }

  // ---------------------------------------------------------------------
  // The store

  class ReactionStore {
    /** The records of the reactions file. */
    var reactions: seq<Reaction>

    constructor (stored: seq<Reaction>)
      ensures reactions == stored
    {
      reactions := stored;
    }

    /** POST /api/reactions with body {postId, type} and the `x-user-id` header as `userId`. */
    method Post(body: ToggleBody, userId: Option<string>, now: nat, isoNow: string) returns (reply: Reply<Toggled>)
      modifies this
      ensures !(Truthy(body.postId) && Truthy(body.kind) && Truthy(userId)) ==>
        reply == Fail(400, "Post ID, type, and user ID are required") && reactions == old(reactions)
      ensures Truthy(body.postId) && Truthy(body.kind) && Truthy(userId) ==>
        var t := ToggleReaction(old(reactions), body.postId.value, userId.value, body.kind.value, now, isoNow);
        reactions == t.store && reply == Ok(200, t.data)
    {
      if !(Truthy(body.postId) && Truthy(body.kind) && Truthy(userId)) {
        return Fail(400, "Post ID, type, and user ID are required");
      }
      var postId, kind, user := body.postId.value, body.kind.value, userId.value;
      var existingIndex := FindIndex(reactions, OfPair(postId, user));
      if existingIndex > -1 {
        if reactions[existingIndex].kind == kind {
          reactions := Splice(reactions, existingIndex);
          return Ok(200, Removed);
        } else {
          reactions := reactions[existingIndex := reactions[existingIndex].(kind := kind)];
        }
      } else {
        reactions := reactions + [NewReaction(postId, user, kind, now, isoNow)];
      }
      reply := Ok(200, Kind(kind));
    }
  }
}
