/** The follow toggle of src/components/FollowButton.tsx: `handleFollow` flips
    `isFollowing`, adds the followed user to the stored following list when
    it is not there yet or removes its first occurrence, and reports the new
    state. The list under the "following" key is the `following` field of a
    FollowButton ([] when the key is absent). */
module FollowButton {
  import opened Common

  /** The `indexOf` / `includes` test for `userId`. */
  function IsUser(userId: string): string -> bool {
    (u: string) => u == userId
  }

  predicate Distinct(list: seq<string>) {
    forall i, j :: 0 <= i < j < |list| ==> list[i] != list[j]
  }

  /** The following list after the update for the new state `follow`. */
  function Updated(list: seq<string>, userId: string, follow: bool): (r: seq<string>)
    ensures follow ==> userId in r
    ensures follow && userId in list ==> r == list
    ensures follow && userId !in list ==> r == list + [userId]
    ensures !follow && userId !in list ==> r == list
    ensures !follow && userId in list ==> |r| == |list| - 1
  {
    if follow then
      if userId in list then list else list + [userId]
    else
      var i := IndexWhere(list, IsUser(userId));
      if i < 0 then list else Splice(list, i)
  }

  /** The entries for other users are the same, in the same order, whichever way the update goes. */
  lemma UpdatedKeepsOthers(list: seq<string>, userId: string, follow: bool)
    ensures Filter(Updated(list, userId, follow), Not(IsUser(userId))) == Filter(list, Not(IsUser(userId)))
  {
    var i := IndexWhere(list, IsUser(userId));
    if follow && userId !in list {
      FilterSkips(list, userId, [], Not(IsUser(userId)));
      assert list + [userId] + [] == list + [userId] && list + [] == list;
    } else if !follow && i >= 0 {
      SpliceKeepsOthers(list, IsUser(userId), i);
    }
  }

  /** Unfollowing removes the first occurrence of the user and keeps any later ones. */
  lemma UnfollowRemovesFirst(list: seq<string>, userId: string)
    requires userId in list
    ensures |Filter(list, IsUser(userId))| > 0
    ensures Filter(Updated(list, userId, false), IsUser(userId)) == Filter(list, IsUser(userId))[1..]
  {
    var i := IndexWhere(list, IsUser(userId));
    SpliceFirstDropsFirst(list, IsUser(userId), i);
  }

  /** Unfollowing is the splice at the first index holding the user, as
      `indexOf` and `splice` give. */
  lemma UnfollowAt(list: seq<string>, userId: string, i: nat)
    requires i < |list| && list[i] == userId && userId !in list[..i]
    ensures Updated(list, userId, false) == Splice(list, i)
  {
    forall j | 0 <= j < i ensures !IsUser(userId)(list[j]) {
      assert list[j] == list[..i][j];
    }
    IndexWhereIsFirst(list, IsUser(userId), i);
  }

  /** A duplicate-free list stays duplicate-free, and after an unfollow the user is absent from it. */
  lemma UpdatedKeepsDistinct(list: seq<string>, userId: string, follow: bool)
    requires Distinct(list)
    ensures Distinct(Updated(list, userId, follow))
    ensures !follow ==> userId !in Updated(list, userId, follow)
  {
    var r := Updated(list, userId, follow);
    var i := IndexWhere(list, IsUser(userId));
    if follow && userId !in list {
      forall a, b | 0 <= a < b < |r| ensures r[a] != r[b] {
        if b == |list| {
          assert r[a] == list[a];
        }
      }
    } else if !follow && i >= 0 {
      SpliceKeepsDistinct(list, i);
    }
  }

  /** Splicing out one entry keeps a list duplicate-free and drops that entry's value. */
  lemma SpliceKeepsDistinct(list: seq<string>, i: nat)
    requires Distinct(list) && i < |list|
    ensures Distinct(Splice(list, i))
    ensures list[i] !in Splice(list, i)
  {
    var r := Splice(list, i);
    forall a, b | 0 <= a < b < |r| ensures r[a] != r[b] {
      var a', b' := if a < i then a else a + 1, if b < i then b else b + 1;
      assert a' < b';
    }
    forall k | 0 <= k < |r| ensures r[k] != list[i] {
      var k' := if k < i then k else k + 1;
      assert k' != i;
    }
  }

  /** Following a user who is not in the list and then unfollowing them gives the list back. */
  lemma FollowThenUnfollow(list: seq<string>, userId: string)
    requires userId !in list
    ensures Updated(Updated(list, userId, true), userId, false) == list
  {
    var l := list + [userId];
    IndexWhereIsFirst(l, IsUser(userId), |list|);
    assert l[..|list|] == list;
  }

  class FollowButton {
    /** The profile this button follows. */
    const userId: string
    /** The `isFollowing` state slot. */
    var isFollowing: bool
    /** The parsed list under the "following" key. */
    var following: seq<string>

    constructor (userId: string, initialFollowing: bool, stored: seq<string>)
      ensures this.userId == userId && isFollowing == initialFollowing && following == stored
    {
      this.userId := userId;
      isFollowing := initialFollowing;
      following := stored;
    }

    /** `handleFollow` once its timer fires; `reported` is the value passed to `onFollowChange`. */
    method HandleFollow() returns (reported: bool)
      modifies this
      ensures isFollowing == !old(isFollowing)
      ensures following == Updated(old(following), userId, isFollowing)
      ensures reported == isFollowing
    {
      var newFollowingState := !isFollowing;
      isFollowing := newFollowingState;
      var index := FindIndex(following, IsUser(userId));
      if newFollowingState {
        if index < 0 {
          assert userId !in following;
          following := following + [userId];
        } else {
          assert following[index] == userId;
        }
      } else {
        if index > -1 {
          following := Splice(following, index);
        }
      }
      reported := newFollowingState;
    }
  }
}
