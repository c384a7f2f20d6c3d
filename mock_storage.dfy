/** The shared in-memory post store (src/lib/mockStorage.ts): the module-level
    `mockPosts` array, which `addMockPost` pushes onto and `removeMockPost`
    splices the first post with a given id out of. The array is the
    `mockPosts` field of a MockPostStore. */
module MockStorage {
  import opened Common
  import opened PostTypes

  /** The `findIndex` callback of `removeMockPost`. */
  function HasId(postId: string): Post -> bool {
    (p: Post) => p.id == postId
  }

  /** The store after `removeMockPost(postId)`: the first post with that id
      spliced out, or the same store when no post has it. */
  function WithoutPost(posts: seq<Post>, postId: string): (r: seq<Post>)
    ensures (forall i :: 0 <= i < |posts| ==> posts[i].id != postId) <==> r == posts
    ensures r != posts ==> |r| == |posts| - 1
  {
    var i := IndexWhere(posts, HasId(postId));
    if i < 0 then posts else Splice(posts, i)
  }

  /** Removal takes out exactly the first post with the id: the posts with that
      id lose their first one, and the posts with other ids keep their order. */
  lemma WithoutPostRemovesFirst(posts: seq<Post>, postId: string)
    ensures Filter(WithoutPost(posts, postId), Not(HasId(postId))) == Filter(posts, Not(HasId(postId)))
    ensures (exists i :: 0 <= i < |posts| && posts[i].id == postId) ==>
      |Filter(posts, HasId(postId))| > 0 &&
      Filter(WithoutPost(posts, postId), HasId(postId)) == Filter(posts, HasId(postId))[1..]
  {
    var i := IndexWhere(posts, HasId(postId));
    if i >= 0 {
      SpliceKeepsOthers(posts, HasId(postId), i);
      SpliceFirstDropsFirst(posts, HasId(postId), i);
    }
  }

  /** Removal is the splice at the first index holding the id: every other
      post stays, in the store's order. */
  lemma WithoutPostAt(posts: seq<Post>, postId: string, i: nat)
    requires i < |posts| && posts[i].id == postId
    requires forall j :: 0 <= j < i ==> posts[j].id != postId
    ensures WithoutPost(posts, postId) == Splice(posts, i)
  {
    IndexWhereIsFirst(posts, HasId(postId), i);
  }

  /** With ids unique in the store, removal takes out every post with the id. */
  lemma WithoutPostUniqueIds(posts: seq<Post>, postId: string)
    requires forall i, j :: 0 <= i < j < |posts| ==> posts[i].id != posts[j].id
    ensures WithoutPost(posts, postId) == Filter(posts, Not(HasId(postId)))
  {
    var i := IndexWhere(posts, HasId(postId));
    if i < 0 {
      FilterKeepsAll(posts, Not(HasId(postId)));
    } else {
      forall j | 0 <= j < |posts| - 1 ensures Not(HasId(postId))(Splice(posts, i)[j]) {
        var j' := if j < i then j else j + 1;
        assert posts[j'].id != posts[i].id;
      }
      FilterKeepsAll(Splice(posts, i), Not(HasId(postId)));
      SpliceKeepsOthers(posts, HasId(postId), i);
    }
  }

  /** Adding a post and removing it by id gives the store back when no stored
      post had that id. */
  lemma AddThenRemove(posts: seq<Post>, p: Post)
    requires forall i :: 0 <= i < |posts| ==> posts[i].id != p.id
    ensures WithoutPost(posts + [p], p.id) == posts
  {
    IndexWhereIsFirst(posts + [p], HasId(p.id), |posts|);
    assert (posts + [p])[..|posts|] == posts;
  }

  class MockPostStore {
    /** `mockPosts`. */
    var mockPosts: seq<Post>

    /** The store as the module starts it: empty. */
    constructor ()
      ensures mockPosts == []
    {
      mockPosts := [];
    }

    /** `addMockPost(post)`: push at the end. */
    method AddMockPost(post: Post)
      modifies this
      ensures mockPosts == old(mockPosts) + [post]
    {
      mockPosts := mockPosts + [post];
    }

    /** `removeMockPost(postId)`: true and the first post with the id spliced
        out when there is one, false and nothing changed otherwise. */
    method RemoveMockPost(postId: string) returns (removed: bool)
      modifies this
      ensures removed <==> exists i :: 0 <= i < |old(mockPosts)| && old(mockPosts)[i].id == postId
      ensures mockPosts == WithoutPost(old(mockPosts), postId)
      ensures !removed ==> mockPosts == old(mockPosts)
    {
      var index := FindIndex(mockPosts, HasId(postId));
      if index > -1 {
        mockPosts := Splice(mockPosts, index);
        return true;
      }
      return false;
    }

    /** `getMockPosts()`: the current contents. */
    method GetMockPosts() returns (posts: seq<Post>)
      ensures posts == mockPosts
    {
      return mockPosts;
    }
  }
}
