/** The comments endpoint (src/app/api/comments/route.ts). GET returns a
    post's top-level comments, each with the stored comments that reply to it;
    POST builds a comment from the body and the user headers and appends it to
    the comments file, which is the `comments` field of a CommentStore. */
module CommentsRoute {
  import opened Common

  datatype Author = Author(id: string, name: string, avatarUrl: Option<string>)

  datatype Comment = Comment(
    id: string,
    content: string,
    postId: string,
    parentId: Option<string>,
    createdAt: string,
    author: Author)

  /** A top-level comment spread with its `replies`. */
  datatype Thread = Thread(comment: Comment, replies: seq<Comment>)

  /** A comment on `postId` with a falsy `parentId`. */
  predicate IsTopLevel(c: Comment, postId: string) {
    c.postId == postId && !Truthy(c.parentId)
  }

  function TopLevelOf(postId: string): Comment -> bool {
    c => IsTopLevel(c, postId)
  }

  function ReplyTo(id: string): Comment -> bool {
    (c: Comment) => c.parentId == Some(id)
  }

  /** The comments the threads are built on. */
  function Heads(ts: seq<Thread>): (r: seq<Comment>)
    ensures |r| == |ts|
    ensures forall i :: 0 <= i < |ts| ==> r[i] == ts[i].comment
  {
    seq(|ts|, i requires 0 <= i < |ts| => ts[i].comment)
  }

  // ---------------------------------------------------------------------
  // GET

  /** The replies to `id`, in store order. */
  function RepliesTo(all: seq<Comment>, id: string): (r: seq<Comment>)
    ensures forall c :: c in r <==> c in all && c.parentId == Some(id)
  {
    FilterMembers(all, ReplyTo(id));
    Filter(all, ReplyTo(id))
  }

  function Threads(tops: seq<Comment>, all: seq<Comment>): (r: seq<Thread>)
    ensures Heads(r) == tops
    ensures forall i :: 0 <= i < |r| ==> r[i].replies == RepliesTo(all, tops[i].id)
  {
    seq(|tops|, i requires 0 <= i < |tops| => Thread(tops[i], RepliesTo(all, tops[i].id)))
  }

  /** GET /api/comments?postId=... over the stored comments `all`. */
  function Get(all: seq<Comment>, postId: Option<string>): (r: Reply<seq<Thread>>)
    ensures r.Fail? <==> !Truthy(postId)
    ensures r.Fail? ==> r == Fail(400, "Post ID is required")
    ensures r.Ok? ==> r.status == 200
    ensures r.Ok? ==> forall c :: c in Heads(r.data) <==> c in all && IsTopLevel(c, postId.value)
    ensures r.Ok? ==> forall t :: t in r.data ==> !Truthy(t.comment.parentId)
    ensures r.Ok? ==> forall t :: t in r.data ==>
      forall c :: c in t.replies <==> c in all && c.parentId == Some(t.comment.id)
  {
    if !Truthy(postId) then Fail(400, "Post ID is required")
    else
      var tops := Filter(all, TopLevelOf(postId.value));
      FilterMembers(all, TopLevelOf(postId.value));
      var r := Threads(tops, all);
      assert forall t :: t in r ==> t.comment in tops;
      Ok(200, r)
  }

  /** Top-level comments come in store order, and so do the replies of each. */
  lemma GetKeepsStoreOrder(a: seq<Comment>, b: seq<Comment>, postId: string)
    requires postId != ""
    ensures Heads(Get(a + b, Some(postId)).data) == Heads(Get(a, Some(postId)).data) + Heads(Get(b, Some(postId)).data)
    ensures forall t :: t in Get(a + b, Some(postId)).data ==>
      t.replies == Filter(a, ReplyTo(t.comment.id)) + Filter(b, ReplyTo(t.comment.id))
  {
    FilterAppend(a, b, TopLevelOf(postId));
    forall t | t in Get(a + b, Some(postId)).data
      ensures t.replies == Filter(a, ReplyTo(t.comment.id)) + Filter(b, ReplyTo(t.comment.id))
    {
      FilterAppend(a, b, ReplyTo(t.comment.id));
    }
  }

  /** A new top-level comment appended to the store is listed last by GET. */
  lemma PostedCommentListedLast(all: seq<Comment>, c: Comment)
    requires c.postId != "" && !Truthy(c.parentId)
    ensures Heads(Get(all + [c], Some(c.postId)).data) == Heads(Get(all, Some(c.postId)).data) + [c]
  {
    FilterAppend(all, [c], TopLevelOf(c.postId));
  }

  /** A new reply appended to the store is the last reply of its parent's thread. */
  lemma PostedReplyListedLast(all: seq<Comment>, postId: string, r: Comment, i: nat)
    requires postId != "" && !IsTopLevel(r, postId) && r.parentId.Some?
    requires i < |Get(all, Some(postId)).data|
    requires Get(all, Some(postId)).data[i].comment.id == r.parentId.value
    ensures |Get(all + [r], Some(postId)).data| == |Get(all, Some(postId)).data|
    ensures Get(all + [r], Some(postId)).data[i].replies == Get(all, Some(postId)).data[i].replies + [r]
  {
    FilterAppend(all, [r], TopLevelOf(postId));
    FilterKeepsNone([r], TopLevelOf(postId));
    var id := r.parentId.value;
    FilterAppend(all, [r], ReplyTo(id));
    FilterKeepsAll([r], ReplyTo(id));
  }

  // ---------------------------------------------------------------------
  // POST

  datatype CommentBody = CommentBody(content: Option<string>, postId: Option<string>, parentId: Option<string>)

  /** The comment POST stores: id "comment_<Date.now()>", the given parent or
      null, and the author named by the `x-user-name` header or "User". */
  function NewComment(content: string, postId: string, parentId: Option<string>, userId: string,
                      userName: Option<string>, now: nat, isoNow: string): (c: Comment)
    ensures c.id == "comment_" + Decimal(now)
    ensures c.parentId.Some? <==> Truthy(parentId)
    ensures c.parentId.Some? ==> c.parentId == parentId
    ensures Truthy(userName) ==> c.author.name == userName.value
    ensures !Truthy(userName) ==> c.author.name == "User"
    ensures c.author.id == userId && c.author.avatarUrl.None?
    ensures c.content == content && c.postId == postId && c.createdAt == isoNow
  {
    Comment("comment_" + Decimal(now), content, postId, if Truthy(parentId) then parentId else None,
            isoNow, Author(userId, Or(userName, "User"), None))
  }

  class CommentStore {
    /** The records of the comments file. */
    var comments: seq<Comment>

    constructor (stored: seq<Comment>)
      ensures comments == stored
    {
      comments := stored;
    }

    /** POST /api/comments with body {content, postId, parentId} and the
        `x-user-id` / `x-user-name` headers. */
    method Post(body: CommentBody, userId: Option<string>, userName: Option<string>, now: nat, isoNow: string)
      returns (reply: Reply<Comment>)
      modifies this
      ensures !(Truthy(body.content) && Truthy(body.postId) && Truthy(userId)) ==>
        reply == Fail(400, "Content, post ID, and user ID are required") && comments == old(comments)
      ensures Truthy(body.content) && Truthy(body.postId) && Truthy(userId) ==>
        var c := NewComment(body.content.value, body.postId.value, body.parentId, userId.value, userName, now, isoNow);
        reply == Ok(201, c) && comments == old(comments) + [c]
    {
      if !(Truthy(body.content) && Truthy(body.postId) && Truthy(userId)) {
        return Fail(400, "Content, post ID, and user ID are required");
      }
      var comment := NewComment(body.content.value, body.postId.value, body.parentId, userId.value, userName, now, isoNow);
      comments := comments + [comment];
      reply := Ok(201, comment);
    }
  }
}
