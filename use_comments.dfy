/** The comment list updates of src/hooks/useComments.ts: `addComment` puts
    the comment the server returns in front of the list, `addReply` appends it
    to the `replies` of the comment it answers. The `comments` state slot is
    the field of a CommentsHook; the session and the parsed reply are
    parameters. */
module UseComments {
  import opened Common

  datatype Author = Author(id: string, name: string, avatarUrl: Option<string>)

  datatype ClientComment = ClientComment(
    id: string,
    content: string,
    createdAt: string,
    author: Author,
    replies: Option<seq<ClientComment>>)

  /** The parsed reply of a POST that completed: `success` and `data`. */
  datatype CommentResponse = CommentResponse(success: bool, data: ClientComment)

  /** `comment.replies || []`. */
  function RepliesOf(c: ClientComment): seq<ClientComment> {
    if c.replies.Some? then c.replies.value else []
  }

  function HasId(id: string): ClientComment -> bool {
    (c: ClientComment) => c.id == id
  }

  /** The list after the `map` of `addReply(parentId)` with the new reply `reply`. */
  function WithReply(cs: seq<ClientComment>, parentId: string, reply: ClientComment): (r: seq<ClientComment>)
    ensures |r| == |cs|
    ensures forall i :: 0 <= i < |cs| ==> r[i].id == cs[i].id
    ensures forall i :: 0 <= i < |cs| && cs[i].id != parentId ==> r[i] == cs[i]
    ensures forall i :: 0 <= i < |cs| && cs[i].id == parentId ==>
      r[i] == cs[i].(replies := Some(RepliesOf(cs[i]) + [reply]))
  {
    seq(|cs|, i requires 0 <= i < |cs| =>
      if cs[i].id == parentId then cs[i].(replies := Some(RepliesOf(cs[i]) + [reply])) else cs[i])
  }

  /** The number of direct replies held by the listed comments. */
  function TotalReplies(cs: seq<ClientComment>): nat {
    if cs == [] then 0 else |RepliesOf(cs[0])| + TotalReplies(cs[1..])
  }

  /** A reply is added once under every listed comment with the parent's id:
      the reply count grows by the number of such comments. */
  lemma {:induction false} WithReplyCount(cs: seq<ClientComment>, parentId: string, reply: ClientComment)
    ensures TotalReplies(WithReply(cs, parentId, reply)) == TotalReplies(cs) + |Filter(cs, HasId(parentId))|
  {
    if cs != [] {
      var r := WithReply(cs, parentId, reply);
      assert r[1..] == WithReply(cs[1..], parentId, reply);
      WithReplyCount(cs[1..], parentId, reply);
    }
  }

  /** With unique ids, a reply to a listed comment lands under that comment
      only, and the reply count grows by one. */
  lemma WithReplyAt(cs: seq<ClientComment>, parentId: string, reply: ClientComment, i: nat)
    requires forall a, b :: 0 <= a < b < |cs| ==> cs[a].id != cs[b].id
    requires i < |cs| && cs[i].id == parentId
    ensures WithReply(cs, parentId, reply) == cs[i := cs[i].(replies := Some(RepliesOf(cs[i]) + [reply]))]
    ensures TotalReplies(WithReply(cs, parentId, reply)) == TotalReplies(cs) + 1
  {
    WithReplyCount(cs, parentId, reply);
    FilterOnlyAt(cs, HasId(parentId), i);
  }

  /** A reply to a comment that is not listed at top level changes nothing. */
  lemma WithReplyNoParent(cs: seq<ClientComment>, parentId: string, reply: ClientComment)
    requires forall i :: 0 <= i < |cs| ==> cs[i].id != parentId
    ensures WithReply(cs, parentId, reply) == cs
  {
  }

  class CommentsHook {
    const postId: string
    /** The `comments` state slot. */
    var comments: seq<ClientComment>

    constructor (postId: string, comments: seq<ClientComment>)
      ensures this.postId == postId && this.comments == comments
    {
      this.postId := postId;
      this.comments := comments;
    }

    /** `addComment(content)`; `response` is None when the request threw. */
    method AddComment(hasSession: bool, response: Option<CommentResponse>)
      modifies this
      ensures hasSession && response.Some? && response.value.success ==>
        comments == [response.value.data] + old(comments)
      ensures !(hasSession && response.Some? && response.value.success) ==> comments == old(comments)
    {
      if !hasSession {
        return;
      }
      if response.Some? && response.value.success {
        comments := [response.value.data] + comments;
      }
    }

    /** `addReply(parentId, content)`; `response` is None when the request threw. */
    method AddReply(hasSession: bool, parentId: string, response: Option<CommentResponse>)
      modifies this
      ensures hasSession && response.Some? && response.value.success ==>
        comments == WithReply(old(comments), parentId, response.value.data)
      ensures !(hasSession && response.Some? && response.value.success) ==> comments == old(comments)
    {
      if !hasSession {
        return;
      }
      if response.Some? && response.value.success {
        comments := WithReply(comments, parentId, response.value.data);
      }
    }
  }
}
