/** The optimistic reaction update of `toggleReaction` in
    src/hooks/useReactions.ts. After the POST succeeds, the hook removes the
    caller's reaction when the same type is sent again, replaces it by a new
    record when another type is sent, and appends a new record when the caller
    had none. The two state slots are the fields of a ReactionsHook; the
    session, the parsed reply and the clock are parameters. */
module UseReactions {
  import opened Common
  import ReactionsRoute

  datatype ReactionType = Clap | Like

  /** The wire name of a reaction type. */
  function TypeName(t: ReactionType): string {
    match t
    case Clap => "CLAP"
    case Like => "LIKE"
  }

  /** A reaction as the hook holds it; a record built from a reply without an `id` has None. */
  datatype ClientReaction = ClientReaction(id: Option<string>, kind: ReactionType, userId: string, postId: string, createdAt: string)

  /** The session's `user.id`, when there is a session. */
  datatype Session = Session(userId: Option<string>)

  /** The parsed reply of a POST that completed: `success` and `data.id`. */
  datatype ToggleResponse = ToggleResponse(success: bool, id: Option<string>)

  datatype HookState = HookState(reactions: seq<ClientReaction>, userReaction: Option<ClientReaction>)

  /** The `filter` callback that drops the caller's reaction. */
  function OtherId(id: Option<string>): ClientReaction -> bool {
    (r: ClientReaction) => r.id != id
  }

  /** The `map` that puts `n` in place of every reaction with id `id`. */
  function ReplaceId(rs: seq<ClientReaction>, id: Option<string>, n: ClientReaction): (r: seq<ClientReaction>)
    ensures |r| == |rs|
    ensures forall i :: 0 <= i < |rs| ==> r[i] == if rs[i].id == id then n else rs[i]
  {
    seq(|rs|, i requires 0 <= i < |rs| => if rs[i].id == id then n else rs[i])
  }

  /** The record the hook builds for a reaction that is added or changed. */
  function NewReaction(postId: string, kind: ReactionType, s: Session, response: ToggleResponse, isoNow: string): (r: ClientReaction)
    ensures r.id == response.id && r.kind == kind && r.postId == postId && r.createdAt == isoNow
    ensures Truthy(s.userId) ==> r.userId == s.userId.value
    ensures !Truthy(s.userId) ==> r.userId == ""
  {
    ClientReaction(response.id, kind, Or(s.userId, ""), postId, isoNow)
  }

  predicate Succeeded(session: Option<Session>, response: Option<ToggleResponse>) {
    session.Some? && response.Some? && response.value.success
  }

  /** The state after `toggleReaction(kind)` on `postId`. */
  function AfterToggle(st: HookState, postId: string, kind: ReactionType, session: Option<Session>,
                       response: Option<ToggleResponse>, isoNow: string): (r: HookState)
    ensures !Succeeded(session, response) ==> r == st
    ensures Succeeded(session, response) && st.userReaction.Some? && st.userReaction.value.kind == kind ==>
      && r.userReaction.None?
      && r.reactions == Filter(st.reactions, OtherId(st.userReaction.value.id))
      && forall x :: x in r.reactions <==> x in st.reactions && x.id != st.userReaction.value.id
    ensures Succeeded(session, response) && !(st.userReaction.Some? && st.userReaction.value.kind == kind) ==>
      && r.userReaction.Some?
      && r.userReaction.value.kind == kind
      && r.userReaction.value.postId == postId
      && r.userReaction.value.id == response.value.id
      && r.userReaction.value.userId == (if Truthy(session.value.userId) then session.value.userId.value else "")
    ensures Succeeded(session, response) && st.userReaction.Some? && st.userReaction.value.kind != kind ==>
      && |r.reactions| == |st.reactions|
      && forall i :: 0 <= i < |st.reactions| ==>
        r.reactions[i] == if st.reactions[i].id == st.userReaction.value.id then r.userReaction.value else st.reactions[i]
    ensures Succeeded(session, response) && st.userReaction.None? ==>
      r.reactions == st.reactions + [r.userReaction.value]
  {
    if !Succeeded(session, response) then st
    else if st.userReaction.Some? && st.userReaction.value.kind == kind then
      FilterMembers(st.reactions, OtherId(st.userReaction.value.id));
      HookState(Filter(st.reactions, OtherId(st.userReaction.value.id)), None)
    else
      var n := NewReaction(postId, kind, session.value, response.value, isoNow);
      if st.userReaction.Some? then HookState(ReplaceId(st.reactions, st.userReaction.value.id, n), Some(n))
      else HookState(st.reactions + [n], Some(n))
  }

  /** The hook's own reaction, when there is one, is among the listed reactions. */
  predicate Consistent(st: HookState) {
    st.userReaction.Some? ==> st.userReaction.value in st.reactions
  }

  /** Every toggle keeps the hook's reaction among the listed ones. */
  lemma AfterTogglePreservesConsistent(st: HookState, postId: string, kind: ReactionType, session: Option<Session>,
                                       response: Option<ToggleResponse>, isoNow: string)
    requires Consistent(st)
    ensures Consistent(AfterToggle(st, postId, kind, session, response, isoNow))
  {
    var r := AfterToggle(st, postId, kind, session, response, isoNow);
    if Succeeded(session, response) && st.userReaction.Some? && st.userReaction.value.kind != kind {
      var i :| 0 <= i < |st.reactions| && st.reactions[i] == st.userReaction.value;
      assert r.reactions[i] == r.userReaction.value;
    }
  }

  predicate UniqueIds(rs: seq<ClientReaction>) {
    forall i, j :: 0 <= i < j < |rs| ==> rs[i].id != rs[j].id
  }

  /** With unique ids, dropping the reactions with the id of entry i splices out entry i. */
  lemma DropIdAt(rs: seq<ClientReaction>, i: nat)
    requires UniqueIds(rs) && i < |rs|
    ensures Filter(rs, OtherId(rs[i].id)) == Splice(rs, i)
  {
    var q := OtherId(rs[i].id);
    SplicedIdsDiffer(rs, i);
    FilterKeepsAll(Splice(rs, i), q);
    SpliceKeepsFilter(rs, q, i);
  }

  /** With unique ids, no entry left after splicing out entry i has its id. */
  lemma SplicedIdsDiffer(rs: seq<ClientReaction>, i: nat)
    requires UniqueIds(rs) && i < |rs|
    ensures forall k :: 0 <= k < |rs| - 1 ==> OtherId(rs[i].id)(Splice(rs, i)[k])
  {
  }

  /** With unique ids, replacing the reactions with the id of entry i replaces entry i only. */
  lemma ReplaceIdAt(rs: seq<ClientReaction>, i: nat, n: ClientReaction)
    requires UniqueIds(rs) && i < |rs|
    ensures ReplaceId(rs, rs[i].id, n) == rs[i := n]
  {
  }

  /** With unique ids, removal splices out exactly the hook's reaction and
      a type change replaces exactly that entry, as the route does on the server. */
  lemma AfterToggleAtIndex(st: HookState, postId: string, kind: ReactionType, session: Option<Session>,
                           response: Option<ToggleResponse>, isoNow: string, i: nat)
    requires UniqueIds(st.reactions) && Succeeded(session, response)
    requires i < |st.reactions| && st.userReaction == Some(st.reactions[i])
    ensures var r := AfterToggle(st, postId, kind, session, response, isoNow);
      if st.reactions[i].kind == kind then r.reactions == Splice(st.reactions, i)
      else r.reactions == st.reactions[i := r.userReaction.value]
  {
    if st.reactions[i].kind == kind {
      DropIdAt(st.reactions, i);
    } else {
      ReplaceIdAt(st.reactions, i, NewReaction(postId, kind, session.value, response.value, isoNow));
    }
  }

  /** The hook follows the server's per-pair state machine: when its reaction
      has the type the route stores for (postId, userId), the two agree again
      after the same toggle succeeds on both sides. */
  lemma MirrorsRoute(st: HookState, stored: seq<ReactionsRoute.Reaction>, postId: string, userId: string,
                     kind: ReactionType, response: ToggleResponse, now: nat, isoNow: string)
    requires ReactionsRoute.UniquePairs(stored) && response.success
    requires ReactionsRoute.KindOf(stored, postId, userId) ==
      (if st.userReaction.Some? then Some(TypeName(st.userReaction.value.kind)) else None)
    ensures var r := AfterToggle(st, postId, kind, Some(Session(Some(userId))), Some(response), isoNow);
      var t := ReactionsRoute.ToggleReaction(stored, postId, userId, TypeName(kind), now, isoNow);
      ReactionsRoute.KindOf(t.store, postId, userId) ==
        (if r.userReaction.Some? then Some(TypeName(r.userReaction.value.kind)) else None)
  {
    ReactionsRoute.ToggleStateMachine(stored, postId, userId, TypeName(kind), now, isoNow);
    if st.userReaction.Some? && st.userReaction.value.kind != kind {
      assert TypeName(st.userReaction.value.kind) != TypeName(kind);
    }
  }

  class ReactionsHook {
    const postId: string
    /** The `reactions` state slot. */
    var reactions: seq<ClientReaction>
    /** The `userReaction` state slot. */
    var userReaction: Option<ClientReaction>

    constructor (postId: string, reactions: seq<ClientReaction>, userReaction: Option<ClientReaction>)
      ensures this.postId == postId && this.reactions == reactions && this.userReaction == userReaction
    {
      this.postId := postId;
      this.reactions := reactions;
      this.userReaction := userReaction;
    }

    /** `toggleReaction(kind)`; `response` is None when the request threw. */
    method ToggleReaction(kind: ReactionType, session: Option<Session>, response: Option<ToggleResponse>, isoNow: string)
      modifies this
      ensures HookState(reactions, userReaction)
           == AfterToggle(old(HookState(reactions, userReaction)), postId, kind, session, response, isoNow)
    {
      if session.None? {
        return;
      }
      if response.None? || !response.value.success {
        return;
      }
      if userReaction.Some? && userReaction.value.kind == kind {
        reactions := Filter(reactions, OtherId(userReaction.value.id));
        userReaction := None;
      } else {
        var newReaction := NewReaction(postId, kind, session.value, response.value, isoNow);
        if userReaction.Some? {
          reactions := ReplaceId(reactions, userReaction.value.id, newReaction);
        } else {
          reactions := reactions + [newReaction];
        }
        userReaction := Some(newReaction);
      }
    }
  }
}
