/**
 * The conversation membership registry `ConversationUserDictionary`: a map from each
 * user to the one conversation they are in, and a map from each conversation to its
 * set of members. The lobby is a conversation that is never closed.
 *
 * The module first describes the two maps as a value, `Registry`, with one function
 * per operation and lemmas about those functions, then the class whose methods update
 * the two maps in place and are proved to produce exactly those values.
 */
module ConversationRegistry {
  import opened Wrappers
  import opened Sets

  type UserId = int
  type ConversationId = int

  /** The reserved id of the lobby conversation. */
  const LobbyConversationId: ConversationId := 1

  /** The registry's two dictionaries. */
  datatype Registry = Registry(
    users: map<UserId, ConversationId>,
    conversations: map<ConversationId, set<UserId>>)

  /** How `conversation_close` ends: it completes, or it indexes an entry already deleted. */
  datatype Outcome = Completed | KeyErrorRaised

  // ---------------------------------------------------------------------------
  // Invariant

  /** A user is recorded in a conversation exactly when that conversation lists the user. */
  predicate MutualInverse(r: Registry)
  {
    && (forall u :: u in r.users ==> r.users[u] in r.conversations && u in r.conversations[r.users[u]])
    && (forall c, u :: c in r.conversations && u in r.conversations[c] ==> u in r.users && r.users[u] == c)
  }

  /** The lobby has an entry, the maps are mutual inverses, other conversations are not empty. */
  predicate Inv(r: Registry)
  {
    && LobbyConversationId in r.conversations
    && MutualInverse(r)
    && (forall c :: c in r.conversations && c != LobbyConversationId ==> r.conversations[c] != {})
  }

  // ---------------------------------------------------------------------------
  // Operations on the value

  /** The state just after construction: nobody recorded, an empty lobby. */
  function Initial(): (r: Registry)
    ensures Inv(r)
    ensures r.users.Keys == {}
    ensures r.conversations.Keys == {LobbyConversationId} && r.conversations[LobbyConversationId] == {}
  {
    Registry(map[], map[LobbyConversationId := {}])
  }

  /**
   * When `_remove_from_both_dicts` does not raise: the conversation must have an entry,
   * and unless `safe`, the user must be in its set and recorded in the user map.
   */
  predicate CanRemoveFromBoth(r: Registry, u: UserId, c: ConversationId, safe: bool)
  {
    c in r.conversations && (safe || (u in r.conversations[c] && u in r.users))
  }

  /** `_remove_from_both_dicts`: drop `u` from `c`'s set and from the user map. */
  function RemovedFromBoth(r: Registry, u: UserId, c: ConversationId): (r': Registry)
    requires c in r.conversations
    ensures u !in r'.users && c in r'.conversations && u !in r'.conversations[c]
    ensures r'.users.Keys == r.users.Keys - {u} && r'.conversations.Keys == r.conversations.Keys
    ensures forall v :: v in r.conversations[c] && v != u ==> v in r'.conversations[c]
    ensures r'.conversations[c] <= r.conversations[c]
    ensures forall v :: v in r'.users ==> r'.users[v] == r.users[v]
    ensures forall d :: d in r.conversations && d != c ==> r'.conversations[d] == r.conversations[d]
  {
    Registry(r.users - {u}, r.conversations[c := r.conversations[c] - {u}])
  }

  /** The test after a removal: a non-lobby conversation with at most one member is closed. */
  predicate MustClose(r: Registry, c: ConversationId)
    requires c in r.conversations
  {
    |r.conversations[c]| <= 1 && c != LobbyConversationId
  }

  /** When `_close_conversation` does not raise: unless `safe`, every member must be recorded. */
  predicate CanClose(r: Registry, c: ConversationId, safe: bool)
  {
    c in r.conversations && (safe || r.conversations[c] <= r.users.Keys)
  }

  /** `_close_conversation`: evict every member of `c`, then delete `c`'s entry. */
  function Closed(r: Registry, c: ConversationId): (r': Registry)
    requires c in r.conversations
    ensures c !in r'.conversations && r'.conversations.Keys == r.conversations.Keys - {c}
    ensures forall v :: v in r.conversations[c] ==> v !in r'.users
    ensures forall v :: v in r.users && v !in r.conversations[c] ==> v in r'.users && r'.users[v] == r.users[v]
    ensures forall d :: d in r'.conversations ==> r'.conversations[d] == r.conversations[d]
  {
    Registry(r.users - r.conversations[c], r.conversations - {c})
  }

  /** When `remove_user_from_conversation` does not raise. */
  predicate CanRemoveUser(r: Registry, u: UserId, c: ConversationId, safe: bool)
  {
    && CanRemoveFromBoth(r, u, c, safe)
    && (MustClose(RemovedFromBoth(r, u, c), c) ==> CanClose(RemovedFromBoth(r, u, c), c, safe))
  }

  /**
   * `remove_user_from_conversation`: the new state, and `Some(c)` when the removal
   * closed `c`, `None` otherwise. A conversation it closes has no entry any more.
   */
  function UserRemoved(r: Registry, u: UserId, c: ConversationId): (res: (Registry, Option<ConversationId>))
    requires c in r.conversations
    ensures res.1 == if c in res.0.conversations then None else Some(c)
  {
    var r1 := RemovedFromBoth(r, u, c);
    if MustClose(r1, c) then (Closed(r1, c), Some(c)) else (r1, None)
  }

  /** `add_user_to_conversation`: create `c`'s set if absent, add `u`, record `u` in `c`. */
  function UserAdded(r: Registry, u: UserId, c: ConversationId): (r': Registry)
    ensures r'.users.Keys == r.users.Keys + {u} && r'.users[u] == c
    ensures c in r'.conversations
    ensures r'.conversations[c] == (if c in r.conversations then r.conversations[c] else {}) + {u}
    ensures r'.conversations.Keys == r.conversations.Keys + {c}
    ensures forall d :: d in r.conversations && d != c ==> r'.conversations[d] == r.conversations[d]
    ensures forall v :: v in r.users && v != u ==> r'.users[v] == r.users[v]
  {
    var members := if c in r.conversations then r.conversations[c] else {};
    Registry(r.users[u := c], r.conversations[c := members + {u}])
  }

  /** When `user_disconnect` does not raise. */
  predicate CanDisconnect(r: Registry, u: UserId)
  {
    u in r.users && CanRemoveUser(r, u, r.users[u], false)
  }

  /** `user_disconnect`: remove `u` from the conversation it is recorded in. */
  function Disconnected(r: Registry, u: UserId): (res: (Registry, Option<ConversationId>))
    requires u in r.users && r.users[u] in r.conversations
    ensures u !in res.0.users
    ensures res.1.Some? <==>
              r.users[u] != LobbyConversationId && |r.conversations[r.users[u]] - {u}| <= 1
    ensures res.1.Some? ==> res.1.value == r.users[u] && r.users[u] !in res.0.conversations
  {
    UserRemovedContract(r, u, r.users[u]);
    UserRemoved(r, u, r.users[u])
  }

  /** When `conversation_close` does not raise before its loop ends or runs out of entry. */
  predicate CanCloseAll(r: Registry, c: ConversationId)
  {
    CanClose(r, c, false)
  }

  /**
   * `conversation_close`: every member of `c` is evicted one by one. The lobby's entry
   * is left empty. A non-lobby conversation is closed by the removal that leaves it with
   * one member (deleting its entry), and if a member is still to be visited after that,
   * the next removal indexes the deleted entry and raises.
   */
  function AllMembersRemoved(r: Registry, c: ConversationId): (res: (Registry, Outcome))
    requires c in r.conversations
    ensures forall v :: v in r.conversations[c] ==> v !in res.0.users
    ensures forall v :: v in r.users && v !in r.conversations[c] ==> v in res.0.users && res.0.users[v] == r.users[v]
    ensures c in res.0.conversations ==> res.0.conversations[c] == {}
    ensures c == LobbyConversationId ==> c in res.0.conversations && res.1 == Completed
    ensures forall d :: d in r.conversations && d != c ==> d in res.0.conversations && res.0.conversations[d] == r.conversations[d]
  {
    var m := r.conversations[c];
    var conversations := if c != LobbyConversationId && m != {} then r.conversations - {c}
                         else r.conversations[c := {}];
    (Registry(r.users - m, conversations),
     if c != LobbyConversationId && |m| >= 2 then KeyErrorRaised else Completed)
  }

  /** When `leave_any_previous_conversations_and_join` does not raise. */
  predicate CanJoin(r: Registry, u: UserId)
  {
    u in r.users ==> CanRemoveUser(r, u, r.users[u], false)
  }

  /** `leave_any_previous_conversations_and_join`: leave the recorded conversation, then add. */
  function Joined(r: Registry, u: UserId, c: ConversationId): (r': Registry)
    requires u in r.users ==> r.users[u] in r.conversations
    ensures u in r'.users && r'.users[u] == c
    ensures c in r'.conversations && u in r'.conversations[c]
  {
    var r1 := if u in r.users then UserRemoved(r, u, r.users[u]).0 else r;
    UserAdded(r1, u, c)
  }

  // ---------------------------------------------------------------------------
  // Lemmas

  /** A safe removal of a user who is neither recorded nor listed changes nothing. */
  lemma SafeRemovalOfAbsentIsNoOp(r: Registry, u: UserId, c: ConversationId)
    requires c in r.conversations && u !in r.users && u !in r.conversations[c]
    ensures CanRemoveFromBoth(r, u, c, true)
    ensures RemovedFromBoth(r, u, c) == r
  {
    assert r.users - {u} == r.users;
    assert r.conversations[c] - {u} == r.conversations[c];
    assert r.conversations[c := r.conversations[c] - {u}] == r.conversations;
  }

  /** Under the invariant, removing a listed member never raises, even in unsafe mode. */
  lemma InvAllowsRemoval(r: Registry, u: UserId, c: ConversationId)
    requires Inv(r) && c in r.conversations && u in r.conversations[c]
    ensures CanRemoveUser(r, u, c, false)
  {
    var r1 := RemovedFromBoth(r, u, c);
    forall v | v in r1.conversations[c] ensures v in r1.users {
      assert v in r.conversations[c] && v != u;
    }
  }

  /**
   * The return-value contract of `remove_user_from_conversation`: it reports `c` exactly
   * when `c` is not the lobby and at most one member is left, and then every member `c`
   * had is evicted and its entry is gone; otherwise only `u` is removed. Other
   * conversations, and users outside `c` other than `u`, are untouched.
   */
  lemma UserRemovedContract(r: Registry, u: UserId, c: ConversationId)
    requires c in r.conversations
    ensures var (r', closed) := UserRemoved(r, u, c);
      && (closed == Some(c) <==> c != LobbyConversationId && |r.conversations[c] - {u}| <= 1)
      && (closed == Some(c) ==>
            c !in r'.conversations && forall v :: v in r.conversations[c] ==> v !in r'.users)
      && (closed == None ==>
            r'.conversations == r.conversations[c := r.conversations[c] - {u}] && r'.users == r.users - {u})
      && (forall d :: d in r.conversations && d != c ==> d in r'.conversations && r'.conversations[d] == r.conversations[d])
      && (forall v :: v in r.users && v != u && v !in r.conversations[c] ==> v in r'.users && r'.users[v] == r.users[v])
  {
  }

  /** A removal never deletes the lobby's entry. */
  lemma UserRemovedKeepsLobby(r: Registry, u: UserId, c: ConversationId)
    requires c in r.conversations && LobbyConversationId in r.conversations
    ensures LobbyConversationId in UserRemoved(r, u, c).0.conversations
  {
  }

  /** Removing a user from the conversation it is recorded in (if any) keeps the invariant. */
  lemma UserRemovedPreservesInv(r: Registry, u: UserId, c: ConversationId)
    requires Inv(r) && c in r.conversations
    requires u in r.users ==> r.users[u] == c
    ensures Inv(UserRemoved(r, u, c).0)
  {
    var r1 := RemovedFromBoth(r, u, c);
    assert MutualInverse(r1) by {
      forall v | v in r1.users ensures r1.users[v] in r1.conversations && v in r1.conversations[r1.users[v]] {
        assert v != u && v in r.users;
      }
    }
    if MustClose(r1, c) {
      var r2 := Closed(r1, c);
      forall v | v in r2.users ensures r2.users[v] in r2.conversations && v in r2.conversations[r2.users[v]] {
        assert v in r1.users && r1.users[v] != c;
      }
      forall d, v | d in r2.conversations && v in r2.conversations[d] ensures v in r2.users && r2.users[v] == d {
        assert d != c && v in r1.conversations[d];
        assert v in r1.users && r1.users[v] == d;
        assert v !in r1.conversations[c];
      }
    }
  }

  /** Adding a user who is unrecorded, or already recorded in `c`, keeps the invariant. */
  lemma UserAddedPreservesInv(r: Registry, u: UserId, c: ConversationId)
    requires Inv(r) && (u in r.users ==> r.users[u] == c)
    ensures Inv(UserAdded(r, u, c))
  {
    var r' := UserAdded(r, u, c);
    forall d, v | d in r'.conversations && v in r'.conversations[d] ensures v in r'.users && r'.users[v] == d {
      if v != u {
        assert v in r.conversations[d];
      }
    }
  }

  /** Adding a user recorded elsewhere breaks the invariant: the old set still lists them. */
  lemma UserAddedElsewhereBreaksInv(r: Registry, u: UserId, c: ConversationId)
    requires Inv(r) && u in r.users && r.users[u] != c
    ensures !MutualInverse(UserAdded(r, u, c))
  {
    var old_c := r.users[u];
    var r' := UserAdded(r, u, c);
    assert old_c in r'.conversations && u in r'.conversations[old_c];
    assert r'.users[u] != old_c;
  }

  /**
   * `leave_any_previous_conversations_and_join` never raises under the invariant, keeps
   * it, records `u` in `c`, and leaves `u` in exactly one conversation's set.
   */
  lemma JoinedContract(r: Registry, u: UserId, c: ConversationId)
    requires Inv(r)
    ensures CanJoin(r, u)
    ensures var r' := Joined(r, u, c);
      && Inv(r')
      && u in r'.users && r'.users[u] == c
      && (forall d :: d in r'.conversations ==> (u in r'.conversations[d] <==> d == c))
  {
    var r1 := if u in r.users then UserRemoved(r, u, r.users[u]).0 else r;
    if u in r.users {
      InvAllowsRemoval(r, u, r.users[u]);
      UserRemovedPreservesInv(r, u, r.users[u]);
      UserRemovedContract(r, u, r.users[u]);
    }
    assert u !in r1.users;
    UserAddedPreservesInv(r1, u, c);
  }

  /** Re-joining the lobby one is already in changes nothing. */
  lemma JoinLobbyTwice(r: Registry, u: UserId)
    requires Inv(r)
    ensures var r' := Joined(r, u, LobbyConversationId);
      Joined(r', u, LobbyConversationId) == r'
  {
    JoinedContract(r, u, LobbyConversationId);
    var r' := Joined(r, u, LobbyConversationId);
    var r2 := UserRemoved(r', u, LobbyConversationId).0;
    assert UserAdded(r2, u, LobbyConversationId).users == r'.users;
    assert UserAdded(r2, u, LobbyConversationId).conversations == r'.conversations;
  }

  /**
   * Re-joining a two-member non-lobby conversation is not idempotent: the removal closes
   * it and evicts the partner, and the conversation is then re-created with `u` alone.
   */
  lemma JoinTwiceEvictsPartner(r: Registry, u: UserId, v: UserId, c: ConversationId)
    requires Inv(r) && c != LobbyConversationId && u != v
    requires var r' := Joined(r, u, c); r'.conversations[c] == {u, v}
    ensures var r' := Joined(r, u, c);
      && Joined(r', u, c) != r'
      && v !in Joined(r', u, c).users
      && Joined(r', u, c).conversations[c] == {u}
  {
    var r' := Joined(r, u, c);
    JoinedContract(r, u, c);
    assert r'.conversations[c] - {u} == {v};
    assert v in r'.users && v !in Joined(r', u, c).users;
  }

  /**
   * `user_disconnect` never raises under the invariant; afterwards `u` is unrecorded and
   * in no conversation's set, and the invariant holds.
   */
  lemma DisconnectedContract(r: Registry, u: UserId)
    requires Inv(r) && u in r.users
    ensures CanDisconnect(r, u)
    ensures var r' := Disconnected(r, u).0;
      && Inv(r')
      && u !in r'.users
      && (forall d :: d in r'.conversations ==> u !in r'.conversations[d])
  {
    InvAllowsRemoval(r, u, r.users[u]);
    UserRemovedPreservesInv(r, u, r.users[u]);
  }

  /**
   * `conversation_close` on the lobby never raises under the invariant: every lobby
   * member is removed from both maps and the lobby is left with an empty entry.
   */
  lemma CloseLobby(r: Registry)
    requires Inv(r)
    ensures CanCloseAll(r, LobbyConversationId)
    ensures var (r', outcome) := AllMembersRemoved(r, LobbyConversationId);
      && outcome == Completed
      && r'.conversations[LobbyConversationId] == {}
      && (forall v :: v in r.conversations[LobbyConversationId] ==> v !in r'.users)
      && Inv(r')
  {
    var (r', outcome) := AllMembersRemoved(r, LobbyConversationId);
    var m := r.conversations[LobbyConversationId];
    forall v | v in m ensures v in r.users {
    }
    forall v | v in r'.users ensures r'.users[v] in r'.conversations && v in r'.conversations[r'.users[v]] {
      assert r.users[v] != LobbyConversationId;
    }
  }

  /**
   * `conversation_close` on a non-lobby conversation raises exactly when it had two or
   * more members; either way its members are evicted, its entry is gone (when it had
   * one), and under the invariant the invariant still holds.
   */
  lemma CloseNonLobby(r: Registry, c: ConversationId)
    requires Inv(r) && c in r.conversations && c != LobbyConversationId
    ensures CanCloseAll(r, c)
    ensures var (r', outcome) := AllMembersRemoved(r, c);
      && (outcome == KeyErrorRaised <==> |r.conversations[c]| >= 2)
      && c !in r'.conversations
      && (forall v :: v in r.conversations[c] ==> v !in r'.users)
      && Inv(r')
  {
    var (r', outcome) := AllMembersRemoved(r, c);
    forall v | v in r.conversations[c] ensures v in r.users {
    }
    forall v | v in r'.users ensures r'.users[v] in r'.conversations && v in r'.conversations[r'.users[v]] {
      assert r.users[v] != c;
    }
  }

  /**
   * The state `r` of `conversation_close` on `c`, started from `r0`, with `remaining`
   * members of the copied set still to visit: while `c` has an entry, exactly the visited
   * members are gone; once the entry is deleted, every member is gone, and one member is
   * still to visit exactly when `c` had two or more.
   */
  predicate CloseInProgress(r0: Registry, c: ConversationId, remaining: set<UserId>, r: Registry)
  {
    && c in r0.conversations
    && var m := r0.conversations[c];
    && remaining <= m
    && if c in r.conversations then
         && r == Registry(r0.users - (m - remaining), r0.conversations[c := remaining])
         && (c != LobbyConversationId && remaining != m ==> |remaining| >= 2)
       else
         && c != LobbyConversationId && m != {}
         && r == Registry(r0.users - m, r0.conversations - {c})
         && (if |m| >= 2 then |remaining| == 1 else remaining == {})
  }

  lemma CloseStarts(r0: Registry, c: ConversationId)
    requires c in r0.conversations
    ensures CloseInProgress(r0, c, r0.conversations[c], r0)
  {
    var m := r0.conversations[c];
    assert r0.users - (m - m) == r0.users;
    assert r0.conversations[c := m] == r0.conversations;
  }

  /** One visit of the loop: the removal does not raise and the loop state advances. */
  lemma CloseSteps(r0: Registry, c: ConversationId, remaining: set<UserId>, r: Registry, u: UserId)
    requires CanCloseAll(r0, c) && CloseInProgress(r0, c, remaining, r)
    requires c in r.conversations && u in remaining
    ensures CanRemoveUser(r, u, c, false)
    ensures CloseInProgress(r0, c, remaining - {u}, UserRemoved(r, u, c).0)
  {
    var m := r0.conversations[c];
    var r1 := RemovedFromBoth(r, u, c);
    assert r1.conversations[c] == remaining - {u};
    assert r1.users == r0.users - (m - (remaining - {u}));
    if MustClose(r1, c) {
      assert |remaining - {u}| == |remaining| - 1;
      if remaining != m {
        assert m == remaining + (m - remaining);
        assert |m| >= |remaining|;
      }
      assert r1.users - (remaining - {u}) == r0.users - m;
      assert r1.conversations - {c} == r0.conversations - {c};
    }
  }

  /** Visiting a member after the entry was deleted raises, with every member gone. */
  lemma CloseRaises(r0: Registry, c: ConversationId, remaining: set<UserId>, r: Registry)
    requires CloseInProgress(r0, c, remaining, r)
    requires c !in r.conversations && remaining != {}
    ensures AllMembersRemoved(r0, c) == (r, KeyErrorRaised)
  {
  }

  /** A loop that visits every member ends in the state `AllMembersRemoved` describes. */
  lemma CloseEnds(r0: Registry, c: ConversationId, r: Registry)
    requires CloseInProgress(r0, c, {}, r)
    ensures AllMembersRemoved(r0, c) == (r, Completed)
  {
    var m := r0.conversations[c];
    assert m - {} == m;
  }

  // ---------------------------------------------------------------------------
  // The class that updates the two dictionaries in place

  class ConversationUserDictionary {
    var usersToConversations: map<UserId, ConversationId>
    var conversationsToUsers: map<ConversationId, set<UserId>>

    /** The two dictionaries as a value. */
    function State(): Registry
      reads this
    {
      Registry(usersToConversations, conversationsToUsers)
    }

    predicate Valid()
      reads this
    {
      Inv(State())
    }

    constructor ()
      ensures State() == Initial() && Valid()
    {
      usersToConversations := map[];
      conversationsToUsers := map[LobbyConversationId := {}];
    }

    method RemoveFromBothDicts(userId: UserId, conversationId: ConversationId, isSafe: bool)
      requires CanRemoveFromBoth(State(), userId, conversationId, isSafe)
      modifies this
      ensures State() == RemovedFromBoth(old(State()), userId, conversationId)
    {
      // `discard`/`pop` in safe mode and `remove`/`del` otherwise have the same effect
      // whenever the latter do not raise.
      conversationsToUsers := conversationsToUsers[conversationId := conversationsToUsers[conversationId] - {userId}];
      usersToConversations := usersToConversations - {userId};
    }

    method RemoveUserFromConversation(userId: UserId, conversationId: ConversationId, isSafe: bool)
      returns (closed: Option<ConversationId>)
      requires CanRemoveUser(State(), userId, conversationId, isSafe)
      modifies this
      ensures (State(), closed) == UserRemoved(old(State()), userId, conversationId)
      ensures old(Valid()) && old(userId in usersToConversations ==> usersToConversations[userId] == conversationId)
              ==> Valid()
    {
      ghost var before := State();
      if Valid() && (userId in usersToConversations ==> usersToConversations[userId] == conversationId) {
        UserRemovedPreservesInv(before, userId, conversationId);
      }
      RemoveFromBothDicts(userId, conversationId, isSafe);
      if |conversationsToUsers[conversationId]| <= 1 && conversationId != LobbyConversationId {
        CloseConversation(conversationId, isSafe);
        return Some(conversationId);
      }
      return None;
    }

    method CloseConversation(conversationId: ConversationId, isSafe: bool)
      requires CanClose(State(), conversationId, isSafe)
      modifies this
      ensures State() == Closed(old(State()), conversationId)
    {
      var members := conversationsToUsers[conversationId];
      var remaining := members;
      while remaining != {}
        invariant remaining <= members
        invariant conversationsToUsers == old(conversationsToUsers)[conversationId := remaining]
        invariant usersToConversations == old(usersToConversations) - (members - remaining)
        decreases remaining
      {
        var u := Pick(remaining);
        RemoveFromBothDicts(u, conversationId, isSafe);
        remaining := remaining - {u};
      }
      conversationsToUsers := conversationsToUsers - {conversationId};
    }

    method AddUserToConversation(userId: UserId, conversationId: ConversationId)
      modifies this
      ensures State() == UserAdded(old(State()), userId, conversationId)
      ensures old(Valid()) && old(userId in usersToConversations ==> usersToConversations[userId] == conversationId)
              ==> Valid()
    {
      if Valid() && (userId in usersToConversations ==> usersToConversations[userId] == conversationId) {
        UserAddedPreservesInv(State(), userId, conversationId);
      }
      if conversationId !in conversationsToUsers {
        conversationsToUsers := conversationsToUsers[conversationId := {}];
      }
      conversationsToUsers := conversationsToUsers[conversationId := conversationsToUsers[conversationId] + {userId}];
      usersToConversations := usersToConversations[userId := conversationId];
    }

    method UserDisconnect(userId: UserId) returns (closed: Option<ConversationId>)
      requires CanDisconnect(State(), userId)
      modifies this
      ensures (State(), closed) == Disconnected(old(State()), userId)
      ensures old(Valid()) ==> Valid() && userId !in usersToConversations
    {
      closed := RemoveUserFromConversation(userId, usersToConversations[userId], false);
    }

    method ConversationClose(conversationId: ConversationId) returns (outcome: Outcome)
      requires CanCloseAll(State(), conversationId)
      modifies this
      ensures (State(), outcome) == AllMembersRemoved(old(State()), conversationId)
      ensures old(Valid()) ==> Valid()
    {
      ghost var start := State();
      if Valid() {
        if conversationId == LobbyConversationId {
          CloseLobby(start);
        } else {
          CloseNonLobby(start, conversationId);
        }
      }
      var remaining := conversationsToUsers[conversationId];
      CloseStarts(start, conversationId);
      while remaining != {}
        invariant CloseInProgress(start, conversationId, remaining, State())
        decreases remaining
      {
        var u := Pick(remaining);
        if conversationId !in conversationsToUsers {
          // The removal that left one member closed the conversation; indexing it raises.
          CloseRaises(start, conversationId, remaining, State());
          return KeyErrorRaised;
        }
        CloseSteps(start, conversationId, remaining, State(), u);
        var _ := RemoveUserFromConversation(u, conversationId, false);
        remaining := remaining - {u};
      }
      CloseEnds(start, conversationId, State());
      return Completed;
    }

    method LeaveAnyPreviousConversationsAndJoin(userId: UserId, conversationId: ConversationId)
      requires CanJoin(State(), userId)
      modifies this
      ensures State() == Joined(old(State()), userId, conversationId)
      ensures old(Valid()) ==> Valid()
    {
      ghost var before := State();
      if Valid() {
        JoinedContract(before, userId, conversationId);
      }
      if userId in usersToConversations {
        var _ := RemoveUserFromConversation(userId, usersToConversations[userId], false);
      }
      AddUserToConversation(userId, conversationId);
    }

    /** The members of a conversation; each is recorded in it when the maps are consistent. */
    function GetConversationAttendees(conversationId: ConversationId): (attendees: set<UserId>)
      reads this
      requires conversationId in conversationsToUsers
      ensures Valid() ==> forall u :: u in attendees ==>
        u in usersToConversations && usersToConversations[u] == conversationId
    {
      conversationsToUsers[conversationId]
    }

    /** The conversation a user is recorded in; it lists the user when the maps are consistent. */
    function GetUserConversation(userId: UserId): (conversationId: ConversationId)
      reads this
      requires userId in usersToConversations
      ensures Valid() ==> conversationId in conversationsToUsers && userId in conversationsToUsers[conversationId]
    {
      usersToConversations[userId]
    }
  }
}
