/**
 * The matchmaker: a pool from channel name to the user waiting on that channel, and
 * one cycle of the pairing loop, which repeatedly takes two channels of a snapshot of
 * the pool, creates a conversation for their two users, and reports the match.
 */
module Matchmaking {
  import opened Sets

  type Channel = string
  type UserId = int
  type ConversationId = int

  /** One match: the two channels paired and the id of the conversation created for them. */
  datatype Match = Match(channel1: Channel, channel2: Channel, conversationId: ConversationId)

  function Channels(m: Match): set<Channel>
  {
    {m.channel1, m.channel2}
  }

  /** Every channel used by a sequence of matches. */
  function Consumed(made: seq<Match>): set<Channel>
  {
    if made == [] then {} else Consumed(made[..|made| - 1]) + Channels(made[|made| - 1])
  }

  /** The ids of the conversations a sequence of matches created. */
  function ConversationIds(made: seq<Match>): set<ConversationId>
  {
    if made == [] then {} else ConversationIds(made[..|made| - 1]) + {made[|made| - 1].conversationId}
  }

  /** `made` pairs off channels of `snapshot`: two distinct channels per match, no channel twice. */
  predicate IsPairing(snapshot: set<Channel>, made: seq<Match>)
  {
    && (forall i :: 0 <= i < |made| ==> made[i].channel1 != made[i].channel2 && Channels(made[i]) <= snapshot)
    && (forall i, j :: 0 <= i < j < |made| ==> Channels(made[i]) !! Channels(made[j]))
  }

  /** A channel is consumed exactly when some match uses it. */
  lemma {:induction false} ConsumedMembers(made: seq<Match>, x: Channel)
    ensures x in Consumed(made) <==> exists i :: 0 <= i < |made| && x in Channels(made[i])
  {
    if made != [] {
      var init := made[..|made| - 1];
      ConsumedMembers(init, x);
      if x in Consumed(init) {
        var i :| 0 <= i < |init| && x in Channels(init[i]);
        assert made[i] == init[i];
      }
      if exists i :: 0 <= i < |made| && x in Channels(made[i]) {
        var i :| 0 <= i < |made| && x in Channels(made[i]);
        if i < |init| {
          assert init[i] == made[i];
        }
      }
    }
  }

  /** An id is among a sequence's conversation ids exactly when some match carries it. */
  lemma {:induction false} ConversationIdsMembers(made: seq<Match>, id: ConversationId)
    ensures id in ConversationIds(made) <==> exists i :: 0 <= i < |made| && made[i].conversationId == id
  {
    if made != [] {
      var init := made[..|made| - 1];
      ConversationIdsMembers(init, id);
      if id in ConversationIds(init) {
        var i :| 0 <= i < |init| && init[i].conversationId == id;
        assert made[i] == init[i];
      }
      if exists i :: 0 <= i < |made| && made[i].conversationId == id {
        var i :| 0 <= i < |made| && made[i].conversationId == id;
        if i < |init| {
          assert init[i] == made[i];
        }
      }
    }
  }

  /** Appending a match adds its two channels. */
  lemma ConsumedAppend(made: seq<Match>, m: Match)
    ensures Consumed(made + [m]) == Consumed(made) + Channels(m)
  {
    assert (made + [m])[..|made|] == made;
  }

  /** A pairing consumes two channels per match, all from the snapshot. */
  lemma {:induction false} PairingConsumesTwoEach(snapshot: set<Channel>, made: seq<Match>)
    requires IsPairing(snapshot, made)
    ensures Consumed(made) <= snapshot && |Consumed(made)| == 2 * |made|
  {
    if made != [] {
      var init := made[..|made| - 1];
      var last := made[|made| - 1];
      assert IsPairing(snapshot, init) by {
        forall i, j | 0 <= i < j < |init| ensures Channels(init[i]) !! Channels(init[j]) {
          assert init[i] == made[i] && init[j] == made[j];
        }
        forall i | 0 <= i < |init| ensures init[i].channel1 != init[i].channel2 && Channels(init[i]) <= snapshot {
          assert init[i] == made[i];
        }
      }
      PairingConsumesTwoEach(snapshot, init);
      forall x | x in Channels(last) ensures x !in Consumed(init) {
        ConsumedMembers(init, x);
        forall i | 0 <= i < |init| ensures x !in Channels(init[i]) {
          assert init[i] == made[i];
        }
      }
      assert |Channels(last)| == 2;
    }
  }

  /**
   * A pairing with half as many matches as the snapshot has channels leaves one channel
   * unconsumed when the snapshot's size is odd, and none when it is even.
   */
  lemma PairingLeavesParity(snapshot: set<Channel>, made: seq<Match>)
    requires IsPairing(snapshot, made) && |made| == |snapshot| / 2
    ensures |snapshot - Consumed(made)| == |snapshot| % 2
  {
    PairingConsumesTwoEach(snapshot, made);
    var c := Consumed(made);
    assert snapshot == c + (snapshot - c);
    assert |snapshot| == |c| + |snapshot - c|;
  }

  /**
   * The bookkeeping of a pairing cycle that started from pool `pool0` and store contents
   * `store0`: after the matches `made`, with `poolItems` still to pick from, the pool is
   * `pool` and the store holds `store`.
   */
  predicate CycleProgress(
    pool0: map<Channel, UserId>, store0: map<ConversationId, seq<UserId>>, made: seq<Match>,
    poolItems: set<Channel>, pool: map<Channel, UserId>, store: map<ConversationId, seq<UserId>>)
  {
    && IsPairing(pool0.Keys, made)
    && poolItems !! Consumed(made) && poolItems + Consumed(made) == pool0.Keys
    && 2 * |made| + |poolItems| == |pool0.Keys|
    && pool == pool0 - Consumed(made)
    && Recorded(pool0, store0, made, store)
  }

  /**
   * Each match created its own fresh conversation, whose attendees are the users that
   * waited on its two channels, and nothing else in the store changed.
   */
  predicate Recorded(
    pool0: map<Channel, UserId>, store0: map<ConversationId, seq<UserId>>, made: seq<Match>,
    store: map<ConversationId, seq<UserId>>)
    requires IsPairing(pool0.Keys, made)
  {
    && (forall i, j :: 0 <= i < j < |made| ==> made[i].conversationId != made[j].conversationId)
    && store.Keys == store0.Keys + ConversationIds(made)
    && (forall id :: id in store0 ==> store[id] == store0[id])
    && (forall i :: 0 <= i < |made| ==>
          && made[i].conversationId !in store0
          && made[i].conversationId in store
          && store[made[i].conversationId] == [pool0[made[i].channel1], pool0[made[i].channel2]])
  }

  lemma CycleStarts(pool0: map<Channel, UserId>, store0: map<ConversationId, seq<UserId>>)
    ensures CycleProgress(pool0, store0, [], pool0.Keys, pool0, store0)
  {
    assert pool0 - {} == pool0;
  }

  /** Appending a match of two distinct unconsumed snapshot channels keeps a pairing. */
  lemma PairingAppend(snapshot: set<Channel>, made: seq<Match>, m: Match)
    requires IsPairing(snapshot, made)
    requires m.channel1 != m.channel2 && Channels(m) <= snapshot && Channels(m) !! Consumed(made)
    ensures IsPairing(snapshot, made + [m])
    ensures Consumed(made + [m]) == Consumed(made) + Channels(m)
  {
    var made' := made + [m];
    ConsumedAppend(made, m);
    forall i | 0 <= i < |made| ensures Channels(made[i]) !! Channels(m) {
      forall x | x in Channels(made[i]) ensures x in Consumed(made) {
        ConsumedMembers(made, x);
      }
    }
    forall i, j | 0 <= i < j < |made'| ensures Channels(made'[i]) !! Channels(made'[j]) {
      assert made'[i] == made[i];
      if j < |made| {
        assert made'[j] == made[j];
      }
    }
    forall i | 0 <= i < |made'| ensures made'[i].channel1 != made'[i].channel2 && Channels(made'[i]) <= snapshot {
      if i < |made| {
        assert made'[i] == made[i];
      }
    }
  }

  /** Recording a fresh conversation for a new match keeps the store's bookkeeping. */
  lemma RecordedAppend(
    pool0: map<Channel, UserId>, store0: map<ConversationId, seq<UserId>>, made: seq<Match>,
    store: map<ConversationId, seq<UserId>>, m: Match)
    requires IsPairing(pool0.Keys, made) && IsPairing(pool0.Keys, made + [m])
    requires m.channel1 in pool0 && m.channel2 in pool0
    requires Recorded(pool0, store0, made, store) && m.conversationId !in store
    ensures Recorded(pool0, store0, made + [m],
                     store[m.conversationId := [pool0[m.channel1], pool0[m.channel2]]])
  {
    var made' := made + [m];
    var id := m.conversationId;
    var store' := store[id := [pool0[m.channel1], pool0[m.channel2]]];
    assert made'[..|made|] == made;
    forall i | 0 <= i < |made| ensures made[i].conversationId != id {
      ConversationIdsMembers(made, made[i].conversationId);
    }
    forall i, j | 0 <= i < j < |made'| ensures made'[i].conversationId != made'[j].conversationId {
      assert made'[i] == made[i];
      if j < |made| {
        assert made'[j] == made[j];
      }
    }
    forall i | 0 <= i < |made'| ensures
      && made'[i].conversationId !in store0
      && made'[i].conversationId in store'
      && store'[made'[i].conversationId] == [pool0[made'[i].channel1], pool0[made'[i].channel2]]
    {
      if i < |made| {
        assert made'[i] == made[i];
      }
    }
  }

  /** Moving two picked channels from the unpicked set to the consumed set. */
  lemma ItemsAppend(snapshot: set<Channel>, consumed: set<Channel>, poolItems: set<Channel>, channel1: Channel, channel2: Channel)
    requires poolItems !! consumed && poolItems + consumed == snapshot
    requires channel1 in poolItems && channel2 in poolItems && channel1 != channel2
    ensures var items' := poolItems - {channel1} - {channel2};
      && items' !! consumed + {channel1, channel2}
      && items' + (consumed + {channel1, channel2}) == snapshot
      && |items'| == |poolItems| - 2
  {
  }

  /** Removing the two picked channels from the pool removes them from what is left of the snapshot. */
  lemma PoolAppend(pool0: map<Channel, UserId>, consumed: set<Channel>, pool: map<Channel, UserId>, channel1: Channel, channel2: Channel)
    requires pool == pool0 - consumed
    ensures pool - {channel1, channel2} == pool0 - (consumed + {channel1, channel2})
  {
  }

  /** Channels not yet picked are still in the pool. */
  lemma CyclePicksPooled(
    pool0: map<Channel, UserId>, store0: map<ConversationId, seq<UserId>>, made: seq<Match>,
    poolItems: set<Channel>, pool: map<Channel, UserId>, store: map<ConversationId, seq<UserId>>,
    channel1: Channel, channel2: Channel)
    requires CycleProgress(pool0, store0, made, poolItems, pool, store)
    requires channel1 in poolItems && channel2 in poolItems
    ensures channel1 in pool && channel2 in pool
  {
  }

  /** One pairing step: two distinct unpicked channels and a fresh id extend the cycle. */
  lemma CycleSteps(
    pool0: map<Channel, UserId>, store0: map<ConversationId, seq<UserId>>, made: seq<Match>,
    poolItems: set<Channel>, pool: map<Channel, UserId>, store: map<ConversationId, seq<UserId>>,
    channel1: Channel, channel2: Channel, id: ConversationId)
    requires CycleProgress(pool0, store0, made, poolItems, pool, store)
    requires channel1 in poolItems && channel2 in poolItems && channel1 != channel2 && id !in store
    ensures channel1 in pool && channel2 in pool
    ensures CycleProgress(pool0, store0, made + [Match(channel1, channel2, id)], poolItems - {channel1} - {channel2},
                          pool - {channel1, channel2}, store[id := [pool[channel1], pool[channel2]]])
  {
    var m := Match(channel1, channel2, id);
    var made' := made + [m];
    PairingAppend(pool0.Keys, made, m);
    assert pool[channel1] == pool0[channel1] && pool[channel2] == pool0[channel2];
    RecordedAppend(pool0, store0, made, store, m);
    ItemsAppend(pool0.Keys, Consumed(made), poolItems, channel1, channel2);
    PoolAppend(pool0, Consumed(made), pool, channel1, channel2);
  }

  /** When at most one channel is left to pick, half the snapshot has been paired off. */
  lemma CycleEnds(
    pool0: map<Channel, UserId>, store0: map<ConversationId, seq<UserId>>, made: seq<Match>,
    poolItems: set<Channel>, pool: map<Channel, UserId>, store: map<ConversationId, seq<UserId>>)
    requires CycleProgress(pool0, store0, made, poolItems, pool, store) && |poolItems| <= 1
    ensures |made| == |pool0.Keys| / 2
    ensures |pool.Keys| == |pool0.Keys| % 2
  {
    PairingLeavesParity(pool0.Keys, made);
    assert pool.Keys == pool0.Keys - Consumed(made);
  }

  /** Appending one element after a concatenation regroups. */
  lemma AppendAssociates<T>(a: seq<T>, b: seq<T>, x: T)
    ensures a + (b + [x]) == (a + b) + [x]
  {
  }

  /** The store's conversation creation, abstracted as a provider of fresh ids. */
  class ConversationStore {
    /** The attendees each created conversation was given. */
    var attendees: map<ConversationId, seq<UserId>>
    var nextId: ConversationId

    predicate Valid()
      reads this
    {
      forall id :: id in attendees ==> id < nextId
    }

    constructor ()
      ensures Valid() && attendees == map[]
    {
      attendees := map[];
      nextId := 1;
    }

    /** Create a conversation with the given attendees; its id was never used before. */
    method CreateConversation(attendeeIds: seq<UserId>) returns (id: ConversationId)
      requires Valid()
      modifies this
      ensures Valid()
      ensures id !in old(attendees) && attendees == old(attendees)[id := attendeeIds]
    {
      id := nextId;
      attendees := attendees[id := attendeeIds];
      nextId := nextId + 1;
    }
  }

  class MatchMaker {
    /** Channel name to the user waiting on it. */
    var pool: map<Channel, UserId>
    /** Whether a match-created callback was given (it is not `None`). */
    const hasCallback: bool
    /** The calls made to the callback, in order. */
    var notified: seq<Match>

    constructor (hasCallback: bool)
      ensures pool == map[] && notified == [] && this.hasCallback == hasCallback
    {
      pool := map[];
      this.hasCallback := hasCallback;
      notified := [];
    }

    /** Put the user waiting on `channel` in the pool, replacing any entry for that channel. */
    method AddToPool(channel: Channel, userId: UserId)
      modifies this
      ensures pool == old(pool)[channel := userId]
      ensures pool.Keys == old(pool).Keys + {channel}
      ensures forall ch :: ch in old(pool) && ch != channel ==> pool[ch] == old(pool)[ch]
      ensures notified == old(notified)
    {
      pool := pool[channel := userId];
      PerformUpdate();
    }

    /** Drop `channel` from the pool if it is there; otherwise change nothing. */
    method RemoveFromPool(channel: Channel)
      modifies this
      ensures pool == old(pool) - {channel}
      ensures channel !in old(pool) ==> pool == old(pool)
      ensures notified == old(notified)
    {
      if channel in pool {
        pool := pool - {channel};
      }
      PerformUpdate();
    }

    /** The hook called after every pool change; it does nothing. */
    method PerformUpdate()
      ensures pool == old(pool) && notified == old(notified)
    {
    }

    /**
     * Create a conversation for the users on two pooled channels, remove both channels
     * from the pool, and report the match to the callback if there is one.
     */
    method CreateMatch(channel1: Channel, channel2: Channel, store: ConversationStore)
      returns (conversationId: ConversationId)
      requires channel1 in pool && channel2 in pool && channel1 != channel2
      requires store.Valid()
      modifies this, store
      ensures store.Valid()
      ensures conversationId !in old(store.attendees)
      ensures store.attendees == old(store.attendees)[conversationId := [old(pool)[channel1], old(pool)[channel2]]]
      ensures pool == old(pool) - {channel1, channel2}
      ensures notified == old(notified) + (if hasCallback then [Match(channel1, channel2, conversationId)] else [])
    {
      var attendeesUserIds := [pool[channel1], pool[channel2]];
      conversationId := store.CreateConversation(attendeesUserIds);
      pool := pool - {channel1};
      pool := pool - {channel2};
      if hasCallback {
        notified := notified + [Match(channel1, channel2, conversationId)];
      }
    }

    /**
     * One cycle of the pairing loop over a snapshot of the pool's channels: `made` is the
     * matches created, in order. It pairs off half the snapshot, two distinct channels
     * per match and no channel twice, leaves exactly the odd channel (if any) in the
     * pool, creates one fresh conversation per match, and reports each match.
     */
    method SeekMatchesOnce(store: ConversationStore) returns (ghost made: seq<Match>)
      requires store.Valid()
      modifies this, store
      ensures store.Valid()
      ensures IsPairing(old(pool).Keys, made) && |made| == |old(pool)| / 2
      ensures pool == old(pool) - Consumed(made)
      ensures |pool| == |old(pool)| % 2
      ensures notified == old(notified) + (if hasCallback then made else [])
      ensures forall i, j :: 0 <= i < j < |made| ==> made[i].conversationId != made[j].conversationId
      ensures store.attendees.Keys == old(store.attendees).Keys + ConversationIds(made)
      ensures forall id :: id in old(store.attendees) ==> store.attendees[id] == old(store.attendees)[id]
      ensures forall i :: 0 <= i < |made| ==>
        && made[i].conversationId !in old(store.attendees)
        && made[i].conversationId in store.attendees
        && store.attendees[made[i].conversationId] == [old(pool)[made[i].channel1], old(pool)[made[i].channel2]]
    {
      ghost var pool0, store0 := pool, store.attendees;
      var poolItems := pool.Keys;
      made := [];
      CycleStarts(pool0, store0);
      ghost var itemsAtHead := poolItems;
      while |poolItems| > 0
        invariant itemsAtHead == poolItems
        invariant CycleProgress(pool0, store0, made, poolItems, pool, store.attendees)
        invariant store.Valid()
        invariant notified == old(notified) + (if hasCallback then made else [])
        decreases |poolItems|
      {
        var channel1 := Pick(poolItems);
        poolItems := poolItems - {channel1};
        if |poolItems| == 0 {
          // `channel1` is left alone and stays in the pool for the next cycle.
          break;
        }
        var channel2 := Pick(poolItems);
        poolItems := poolItems - {channel2};
        ghost var poolBefore, storeBefore, before := pool, store.attendees, made;
        CyclePicksPooled(pool0, store0, made, itemsAtHead, pool, store.attendees, channel1, channel2);
        var conversationId := CreateMatch(channel1, channel2, store);
        CycleSteps(pool0, store0, made, itemsAtHead, poolBefore, storeBefore, channel1, channel2, conversationId);
        assert poolItems == itemsAtHead - {channel1} - {channel2};
        assert pool == poolBefore - {channel1, channel2};
        assert store.attendees == storeBefore[conversationId := [poolBefore[channel1], poolBefore[channel2]]];
        made := made + [Match(channel1, channel2, conversationId)];
        itemsAtHead := poolItems;
        assert CycleProgress(pool0, store0, made, poolItems, pool, store.attendees);
        if hasCallback {
          AppendAssociates(old(notified), before, made[|made| - 1]);
        }
      }
      CycleEnds(pool0, store0, made, itemsAtHead, pool, store.attendees);
    }
  }
}
