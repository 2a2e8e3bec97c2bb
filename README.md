# co-buddies chat core in Dafny

This project models the core of the co-buddies chat server. It has four parts:

- **The conversation registry** (`ConversationUserDictionary`, file
  `conversation_registry.dfy`). It keeps two dictionaries: each user's current
  conversation, and each conversation's set of members. The lobby (id 1) is never
  closed. Any other conversation is closed as soon as a removal leaves it with at
  most one member, and closing it evicts everyone still in it.
- **The matchmaker** (`MatchMaker`, file `match_maker.dfy`). A pool maps each
  channel name to the user waiting on it. One cycle of the pairing loop takes a
  snapshot of the pool's channels and pairs them off two at a time. For each pair
  it creates a conversation for the two users, removes both channels from the
  pool, and reports the match to the callback.
- **The websocket consumer's authentication gate** (`ChatConsumer`, file
  `consumers.dfy`). A connection starts unauthenticated. The first frame whose
  `authenticated` field is the string `"true"` authenticates it. Authenticated
  frames are echoed back. Frames before that are answered with an error frame.
- **The error-code enumeration** (`ErrorEnum`, file `enums.dfy`). Its values come
  from the declared numbers plus `enum.auto()` numbering.

The registry has this shape. A value datatype, `Registry`, describes its state,
and one function per operation gives the new state. Lemmas prove what each
operation promises: the invariant it keeps, what it returns, what it leaves
unchanged. The class `ConversationUserDictionary` holds the two dictionaries of
the source object. Its methods update them in place and are proved to produce
exactly the function's value.

The consumer is similar but smaller. `ChatConsumer` has the source's
authentication flag and one more field, `sent`, which stands for the socket's
output: the frames sent so far. Only `ValidateAuthenticated` and `ReceiveJson` are
tied to functions (`Validate` and `Receive`). The constructor and
`SetAuthenticated` state their effect directly. `Run` folds `Receive` over a
sequence of frames, and the lemmas about `Run` describe a whole connection.

The matchmaker is different: its pool operations and `CreateMatch` are
specified directly by the `ensures` of their methods. The pairing cycle is proved
against the predicates `IsPairing` and `CycleProgress` and the lemmas about them.

Python's `KeyError` on a missing key becomes a precondition stating exactly what
the source needs from its caller (`CanRemoveFromBoth`, `CanClose`,
`CanRemoveUser`, `CanDisconnect`, `CanCloseAll`, `CanJoin`). The lemmas show that
the registry invariant implies each of these once the keys are present: the
conversation has an entry, and the user is listed in it or recorded. Even under
the invariant, `conversation_close` of an unknown id and `user_disconnect` of an
unrecorded user raise `KeyError`. The model keeps those as preconditions.

One `KeyError` is modelled as an outcome instead. On a non-lobby conversation
with two or more members, `conversation_close` always raises partway through its
loop: the removal that leaves one member closes the
conversation, and the next iteration indexes the deleted entry. The model returns
this case as the outcome `KeyErrorRaised`, together with the state at the point of
the raise.

Two behaviours of the code worth knowing:

- Re-joining the conversation one is already in is idempotent for the lobby
  (`JoinLobbyTwice`). It is not idempotent for a two-member conversation: the
  second join removes the user, which closes the conversation and evicts the
  partner; the conversation is then re-created with the user alone
  (`JoinTwiceEvictsPartner`).
- The unauthenticated error frame is serialised twice: the error object is turned
  into a JSON text, and that text is sent as JSON. The peer therefore receives a
  JSON string, not an object. Its error code is the literal `1`, not
  `ErrorEnum.UNAUTHENTICATED` (100).

## Model

| member | source | states |
|---|---|---|
| Enums.Index | chat/enums.py:4-17 | each member's position in the declaration, and that position holds that member |
| Enums.MembersListEachOnce | chat/enums.py:5-17 | the declaration order lists every member exactly once |
| Enums.Declared | chat/enums.py:5-6 | the explicitly written values: 0 at the first position and 100 at the second; every other member uses `enum.auto()` |
| Enums.CodeAt | chat/enums.py:5-17 | the `enum.auto()` numbering from the declared values: the member at position 0 has value 0, and every later member has 99 plus its position |
| Enums.Code | chat/enums.py:4-17 | a member's value: 0 for `OK`, otherwise 99 plus its position in the declaration |
| Enums.FromCode | chat/enums.py:4-17 | decoding an integer gives a member only when that member's value is that integer |
| Enums.FindCode | chat/enums.py:4-17 | a search from any position returns only a member with the searched value |
| Enums.FirstTwoDeclared | chat/enums.py:5-6 | `OK` is 0 and `UNAUTHENTICATED` is 100, as declared |
| Enums.AutoIsSuccessor | chat/enums.py:7-17 | every `enum.auto()` member is its predecessor's value plus one |
| Enums.CodeTable | chat/enums.py:5-17 | the full table: 0, then 100 to 109 in declaration order |
| Enums.CodeAtStrictlyIncreasing | chat/enums.py:5-17 | values strictly increase along the declaration |
| Enums.CodesDistinct | chat/enums.py:4-17 | distinct members have distinct values, so no member is an alias |
| Enums.FindCodeFinds | chat/enums.py:4-17 | a search starting at or before a member's position finds that member |
| Enums.DecodeEncode | chat/enums.py:4-17 | looking up a member's value gives the member back |
| Enums.EncodeDecode | chat/enums.py:4-17 | an integer decodes exactly when some member has it as value, and the member found has that value |
| Enums.UnknownErrorIsLargest | chat/enums.py:16-17 | `UNKNOWN_ERROR` is declared last and has the strictly largest value |
| Enums.OnlyOkBelowHundred | chat/enums.py:5-17 | `OK` is the only member with a value below 100 |
| ConversationRegistry.Initial | chat/conversation_user_dictionary.py:2-6 | the initial state satisfies the invariant, has no users, and has only the lobby, with an empty member set |
| ConversationRegistry.Inv | chat/conversation_user_dictionary.py:2-40 | the registry invariant: the lobby has an entry, a user is recorded in a conversation exactly when that conversation lists them, and every non-lobby conversation has a member |
| ConversationRegistry.CanRemoveFromBoth | chat/conversation_user_dictionary.py:8-14 | when `_remove_from_both_dicts` does not raise: the conversation has an entry, and in unsafe mode the user is listed in it and recorded |
| ConversationRegistry.RemovedFromBoth | chat/conversation_user_dictionary.py:8-14 | the user ends up neither recorded nor in the conversation's set; no other member, record or conversation changes |
| ConversationRegistry.CanClose | chat/conversation_user_dictionary.py:29-33 | when `_close_conversation` does not raise: the conversation has an entry, and in unsafe mode every member is recorded |
| ConversationRegistry.MustClose | chat/conversation_user_dictionary.py:22-25 | the close test after a removal: at most one member is left and the conversation is not the lobby |
| ConversationRegistry.Closed | chat/conversation_user_dictionary.py:29-33 | the conversation's entry is gone, none of its members is recorded, and every other user and conversation is unchanged |
| ConversationRegistry.CanRemoveUser | chat/conversation_user_dictionary.py:16-27 | when `remove_user_from_conversation` does not raise: the removal does not raise, and neither does the close that follows it when that close is triggered |
| ConversationRegistry.UserRemoved | chat/conversation_user_dictionary.py:16-27 | the returned id is the conversation exactly when the removal deleted its entry |
| ConversationRegistry.SafeRemovalOfAbsentIsNoOp | chat/conversation_user_dictionary.py:8-11 | a safe-mode removal of a user who is neither listed nor recorded does not raise and changes nothing |
| ConversationRegistry.InvAllowsRemoval | chat/conversation_user_dictionary.py:8-33 | under the invariant, an unsafe removal of a listed member raises neither in the removal nor in the close that follows it |
| ConversationRegistry.UserRemovedContract | chat/conversation_user_dictionary.py:16-33 | returns the id exactly when the conversation is not the lobby and at most one member is left; a closed conversation has every member evicted and its entry deleted; otherwise only the user is removed; other conversations and unrelated users are untouched |
| ConversationRegistry.UserRemovedKeepsLobby | chat/conversation_user_dictionary.py:22-24 | a removal never deletes the lobby's entry |
| ConversationRegistry.UserRemovedPreservesInv | chat/conversation_user_dictionary.py:16-33 | removing a user from their own conversation keeps both maps mutually inverse, keeps the lobby present, and leaves no other conversation empty |
| ConversationRegistry.UserAdded | chat/conversation_user_dictionary.py:35-40 | adding creates the set if it is absent, adds the user, records the conversation, and touches no other set and no other user |
| ConversationRegistry.UserAddedPreservesInv | chat/conversation_user_dictionary.py:35-40 | adding a user who is unrecorded, or already recorded in that conversation, keeps the invariant |
| ConversationRegistry.UserAddedElsewhereBreaksInv | chat/conversation_user_dictionary.py:35-40 | adding a user recorded in another conversation without leaving it breaks the mutual inverse, because the old set still lists them |
| ConversationRegistry.CanJoin | chat/conversation_user_dictionary.py:49-53 | when join does not raise: a recorded user can be removed from the conversation they are recorded in |
| ConversationRegistry.Joined | chat/conversation_user_dictionary.py:49-53 | after joining, the user is recorded in the target conversation and listed in its set |
| ConversationRegistry.JoinedContract | chat/conversation_user_dictionary.py:49-53 | under the invariant, join never raises, keeps the invariant, records the user in the target conversation, and leaves the user in exactly one conversation's set |
| ConversationRegistry.JoinLobbyTwice | chat/conversation_user_dictionary.py:49-53 | joining the lobby a second time changes nothing |
| ConversationRegistry.JoinTwiceEvictsPartner | chat/conversation_user_dictionary.py:49-53 | re-joining a two-member conversation is not idempotent: the partner is evicted and the user is left alone in it |
| ConversationRegistry.CanDisconnect | chat/conversation_user_dictionary.py:42-43 | when `user_disconnect` does not raise: the user is recorded, and removing them from that conversation does not raise |
| ConversationRegistry.Disconnected | chat/conversation_user_dictionary.py:42-43 | the user is no longer recorded; the recorded conversation is returned exactly when it is not the lobby and at most one member is left, and then its entry is gone |
| ConversationRegistry.DisconnectedContract | chat/conversation_user_dictionary.py:42-43 | under the invariant, disconnect never raises; afterwards the user is unrecorded, in no set, and the invariant holds |
| ConversationRegistry.CanCloseAll | chat/conversation_user_dictionary.py:45-47 | when `conversation_close` does not raise before its loop runs out of entry: the conversation has an entry and every member is recorded |
| ConversationRegistry.AllMembersRemoved | chat/conversation_user_dictionary.py:45-47 | every member ends unrecorded, every other user and conversation is unchanged, the entry is empty or gone, and the lobby keeps its entry and never raises |
| ConversationRegistry.CloseLobby | chat/conversation_user_dictionary.py:45-47 | closing the lobby never raises, evicts every lobby member, leaves the lobby with an empty entry, and keeps the invariant |
| ConversationRegistry.CloseNonLobby | chat/conversation_user_dictionary.py:45-47 | closing another conversation raises exactly when it had two or more members; either way every member is evicted, the entry is gone, and the invariant holds |
| ConversationRegistry.CloseStarts | chat/conversation_user_dictionary.py:45-46 | before the loop, nothing has been visited and the state is unchanged |
| ConversationRegistry.CloseSteps | chat/conversation_user_dictionary.py:46-47 | while the entry exists, visiting the next member does not raise, and afterwards the visited members are exactly those removed |
| ConversationRegistry.CloseRaises | chat/conversation_user_dictionary.py:46-47 | visiting a member after the entry was deleted is the raising case, reached with every member already evicted |
| ConversationRegistry.CloseEnds | chat/conversation_user_dictionary.py:46-47 | a loop that visits every member completes in the state that closing describes |
| ConversationRegistry.ConversationUserDictionary.constructor | chat/conversation_user_dictionary.py:4-6 | the new dictionaries are the initial state and satisfy the invariant |
| ConversationRegistry.ConversationUserDictionary.RemoveFromBothDicts | chat/conversation_user_dictionary.py:8-14 | the user is dropped from the conversation's set and from the user map, in safe and in unsafe mode |
| ConversationRegistry.ConversationUserDictionary.RemoveUserFromConversation | chat/conversation_user_dictionary.py:16-27 | the new state and the returned id are those of the removal, and the invariant is kept when the user was recorded in that conversation |
| ConversationRegistry.ConversationUserDictionary.CloseConversation | chat/conversation_user_dictionary.py:29-33 | every member of the copied set is evicted and then the entry is deleted |
| ConversationRegistry.ConversationUserDictionary.AddUserToConversation | chat/conversation_user_dictionary.py:35-40 | the new state is the one the addition describes, and the invariant is kept when the user was unrecorded or already recorded in that conversation |
| ConversationRegistry.ConversationUserDictionary.UserDisconnect | chat/conversation_user_dictionary.py:42-43 | the state and the returned id are those of removing the user from their recorded conversation; the invariant is kept and the user is unrecorded |
| ConversationRegistry.ConversationUserDictionary.ConversationClose | chat/conversation_user_dictionary.py:45-47 | the state and outcome (completed, or the index error) are those of evicting every member one by one, and the invariant is kept |
| ConversationRegistry.ConversationUserDictionary.LeaveAnyPreviousConversationsAndJoin | chat/conversation_user_dictionary.py:49-53 | the new state is that of leaving the recorded conversation and joining the new one, and the invariant is kept |
| ConversationRegistry.ConversationUserDictionary.GetConversationAttendees | chat/conversation_user_dictionary.py:55-56 | when the maps are consistent, each attendee returned is recorded in that conversation |
| ConversationRegistry.ConversationUserDictionary.GetUserConversation | chat/conversation_user_dictionary.py:58-59 | when the maps are consistent, the conversation returned lists the user |
| Matchmaking.ConsumedMembers | chat/match_maker.py:43-54 | a channel has been used exactly when some match pairs it |
| Matchmaking.ConversationIdsMembers | chat/match_maker.py:57-66 | an id is among the created conversations exactly when some match carries it |
| Matchmaking.ConsumedAppend | chat/match_maker.py:52-54 | one more match uses exactly its two channels more |
| Matchmaking.PairingConsumesTwoEach | chat/match_maker.py:43-54 | a pairing uses only snapshot channels, two distinct ones per match |
| Matchmaking.PairingLeavesParity | chat/match_maker.py:44-50 | pairing off half the snapshot leaves one channel when its size is odd and none when it is even |
| Matchmaking.CycleStarts | chat/match_maker.py:43 | at the start of a cycle every snapshot channel is still to pick and nothing is recorded |
| Matchmaking.PairingAppend | chat/match_maker.py:45-53 | two distinct unpicked channels extend a pairing |
| Matchmaking.RecordedAppend | chat/match_maker.py:57-60 | a fresh conversation for the new match's two users keeps the store's bookkeeping |
| Matchmaking.CyclePicksPooled | chat/match_maker.py:45-53 | channels not yet picked are still in the pool, so the match's lookups do not raise |
| Matchmaking.CycleSteps | chat/match_maker.py:45-54 | one pairing step keeps the cycle's bookkeeping |
| Matchmaking.CycleEnds | chat/match_maker.py:44-50 | when at most one channel is left, half the snapshot has been paired and the pool keeps only the odd one out |
| Matchmaking.ConversationStore.constructor | chat/match_maker.py:60 | the store starts empty |
| Matchmaking.ConversationStore.CreateConversation | chat/match_maker.py:60 | a created conversation has an id never used before and the given attendees |
| Matchmaking.MatchMaker.constructor | chat/match_maker.py:8-12 | the pool starts empty and nothing has been reported |
| Matchmaking.MatchMaker.AddToPool | chat/match_maker.py:26-28 | the channel maps to the user, other entries are unchanged, and nothing is reported |
| Matchmaking.MatchMaker.RemoveFromPool | chat/match_maker.py:30-33 | the channel is gone, and a missing channel changes nothing |
| Matchmaking.MatchMaker.PerformUpdate | chat/match_maker.py:35-37 | the hook changes nothing |
| Matchmaking.MatchMaker.CreateMatch | chat/match_maker.py:57-66 | a fresh conversation is created for the two users, both channels leave the pool, and the match is reported only when there is a callback |
| Matchmaking.MatchMaker.SeekMatchesOnce | chat/match_maker.py:43-54 | one cycle pairs off half the snapshot, two distinct channels per match and none twice; it leaves exactly the odd channel in the pool, creates one fresh conversation per match with its two users, changes no earlier conversation, and reports the matches in order |
| Consumers.Validate | chat/consumers.py:28-37 | accepts exactly when the connection is authenticated or the frame carries `"authenticated": "true"`; the flag becomes the same; only a rejection sends, and it sends exactly the error frame |
| Consumers.UnauthenticatedFrameIsNeverAnEcho | chat/consumers.py:36 | the error frame is the serialised text of the error object, sent as a JSON string, so it is never an object and never equal to the echo of a frame |
| Consumers.CarriesAuthentication | chat/consumers.py:32 | a frame authenticates exactly when its `authenticated` field is present and is the string `"true"` |
| Consumers.Receive | chat/consumers.py:18-37 | after a frame the connection is authenticated exactly when it was or the frame carries authentication; an authenticated connection echoes the frame unchanged, and an unauthenticated one sends exactly the error frame |
| Consumers.Run | chat/consumers.py:18-37 | receiving frames in arrival order: a connection that starts authenticated stays authenticated, and exactly one frame is sent per frame received |
| Consumers.Echoes | chat/consumers.py:18-20 | one echo per frame, in order |
| Consumers.Errors | chat/consumers.py:36-37 | n copies of the error frame |
| Consumers.FirstAuthenticating | chat/consumers.py:32-34 | the first frame that authenticates; no earlier frame does |
| Consumers.RunAuthenticatedIsMonotone | chat/consumers.py:28-34 | after any frames, the connection is authenticated exactly when it started so or some frame carried authentication; the flag is never cleared |
| Consumers.RunFromAuthenticated | chat/consumers.py:18-30 | an authenticated connection echoes every frame, in order, and sends nothing else |
| Consumers.RunFromUnauthenticated | chat/consumers.py:18-37 | a fresh connection sends one error frame per frame before the first authenticating one, and echoes that frame and every later one |
| Consumers.RunRejectsFirst | chat/consumers.py:36-37 | a first frame that does not authenticate contributes one error frame and leaves the flag unset |
| Consumers.ChatConsumer.constructor | chat/consumers.py:6-8 | a new connection is unauthenticated and has sent nothing |
| Consumers.ChatConsumer.SetAuthenticated | chat/consumers.py:10-11 | the flag is set and nothing is sent |
| Consumers.ChatConsumer.ValidateAuthenticated | chat/consumers.py:28-37 | the result, the new flag and the frames sent are those validation describes |
| Consumers.ChatConsumer.ReceiveJson | chat/consumers.py:18-20 | the new flag and the frames sent are those of validating the frame and echoing it when accepted |
| Sets.Pick | chat/match_maker.py:45-52 | an arbitrary element of a non-empty set, standing for `random.choice` over the unpicked channels; the registry uses it for iterating over a copied member set (conversation_user_dictionary.py lines 30 and 46) |

## Left out

- Threads: `start_matchmaking`, `stop_matchmaking` and the outer `while` loop with its one-second `time.sleep` are left out. The model is one cycle of the inner loop (`SeekMatchesOnce`). Because the pool is not shared with other threads here, a channel removed by another thread between the snapshot and `_create_match` is not modelled.
- Random choice: `random.choice` becomes an arbitrary pick from the unpicked channels. Every property is proved for every pick. The snapshot list is modelled as a set: dictionary keys are distinct, and the picks are unordered anyway.
- `Conversation.create_conversation` is not part of this model. The model class `Conversation` in `chat/models.py` defines no such method. `ConversationStore` stands in for it and hands out fresh ids from a counter. Its first id is 1, which is also the registry's lobby id. Nothing in `chat/models.py` or in the matchmaker reserves id 1. A created conversation with id 1 would be treated as the lobby and never closed automatically. The model does not connect the store's ids to the registry.
- The callback given to `MatchMaker` (`match_request_found` in `chat/tasks.py`, which sends on the channel layer) is not modelled. The model records each call as an entry in `notified`.
- `print` calls in `seek_matches` and `_create_match` are left out because they are console output only.
- JSON numbers that are not integers have no case in `JValue`, so a frame like `{"authenticated": "true", "x": 1.5}` cannot be written in the model. The gate only looks at the `authenticated` field, so its behaviour on such a frame is the same as on the frame without `x`.
- `connect` and `disconnect` of the consumer, the JSON text encoding, and frames that are not JSON objects are left out. `connect` only accepts the socket and `disconnect` does nothing. A frame's content is modelled as a decoded JSON object.
- Matchmaking.MatchMaker.CreateMatch: requires two distinct pooled channels. The caller always satisfies this, so the `KeyError` that Python raises otherwise is not modelled.
- ConversationRegistry.ConversationUserDictionary.GetConversationAttendees: returns the set as a value. Python returns the live set object, so later mutation through an alias is not modelled.
- ConversationRegistry.ConversationUserDictionary.RemoveUserFromConversation: the invariant is promised only when the user, if recorded, is recorded in that conversation. Callers in this file always pass that conversation. The safe mode is modelled but never used by any caller.
- The middleware, routing, views, serializers, admin and database models are not part of this model.
