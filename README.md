# Ullu chat server: matchmaking and session state

This project models the matchmaking core of the Ullu chat backend, a socket
server that pairs anonymous strangers into two-person rooms. The server keeps
two pieces of process-wide state:

- `waitingQueue`, a FIFO list of socket ids waiting for a stranger;
- `userRooms`, a map from socket id to the room id of its current pair.

Three socket events change that state:

- `find_partner` removes the caller from the queue and shifts off the head as
  its partner. With a partner, it names the room by sorting the two ids and
  joining them with `_`, records that room for both ids, and tells the caller
  it is the initiator and the partner that it is not. Without a partner, it
  appends the caller to the queue and tells it to wait.
- `leave_chat` notifies the caller's room, if it has one, and deletes the
  caller's own entry.
- `disconnect` also drops the caller from the queue.

Each handler runs to completion before the next event is handled, so each one
is an atomic transition.

The project has three modules:

- `RoomNaming` (`RoomNaming.dfy`) models JavaScript's `<` on strings, the
  two-element `sort()` and the join with `_`. It proves that the room id is the
  same whichever side computes it. It also proves that the id determines the
  pair when all ids have one length.
- `WaitingQueue` (`WaitingQueue.dfy`) models `filter(id => id !== x)` as
  `Without`, together with what filtering keeps: order, occurrence counts and
  freedom from duplicates.
- `Matchmaking` (`Matchmaking.dfy`) holds the state as a value (`State`), the
  three handlers as transition functions whose contracts state what each
  handler guarantees, and the lemmas that relate them. It also holds the class
  `ChatServer`. The class has the two fields `waitingQueue` and `userRooms`,
  and its methods update them step by step as the handlers do. Each method is
  proved to end in the state its transition function gives, and to keep the
  invariant `Inv`: no id is queued twice, and every recorded room id is
  non-empty.

The JavaScript truthiness tests `if (partnerId)` and `if (!roomId)` are modelled
as written (`Truthy`): `undefined` and the empty string both count as "none".
So an empty-string id at the head of the queue is shifted off and dropped
without being matched.

The model follows the code as written:

- The requester gets `initiator: true` and the partner `initiator: false` (index.js:73-74).
- The id shifted off the queue is used as the partner without checking that it is still connected (index.js:62-64).
- No message history is kept for a room. The handlers touch only `waitingQueue` and `userRooms` (index.js:41-42).
- `leave_chat` and `disconnect` delete only the caller's own entry of `userRooms`, so the partner keeps its entry (index.js:107, 119).

## Model

| member | source | states |
|---|---|---|
| `RoomNaming.Less` | index.js:65 | The string order of the default `sort()`: a proper prefix comes first. |
| `RoomNaming.LessDecided` | index.js:65 | The rest of that order: no string comes before one of its own prefixes, and otherwise the first differing character decides. |
| `RoomNaming.LessIrreflexive` | index.js:65 | No id sorts strictly before itself under JavaScript's string order. |
| `RoomNaming.LessAsymmetric` | index.js:65 | Two ids are never each strictly before the other. |
| `RoomNaming.LessTotal` | index.js:65 | Two different ids are always ordered one way or the other. |
| `RoomNaming.SortPair` | index.js:65 | `[a, b].sort()` is a permutation of the two ids, in non-decreasing string order. |
| `RoomNaming.SortPairSymmetric` | index.js:65 | Sorting the pair gives the same list whichever id is named first. |
| `RoomNaming.RoomId` | index.js:65 | The room id is one id, then `_`, then the other, and is one character longer than the two together. |
| `RoomNaming.RoomIdSymmetric` | index.js:65 | `RoomId(a, b) == RoomId(b, a)`: both peers compute the same room id. |
| `RoomNaming.RoomIdOrdered` | index.js:65 | The id that is smaller in string order is always written first. |
| `RoomNaming.RoomIdDeterminesPair` | index.js:65 | For ids of equal length, equal room ids come from the same unordered pair. |
| `RoomNaming.RoomIdCollides` | index.js:65 | For ids of different lengths that contain `_`, two different pairs can share a room id. |
| `WaitingQueue.Without` | index.js:60 | After the filter an id is in the queue exactly when it was there and is not the caller; a queue without the caller is returned unchanged. |
| `WaitingQueue.WithoutAppend` | index.js:60 | The filter splits over concatenation, so the remaining waiters keep their order. |
| `WaitingQueue.WithoutCounts` | index.js:114 | The filter removes every occurrence of the caller and keeps the count of every other id. |
| `WaitingQueue.WithoutNoDuplicates` | index.js:60 | Filtering a queue without duplicates leaves it without duplicates. |
| `WaitingQueue.AppendFreshNoDuplicates` | index.js:78 | Pushing an id that is not queued keeps the queue free of duplicates. |
| `Matchmaking.RecordedRoomIsTruthy` | index.js:101-102 | Under the invariant, the `if (!roomId)` guard (also index.js:116-117) fires exactly when the caller has no entry in `userRooms`. |
| `Matchmaking.FindPartnerStep` | index.js:59-81 | There is a match exactly when the filtered queue has a non-empty head. The partner is that head and is never the caller, and the queue becomes the rest in order. Both entries hold `RoomId(self, partner)`, the requester is the only initiator, and every other entry is unchanged. Without a match the table is unchanged and the queue is the filtered queue, less the falsy head that was shifted off, with the caller at the tail. |
| `Matchmaking.FindPartnerQueueCounts` | index.js:60-62 | Afterwards the caller is queued exactly once if waiting and not at all if matched. The id that `shift` took off the head loses one occurrence: the partner after a match, a falsy head otherwise. Every other id keeps its count. |
| `Matchmaking.FindPartnerKeepsInv` | index.js:60-78 | `find_partner` keeps the queue free of duplicates and every room id non-empty. After a match neither the caller nor the partner is queued. |
| `Matchmaking.LeaveChatStep` | index.js:100-108 | The queue is unchanged. A caller without a (truthy) entry causes no change and no emission. Otherwise its room is notified and only its own entry is deleted, so the partner's entry stays. |
| `Matchmaking.DisconnectStep` | index.js:111-123 | Afterwards the caller is not queued, and every other id keeps its count in the queue. The room is notified and only the caller's entry is deleted when it had a (truthy) entry. Otherwise the table is unchanged. |
| `Matchmaking.LeaveAndDisconnectAgree` | index.js:100-123 | Leave and disconnect emit the same and leave the same session table; disconnect only adds the queue filter. |
| `Matchmaking.FifoPairing` | index.js:60-74 | A caller that is not already waiting, facing a head that is not `""`, is paired with exactly that head, and the queue loses exactly that element. |
| `WaitingQueue.RequeueKeepsOthersInOrder` | index.js:60 | A waiter that asks again is taken out of its place, and the other waiters keep their order. |
| `Matchmaking.MatchedRoomIsShared` | index.js:65-74 | The room id sent on a match is the one either side would compute. |
| `Matchmaking.TwoStrangersMeet` | index.js:59-81 | On an empty server `a` waits. When `b` asks next, `b` is paired with `a` and `b` is the initiator. Both record the same room, and the queue is empty. |
| `Matchmaking.LeaveKeepsPartnerEntry` | index.js:100-108 | When one of a matched pair leaves, the room is notified and only the leaver's entry is removed. |
| `Matchmaking.Handle` | index.js:59-123 | Each event goes to its handler. Only the sender's own entry and, on a match, its partner's can change, be added or be removed. Only `find_partner` can match. |
| `Matchmaking.HandleKeepsInv` | index.js:59-123 | Every handler keeps the invariant. |
| `Matchmaking.RunKeepsInv` | index.js:59-123 | Any sequence of events keeps the invariant. |
| `Matchmaking.ReachableQueueHasNoDuplicates` | index.js:41 | From start-up, no sequence of events queues an id twice. |
| `Matchmaking.ChatServer.constructor` | index.js:41-42 | The server starts with an empty queue and an empty table. |
| `Matchmaking.ChatServer.FindPartner` | index.js:59-81 | Updating the fields in place ends in the state and emission of `FindPartnerStep` and keeps the invariant. |
| `Matchmaking.ChatServer.LeaveChat` | index.js:100-108 | Updating the table in place ends in the state and emission of `LeaveChatStep` and keeps the invariant. |
| `Matchmaking.ChatServer.Disconnect` | index.js:111-123 | Updating the fields in place ends in the state and emission of `DisconnectStep` and keeps the invariant. |

## Left out

- The Express app, its CORS and JSON middleware, and the health-check route (index.js:6-24) are HTTP plumbing.
- Building the HTTP and socket.io servers and listening on a port (index.js:29-36, 129-132) are process start-up and I/O.
- The `user_count` broadcast (index.js:47-49, 56, 122) reads the transport's connection count, which is not modelled.
- The room-group calls `socket.join`, `socketsJoin` and `socket.leave` (index.js:67-68, 106) and the actual emits belong to the transport. The emits appear only as the returned `Emitted` value, and group membership is not modelled state.
- The WebRTC signaling handlers (index.js:87-97) forward payloads unchanged to the room and keep no state.
- `console.log` calls are logging only.
- String order is modelled character by character on Dafny `char` (Unicode scalar values). JavaScript compares UTF-16 code units. The two orders agree on ids made of characters from the Basic Multilingual Plane, which includes the transport's generated ids.
- Room ids are modelled as data only. Socket.io room membership, and rooms shared by pairs whose ids collide, are not modelled.
