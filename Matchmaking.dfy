/**
 * The chat server's matchmaking and session state: a FIFO queue of socket
 * ids waiting for a stranger, and a table from socket id to room id. Three
 * socket events change it (`find_partner`, `leave_chat`, `disconnect`); each
 * handler runs to completion before the next event is handled, so each is
 * one atomic transition. The transitions are given first as functions on
 * values, with what they guarantee, and then as the methods of a class that
 * updates the two pieces of state in place as the handlers do.
 */
module Matchmaking {
  import opened RoomNaming
  import opened WaitingQueue

  datatype Option<T> = None | Some(value: T)

  /** What a handler emits over the transport, as a value. */
  datatype Emitted =
    | Waiting
      // `match_found` to the caller and to the partner, with the two initiator flags
    | MatchFound(roomId: string, selfInitiator: bool, partner: string, partnerInitiator: bool)
      // `partner_disconnected` to the other members of the room
    | PartnerNotified(roomId: string)
    | NoOp

  /** The process-wide state: `waitingQueue` and `userRooms`. */
  datatype State = State(queue: seq<string>, rooms: map<string, string>)

  /** The result of one handler: the new state and what was emitted. */
  datatype Step = Step(state: State, emitted: Emitted)

  /** A socket event, as dispatched to its handler. */
  datatype Event = FindPartnerEvent(id: string) | LeaveChatEvent(id: string) | DisconnectEvent(id: string)

  /** The state at start-up: nobody waiting, nobody in a room. */
  const Initial: State := State([], map[])

  /** JavaScript truthiness of a value that is a string or `undefined`. */
  predicate Truthy(v: Option<string>) {
    v.Some? && v.value != ""
  }

  /** `Map.prototype.get`. */
  function Lookup(m: map<string, string>, k: string): Option<string> {
    if k in m then Some(m[k]) else None
  }

  /**
   * What every reachable state satisfies: no socket id waits twice, and every
   * recorded room id is non-empty (so a recorded room is always truthy).
   */
  ghost predicate Inv(s: State) {
    && NoDuplicates(s.queue)
    && forall u :: u in s.rooms ==> s.rooms[u] != ""
  }

  /**
   * In every state that keeps the invariant, the `if (!roomId)` guard of
   * `leave_chat` and `disconnect` fires exactly when the id has no entry.
   */
  lemma RecordedRoomIsTruthy(s: State, k: string)
    requires Inv(s)
    ensures Truthy(Lookup(s.rooms, k)) <==> k in s.rooms
  {
  }

  /**
   * `find_partner` from `self`: drop `self` from the queue, shift the head off
   * as partner; with a (truthy) partner record the sorted room id for both and
   * make the caller the initiator, otherwise queue the caller at the tail.
   */
  function FindPartnerStep(s: State, self: string): (r: Step)
    // a match happens exactly when someone other than the caller heads the queue
    ensures var q := Without(s.queue, self);
      r.emitted.MatchFound? <==> q != [] && q[0] != ""
    ensures r.emitted.MatchFound? || r.emitted.Waiting?
    // FIFO: the partner is the first waiter other than the caller, the rest keep their order
    ensures r.emitted.MatchFound? ==>
      var q := Without(s.queue, self);
      && r.emitted.partner == q[0]
      && r.emitted.partner != self
      && r.state.queue == q[1..]
    // one room id for both, the caller is the only initiator
    ensures r.emitted.MatchFound? ==>
      && r.emitted.roomId == RoomId(self, r.emitted.partner)
      && r.emitted.selfInitiator
      && !r.emitted.partnerInitiator
    // both entries point at that room, and no other entry changes
    ensures r.emitted.MatchFound? ==>
      var p := r.emitted.partner;
      && self in r.state.rooms && r.state.rooms[self] == r.emitted.roomId
      && p in r.state.rooms && r.state.rooms[p] == r.emitted.roomId
      && r.state.rooms.Keys == s.rooms.Keys + {self, p}
      && forall u :: u in s.rooms && u != self && u != p ==> r.state.rooms[u] == s.rooms[u]
    // no partner: the table is untouched, and the caller is queued at the tail
    // behind the other waiters, less the falsy head that `shift` took off
    ensures r.emitted.Waiting? ==> r.state.rooms == s.rooms
    ensures r.emitted.Waiting? ==>
      var q := Without(s.queue, self);
      r.state.queue == (if q == [] then [] else q[1..]) + [self]
  {
    var q := Without(s.queue, self);                  // filter
    var partnerId := if q == [] then None else Some(q[0]);
    var rest := if q == [] then [] else q[1..];       // shift
    if Truthy(partnerId) then
      var roomId := RoomId(self, partnerId.value);
      Step(State(rest, s.rooms[self := roomId][partnerId.value := roomId]),
           MatchFound(roomId, true, partnerId.value, false))
    else
      Step(State(rest + [self], s.rooms), Waiting)
  }

  /**
   * After `find_partner` the caller occurs in the queue exactly once if it
   * is waiting and not at all if it was matched. Every other id keeps its
   * number of occurrences, except the head that `shift` took off, which
   * loses one: the partner after a match, a falsy `""` head otherwise.
   */
  lemma FindPartnerQueueCounts(s: State, self: string)
    ensures var r := FindPartnerStep(s, self);
      multiset(r.state.queue)[self] == if r.emitted.Waiting? then 1 else 0
    ensures var r := FindPartnerStep(s, self);
      r.emitted.MatchFound? ==>
        forall x :: x != self ==>
          multiset(r.state.queue)[x] + (if x == r.emitted.partner then 1 else 0) == multiset(s.queue)[x]
    ensures var r := FindPartnerStep(s, self); var q := Without(s.queue, self);
      r.emitted.Waiting? ==>
        forall x :: x != self ==>
          multiset(r.state.queue)[x] + (if q != [] && x == q[0] then 1 else 0) == multiset(s.queue)[x]
  {
    var q := Without(s.queue, self);
    WithoutCounts(s.queue, self);
    if q != [] {
      assert q == [q[0]] + q[1..];
    }
  }

  /**
   * `find_partner` keeps the invariant: no id is queued twice afterwards, and
   * a matched partner is no longer queued.
   */
  lemma FindPartnerKeepsInv(s: State, self: string)
    requires Inv(s)
    ensures Inv(FindPartnerStep(s, self).state)
    ensures var r := FindPartnerStep(s, self);
      r.emitted.MatchFound? ==> r.emitted.partner !in r.state.queue && self !in r.state.queue
  {
    WithoutNoDuplicatesHead(s.queue, self);
    WithoutNoDuplicatesTail(s.queue, self);
    FindPartnerQueueCounts(s, self);
  }

  /**
   * `leave_chat` from `self`: with a (truthy) room, notify it and delete the
   * caller's own entry; the queue is not touched.
   */
  function LeaveChatStep(s: State, self: string): (r: Step)
    ensures r.state.queue == s.queue
    ensures r.emitted.NoOp? <==> self !in s.rooms || s.rooms[self] == ""
    ensures r.emitted.NoOp? ==> r.state == s
    ensures r.emitted.PartnerNotified? ==>
      self in s.rooms && r.emitted.roomId == s.rooms[self] && self !in r.state.rooms
    // only the caller's entry can change: the partner keeps its entry
    ensures forall u :: u != self ==>
      (u in r.state.rooms <==> u in s.rooms) && (u in s.rooms ==> r.state.rooms[u] == s.rooms[u])
    ensures r.emitted.NoOp? || r.emitted.PartnerNotified?
    ensures Inv(s) ==> Inv(r.state) && self !in r.state.rooms
  {
    var roomId := Lookup(s.rooms, self);
    if !Truthy(roomId) then
      Step(s, NoOp)
    else
      Step(State(s.queue, s.rooms - {self}), PartnerNotified(roomId.value))
  }

  /**
   * `disconnect` of `self`: drop it from the queue; with a (truthy) room,
   * notify it and delete the caller's own entry.
   */
  function DisconnectStep(s: State, self: string): (r: Step)
    ensures self !in r.state.queue
    ensures forall x :: x != self ==> multiset(r.state.queue)[x] == multiset(s.queue)[x]
    ensures r.emitted.NoOp? <==> self !in s.rooms || s.rooms[self] == ""
    ensures r.emitted.NoOp? ==> r.state.rooms == s.rooms
    ensures r.emitted.PartnerNotified? ==>
      self in s.rooms && r.emitted.roomId == s.rooms[self] && self !in r.state.rooms
    ensures forall u :: u != self ==>
      (u in r.state.rooms <==> u in s.rooms) && (u in s.rooms ==> r.state.rooms[u] == s.rooms[u])
    ensures r.emitted.NoOp? || r.emitted.PartnerNotified?
    ensures Inv(s) ==> Inv(r.state) && self !in r.state.rooms
  {
    WithoutCounts(s.queue, self);
    var queue := Without(s.queue, self);
    WithoutNoDuplicates(s.queue, self);
    var roomId := Lookup(s.rooms, self);
    if Truthy(roomId) then
      Step(State(queue, s.rooms - {self}), PartnerNotified(roomId.value))
    else
      Step(State(queue, s.rooms), NoOp)
  }

  /**
   * Leaving and disconnecting tear a session down alike: the same emission and
   * the same session table; they differ only in that a disconnect also
   * removes the caller from the queue.
   */
  lemma LeaveAndDisconnectAgree(s: State, self: string)
    ensures DisconnectStep(s, self).emitted == LeaveChatStep(s, self).emitted
    ensures DisconnectStep(s, self).state.rooms == LeaveChatStep(s, self).state.rooms
    ensures DisconnectStep(s, self).state.queue == Without(LeaveChatStep(s, self).state.queue, self)
  {
  }

  /**
   * When the caller was not already waiting and the head of the queue is a
   * real id, the caller is paired with exactly that head, and the queue
   * loses exactly its first element.
   */
  lemma FifoPairing(s: State, self: string)
    requires self !in s.queue && s.queue != [] && s.queue[0] != ""
    ensures FindPartnerStep(s, self).emitted == MatchFound(RoomId(self, s.queue[0]), true, s.queue[0], false)
    ensures FindPartnerStep(s, self).state.queue == s.queue[1..]
  {
  }

  /** After a match the two ids name each other's room, whichever side computes it. */
  lemma MatchedRoomIsShared(s: State, self: string)
    requires FindPartnerStep(s, self).emitted.MatchFound?
    ensures var e := FindPartnerStep(s, self).emitted;
      e.roomId == RoomId(self, e.partner) == RoomId(e.partner, self)
  {
    var e := FindPartnerStep(s, self).emitted;
    RoomIdSymmetric(self, e.partner);
  }

  /**
   * Two strangers meet: on an empty server `a` is told to wait; when `b` then
   * asks, `b` is paired with `a`, `b` is the initiator, both are recorded in
   * the same room and nobody is left waiting.
   */
  lemma TwoStrangersMeet(a: string, b: string)
    requires a != b && a != ""
    ensures var first := FindPartnerStep(Initial, a);
      && first.emitted == Waiting
      && first.state == State([a], map[])
      && var second := FindPartnerStep(first.state, b);
      && second.emitted == MatchFound(RoomId(a, b), true, a, false)
      && second.state == State([], map[a := RoomId(a, b), b := RoomId(a, b)])
  {
    RoomIdSymmetric(a, b);
  }

  /**
   * After such a match, `b` leaving notifies the room and drops only `b`'s
   * entry: `a` still records the room although its partner is gone, and
   * stays out of the queue until it asks again.
   */
  lemma LeaveKeepsPartnerEntry(a: string, b: string)
    requires a != b
    ensures var matched := State([], map[a := RoomId(a, b), b := RoomId(a, b)]);
      && LeaveChatStep(matched, b).emitted == PartnerNotified(RoomId(a, b))
      && LeaveChatStep(matched, b).state == State([], map[a := RoomId(a, b)])
  {
    var matched := State([], map[a := RoomId(a, b), b := RoomId(a, b)]);
    assert matched.rooms - {b} == map[a := RoomId(a, b)];
  }

  /**
   * Event dispatch: each event goes to its handler. Whatever the event, the
   * only entries of the session table that can change are the sender's own
   * and, when it is matched, its partner's; only `find_partner` can match.
   */
  function Handle(s: State, e: Event): (r: Step)
    ensures r.emitted.MatchFound? ==> e.FindPartnerEvent?
    ensures forall u :: u in s.rooms && u != e.id && !(r.emitted.MatchFound? && u == r.emitted.partner) ==>
      u in r.state.rooms && r.state.rooms[u] == s.rooms[u]
    ensures forall u :: u in r.state.rooms && u !in s.rooms ==>
      u == e.id || (r.emitted.MatchFound? && u == r.emitted.partner)
  {
    match e
    case FindPartnerEvent(id) => FindPartnerStep(s, id)
    case LeaveChatEvent(id) => LeaveChatStep(s, id)
    case DisconnectEvent(id) => DisconnectStep(s, id)
  }

  /** Every handler keeps the invariant. */
  lemma HandleKeepsInv(s: State, e: Event)
    requires Inv(s)
    ensures Inv(Handle(s, e).state)
  {
    if e.FindPartnerEvent? {
      FindPartnerKeepsInv(s, e.id);
    }
  }

  /** The state after handling `events` one at a time, in order. */
  function Run(s: State, events: seq<Event>): State
    decreases |events|
  {
    if events == [] then s else Run(Handle(s, events[0]).state, events[1..])
  }

  /** Every state the server can reach from start-up keeps the invariant. */
  lemma {:induction false} RunKeepsInv(s: State, events: seq<Event>)
    requires Inv(s)
    ensures Inv(Run(s, events))
    decreases |events|
  {
    if events != [] {
      HandleKeepsInv(s, events[0]);
      RunKeepsInv(Handle(s, events[0]).state, events[1..]);
    }
  }

  /** In particular no socket id is ever queued twice. */
  lemma ReachableQueueHasNoDuplicates(events: seq<Event>)
    ensures NoDuplicates(Run(Initial, events).queue)
  {
    RunKeepsInv(Initial, events);
  }

  /**
   * The server's in-memory storage. The handlers are its methods; each one
   * updates `waitingQueue` and `userRooms` step by step as the handler does
   * and ends in the state its transition function gives.
   */
  class ChatServer {
    var waitingQueue: seq<string>
    var userRooms: map<string, string>

    ghost predicate Valid()
      reads this
    {
      Inv(Snapshot())
    }

    function Snapshot(): State
      reads this
    {
      State(waitingQueue, userRooms)
    }

    constructor ()
      ensures Valid() && Snapshot() == Initial
    {
      waitingQueue := [];
      userRooms := map[];
    }

    method FindPartner(self: string) returns (out: Emitted)
      requires Valid()
      modifies this
      ensures Step(Snapshot(), out) == FindPartnerStep(old(Snapshot()), self)
      ensures Valid()
    {
      ghost var before := Snapshot();
      waitingQueue := Without(waitingQueue, self);
      var partnerId: Option<string> := None;
      if waitingQueue != [] {
        partnerId := Some(waitingQueue[0]);
        waitingQueue := waitingQueue[1..];
      }
      if Truthy(partnerId) {
        var roomId := RoomId(self, partnerId.value);
        userRooms := userRooms[self := roomId];
        userRooms := userRooms[partnerId.value := roomId];
        out := MatchFound(roomId, true, partnerId.value, false);
      } else {
        waitingQueue := waitingQueue + [self];
        out := Waiting;
      }
      FindPartnerKeepsInv(before, self);
    }

    method LeaveChat(self: string) returns (out: Emitted)
      requires Valid()
      modifies this
      ensures Step(Snapshot(), out) == LeaveChatStep(old(Snapshot()), self)
      ensures Valid()
    {
      var roomId := Lookup(userRooms, self);
      if !Truthy(roomId) {
        return NoOp;
      }
      out := PartnerNotified(roomId.value);
      userRooms := userRooms - {self};
    }

    method Disconnect(self: string) returns (out: Emitted)
      requires Valid()
      modifies this
      ensures Step(Snapshot(), out) == DisconnectStep(old(Snapshot()), self)
      ensures Valid()
    {
      waitingQueue := Without(waitingQueue, self);
      var roomId := Lookup(userRooms, self);
      out := NoOp;
      if Truthy(roomId) {
        out := PartnerNotified(roomId.value);
        userRooms := userRooms - {self};
      }
    }
  }
}
