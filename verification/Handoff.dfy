/** The hand-off of responses from any thread to the event loop: a queue under a
    mutex (`async_ev_notifier`), the producers `room_broadcast`,
    `room_broadcast_except` and `room_send_to`, and the loop callback
    `notify_server_async_cb`.  A critical section or a library call is one
    step; a run is any interleaving of such steps. */
module Handoff {

  datatype Kind = BroadcastExcept | Broadcast | SendTo

  datatype Packet = Packet(kind: Kind, room: int, cid: int, message: seq<char>)

  /** A producer call: nothing under way, a packet made but not enqueued, or
      enqueued (if the notifier was initialised) and not yet notified. */
  datatype Producer = Quiet | Made(packet: Packet) | MustNotify(queued: bool)

  /** The loop: outside the callback, about to dequeue, or holding a packet. */
  datatype Loop = Idle | Draining | Holding(packet: Packet)

  /** How a packet ended: deleted, sent or not, with the rooms of that moment. */
  datatype Ended = Ended(packet: Packet, sent: bool, rooms: map<int, set<int>>)

  datatype State = State(
    inited: bool, queue: seq<Packet>, pending: bool, loop: Loop,
    producers: map<nat, Producer>, rooms: map<int, set<int>>,
    made: seq<Packet>, enqueued: seq<Packet>, lost: seq<Packet>, ended: seq<Ended>)

  datatype Action =
    | Init
    | Call(pid: nat, request: Packet)
    | Enqueue(pid: nat)
    | Notify(pid: nat)
    | WakeUp
    | Dequeue
    | Process
    | ChangeRooms(newRooms: map<int, set<int>>)

  function ProducerOf(s: State, pid: nat): Producer {
    if pid in s.producers then s.producers[pid] else Quiet
  }

  predicate Enabled(s: State, a: Action) {
    match a
    case Init => true
    case Call(pid, _) => ProducerOf(s, pid).Quiet?
    case Enqueue(pid) => ProducerOf(s, pid).Made?
    case Notify(pid) => ProducerOf(s, pid).MustNotify?
    case WakeUp => s.loop.Idle? && s.pending
    case Dequeue => s.loop.Draining?
    case Process => s.loop.Holding?
    case ChangeRooms(_) => true
  }

  /** The room must exist, and for two of the kinds the player must be in it. */
  predicate IsSent(p: Packet, rooms: map<int, set<int>>) {
    p.room in rooms && (p.kind.Broadcast? || p.cid in rooms[p.room])
  }

  function Apply(s: State, a: Action): State
    requires Enabled(s, a)
  {
    match a
    case Init => s.(inited := true)
    case Call(pid, p) =>
      if p.message == [] || p.room !in s.rooms then s
      else s.(producers := s.producers[pid := Made(p)], made := s.made + [p])
    case Enqueue(pid) =>
      var p := s.producers[pid].packet;
      if s.inited then
        s.(queue := s.queue + [p], enqueued := s.enqueued + [p], producers := s.producers[pid := MustNotify(true)])
      else
        s.(lost := s.lost + [p], producers := s.producers[pid := MustNotify(false)])
    case Notify(pid) =>
      s.(pending := s.pending || s.inited, producers := s.producers[pid := Quiet])
    case WakeUp => s.(pending := false, loop := Draining)
    case Dequeue =>
      if s.queue == [] then s.(loop := Idle)
      else s.(queue := s.queue[1..], loop := Holding(s.queue[0]))
    case Process =>
      var p := s.loop.packet;
      s.(loop := Draining, ended := s.ended + [Ended(p, IsSent(p, s.rooms), s.rooms)])
    case ChangeRooms(rooms) => s.(rooms := rooms)
  }

  function Initial(): State {
    State(false, [], false, Idle, map[], map[], [], [], [], [])
  }

  ghost predicate IsRun(s: State, actions: seq<Action>)
    decreases |actions|
  {
    actions != [] ==> Enabled(s, actions[0]) && IsRun(Apply(s, actions[0]), actions[1..])
  }

  ghost function After(s: State, actions: seq<Action>): State
    requires IsRun(s, actions)
    decreases |actions|
  {
    if actions == [] then s else After(Apply(s, actions[0]), actions[1..])
  }

  // ----- The invariant -----

  ghost predicate SomeoneWillNotify(s: State) {
    WillNotify(s.producers)
  }

  ghost predicate WillNotify(producers: map<nat, Producer>) {
    exists pid: nat :: pid in producers && producers[pid] == MustNotify(true)
  }

  function Held(s: State): seq<Packet> {
    if s.loop.Holding? then [s.loop.packet] else []
  }

  function Packets(ended: seq<Ended>): (r: seq<Packet>)
    ensures |r| == |ended| && forall i :: 0 <= i < |r| ==> r[i] == ended[i].packet
  {
    seq(|ended|, i requires 0 <= i < |ended| => ended[i].packet)
  }

  ghost predicate Inv(s: State) {
    (s.queue != [] ==> s.pending || !s.loop.Idle? || SomeoneWillNotify(s)) &&
    s.enqueued == Packets(s.ended) + Held(s) + s.queue &&
    (SomeoneWillNotify(s) || s.enqueued != [] || s.pending || !s.loop.Idle? ==> s.inited) &&
    (forall i :: 0 <= i < |s.ended| ==> s.ended[i].sent == IsSent(s.ended[i].packet, s.ended[i].rooms)) &&
    (forall i :: 0 <= i < |s.enqueued| ==> s.enqueued[i].message != []) &&
    (forall pid: nat :: pid in s.producers && s.producers[pid].Made? ==> s.producers[pid].packet.message != [])
  }

  lemma PacketsSnoc(ended: seq<Ended>, e: Ended)
    ensures Packets(ended + [e]) == Packets(ended) + [e.packet]
  {
  }

  lemma ProducerStepInv(s: State, a: Action)
    requires Inv(s) && Enabled(s, a) && (a.Call? || a.Enqueue? || a.Notify?)
    ensures Inv(Apply(s, a))
  {
    var t := Apply(s, a);
    match a {
      case Enqueue(pid) =>
        if s.inited {
          assert t.producers[pid] == MustNotify(true);
        } else {
          WillNotifyElsewhere(s, t, pid);
        }
      case Notify(pid) =>
        WillNotifyElsewhere(s, t, pid);
        if !s.inited {
          assert !SomeoneWillNotify(s);
        }
      case Call(pid, p) => WillNotifyElsewhere(s, t, pid);
    }
  }

  lemma DequeueInv(s: State)
    requires Inv(s) && s.loop.Draining?
    ensures Inv(Apply(s, Dequeue))
  {
    hide WillNotify, IsSent, Packets;
    if s.queue != [] {
      assert s.queue == [s.queue[0]] + s.queue[1..];
    }
  }

  lemma ProcessInv(s: State)
    requires Inv(s) && s.loop.Holding?
    ensures Inv(Apply(s, Process))
  {
    var p := s.loop.packet;
    var e := Ended(p, IsSent(p, s.rooms), s.rooms);
    PacketsSnoc(s.ended, e);
    hide WillNotify, IsSent, Packets;
    assert Packets(s.ended) + [p] + s.queue == Packets(s.ended + [e]) + [] + s.queue;
  }

  lemma StepInv(s: State, a: Action)
    requires Inv(s) && Enabled(s, a)
    ensures Inv(Apply(s, a))
  {
    hide WillNotify, IsSent, Packets;
    if a.Dequeue? {
      DequeueInv(s);
    } else if a.Process? {
      ProcessInv(s);
    } else if a.Call? || a.Enqueue? || a.Notify? {
      ProducerStepInv(s, a);
    }
  }

  lemma WillNotifyElsewhere(s: State, t: State, pid: nat)
    requires forall q: nat :: q != pid ==> ProducerOf(t, q) == ProducerOf(s, q)
    requires ProducerOf(t, pid) == ProducerOf(s, pid) || ProducerOf(t, pid) != MustNotify(true)
    ensures SomeoneWillNotify(t) ==> SomeoneWillNotify(s)
    ensures SomeoneWillNotify(s) ==> SomeoneWillNotify(t) || ProducerOf(s, pid) == MustNotify(true)
  {
    if q: nat :| q in s.producers && s.producers[q] == MustNotify(true) {
      assert ProducerOf(s, q) == MustNotify(true);
      if q != pid {
        assert ProducerOf(t, q) == MustNotify(true);
        assert q in t.producers && t.producers[q] == MustNotify(true);
      }
    }
    if q: nat :| q in t.producers && t.producers[q] == MustNotify(true) {
      assert ProducerOf(t, q) == MustNotify(true) == ProducerOf(s, q);
      assert q in s.producers && s.producers[q] == MustNotify(true);
    }
  }

  lemma {:induction false} RunInv(s: State, actions: seq<Action>)
    requires Inv(s) && IsRun(s, actions)
    ensures Inv(After(s, actions))
    decreases |actions|
  {
    if actions != [] {
      StepInv(s, actions[0]);
      RunInv(Apply(s, actions[0]), actions[1..]);
    }
  }

  lemma Reachable(actions: seq<Action>)
    requires IsRun(Initial(), actions)
    ensures Inv(After(Initial(), actions))
  {
    RunInv(Initial(), actions);
  }

  // ----- The theorems about all interleavings -----

  /** A queued packet is never stranded: a wake-up is pending, the callback is
      running, or some producer has yet to notify. */
  lemma NoStrandedPacket(actions: seq<Action>)
    requires IsRun(Initial(), actions)
    ensures var s := After(Initial(), actions);
      s.queue != [] ==> s.pending || !s.loop.Idle? || SomeoneWillNotify(s)
  {
    Reachable(actions);
  }

  /** Packets leave in the order in which they were enqueued, each is deleted
      once, and each was sent exactly if its room (and player) was there. */
  lemma DeletedInOrderOnce(actions: seq<Action>)
    requires IsRun(Initial(), actions)
    ensures var s := After(Initial(), actions);
      s.enqueued == Packets(s.ended) + Held(s) + s.queue &&
      forall e :: e in s.ended ==>
        e.packet.message != [] && (e.sent ==> e.packet.room in e.rooms) &&
        (e.sent <==> IsSent(e.packet, e.rooms))
  {
    Reachable(actions);
    var s := After(Initial(), actions);
    forall e | e in s.ended ensures e.packet.message != [] && (e.sent <==> IsSent(e.packet, e.rooms)) {
      var i :| 0 <= i < |s.ended| && s.ended[i] == e;
      assert s.enqueued[i] == Packets(s.ended)[i] == e.packet;
    }
  }

  /** The loop alone, until it is idle with no wake-up pending. */
  ghost function LoopAlone(s: State): State
    decreases |s.queue|, if s.pending then 1 else 0, if s.loop.Idle? then 0 else if s.loop.Draining? then 1 else 2
  {
    if s.loop.Holding? then LoopAlone(Apply(s, Process))
    else if s.loop.Draining? && s.queue != [] then LoopAlone(Apply(Apply(s, Dequeue), Process))
    else if s.loop.Draining? then LoopAlone(Apply(s, Dequeue))
    else if s.pending then LoopAlone(Apply(s, WakeUp))
    else s
  }

  lemma {:induction false} LoopAloneDrains(s: State)
    requires Inv(s)
    ensures var t := LoopAlone(s);
      Inv(t) && t.loop.Idle? && !t.pending && t.producers == s.producers && t.enqueued == s.enqueued
    decreases |s.queue|, if s.pending then 1 else 0, if s.loop.Idle? then 0 else if s.loop.Draining? then 1 else 2
  {
    if s.loop.Holding? {
      StepInv(s, Process);
      LoopAloneDrains(Apply(s, Process));
    } else if s.loop.Draining? && s.queue != [] {
      StepInv(s, Dequeue);
      StepInv(Apply(s, Dequeue), Process);
      LoopAloneDrains(Apply(Apply(s, Dequeue), Process));
    } else if s.loop.Draining? {
      StepInv(s, Dequeue);
      LoopAloneDrains(Apply(s, Dequeue));
    } else if s.pending {
      StepInv(s, WakeUp);
      LoopAloneDrains(Apply(s, WakeUp));
    }
  }

  /** However calls, wake-ups and the callback interleaved: once every producer
      that enqueued has also notified, the loop needs no further event to delete
      every packet ever enqueued, in order. */
  lemma EverythingIsDelivered(actions: seq<Action>)
    requires IsRun(Initial(), actions)
    requires !SomeoneWillNotify(After(Initial(), actions))
    ensures var s := After(Initial(), actions);
      var t := LoopAlone(s);
      t.queue == [] && Packets(t.ended) == s.enqueued
  {
    Reachable(actions);
    var s := After(Initial(), actions);
    LoopAloneDrains(s);
    assert !SomeoneWillNotify(LoopAlone(s));
  }

  /** Once the notifier is initialised, no packet is lost any more. */
  lemma {:induction false} LostOnlyBeforeInit(s: State, actions: seq<Action>)
    requires s.inited && IsRun(s, actions)
    ensures After(s, actions).inited && After(s, actions).lost == s.lost
    decreases |actions|
  {
    if actions != [] {
      LostOnlyBeforeInit(Apply(s, actions[0]), actions[1..]);
    }
  }

  /** The producers that have made `p` and not yet handed it over. */
  ghost function Holders(producers: map<nat, Producer>, p: Packet): set<nat> {
    set pid | pid in producers && producers[pid] == Made(p)
  }

  /** As often as `p` was made, it was enqueued, lost, or is still held. */
  ghost predicate Accounted(s: State, p: Packet) {
    multiset(s.made)[p] ==
      multiset(s.enqueued)[p] + multiset(s.lost)[p] + |Holders(s.producers, p)|
  }

  lemma SizeWithout(a: set<nat>, b: set<nat>, x: nat)
    requires a - {x} == b - {x}
    ensures |a| - (if x in a then 1 else 0) == |b| - (if x in b then 1 else 0)
  {
    assert |a - {x}| == |a| - if x in a then 1 else 0;
    assert |b - {x}| == |b| - if x in b then 1 else 0;
  }

  lemma HoldersUpdate(producers: map<nat, Producer>, pid: nat, next: Producer, p: Packet)
    ensures var before, after := Holders(producers, p), Holders(producers[pid := next], p);
      (pid in after <==> next == Made(p)) &&
      |after| - (if pid in after then 1 else 0) == |before| - (if pid in before then 1 else 0)
  {
    SizeWithout(Holders(producers, p), Holders(producers[pid := next], p), pid);
  }

  lemma StepAccounts(s: State, a: Action, p: Packet)
    requires Accounted(s, p) && Enabled(s, a)
    ensures Accounted(Apply(s, a), p)
  {
    hide Holders, IsSent;
    match a
    case Call(pid, request) => CallAccounts(s, pid, request, p);
    case Enqueue(pid) => EnqueueAccounts(s, pid, p);
    case Notify(pid) => HeldBy(s, pid, p); HoldersUpdate(s.producers, pid, Quiet, p);
    case _ =>
  }

  lemma CallAccounts(s: State, pid: nat, request: Packet, p: Packet)
    requires Accounted(s, p) && Enabled(s, Call(pid, request))
    ensures Accounted(Apply(s, Call(pid, request)), p)
  {
    hide Holders;
    HeldBy(s, pid, p);
    HoldersUpdate(s.producers, pid, Made(request), p);
    CountSnoc(s.made, request, p);
  }

  lemma EnqueueAccounts(s: State, pid: nat, p: Packet)
    requires Accounted(s, p) && Enabled(s, Enqueue(pid))
    ensures Accounted(Apply(s, Enqueue(pid)), p)
  {
    hide Holders;
    HeldBy(s, pid, p);
    HoldersUpdate(s.producers, pid, MustNotify(s.inited), p);
    CountSnoc(s.enqueued, s.producers[pid].packet, p);
    CountSnoc(s.lost, s.producers[pid].packet, p);
  }

  lemma CountSnoc(ps: seq<Packet>, last: Packet, p: Packet)
    ensures multiset(ps + [last])[p] == multiset(ps)[p] + if last == p then 1 else 0
  {
  }

  lemma HeldBy(s: State, pid: nat, p: Packet)
    ensures pid in Holders(s.producers, p) <==> ProducerOf(s, pid) == Made(p)
  {
  }

  lemma {:induction false} RunAccounts(s: State, actions: seq<Action>, p: Packet)
    requires Accounted(s, p) && IsRun(s, actions)
    ensures Accounted(After(s, actions), p)
    decreases |actions|
  {
    hide Accounted, Enabled, Apply;
    if actions != [] {
      StepAccounts(s, actions[0], p);
      RunAccounts(Apply(s, actions[0]), actions[1..], p);
    }
  }

  /** In every reachable state each packet made is in exactly one place: among
      the enqueued ones, among the lost ones, or with its producer. */
  lemma EveryPacketIsSomewhere(actions: seq<Action>, p: Packet)
    requires IsRun(Initial(), actions)
    ensures Accounted(After(Initial(), actions), p)
  {
    assert Holders(map[], p) == {};
    RunAccounts(Initial(), actions, p);
  }

  lemma {:induction false} RunConcat(s: State, a: seq<Action>, b: seq<Action>)
    ensures IsRun(s, a + b) <==> IsRun(s, a) && IsRun(After(s, a), b)
    ensures IsRun(s, a + b) ==> After(s, a + b) == After(After(s, a), b)
    decreases |a|
  {
    hide Enabled, Apply;
    if a == [] {
      assert a + b == b;
    } else if Enabled(s, a[0]) {
      assert (a + b)[1..] == a[1..] + b && (a + b)[0] == a[0];
      RunConcat(Apply(s, a[0]), a[1..], b);
    }
  }

  lemma RunOne(s: State, a: Action)
    ensures IsRun(s, [a]) <==> Enabled(s, a)
    ensures Enabled(s, a) ==> After(s, [a]) == Apply(s, a)
  {
    assert [a][1..] == [];
    if Enabled(s, a) {
      assert IsRun(Apply(s, a), []);
    }
  }

  lemma RunSnoc(s: State, actions: seq<Action>, a: Action)
    requires IsRun(s, actions) && Enabled(After(s, actions), a)
    ensures IsRun(s, actions + [a]) && After(s, actions + [a]) == Apply(After(s, actions), a)
  {
    RunConcat(s, actions, [a]);
    RunOne(After(s, actions), a);
  }

  // ----- The history, from the actions alone -----

  /** The rooms after the actions. */
  ghost function RoomsAfter(actions: seq<Action>, rooms: map<int, set<int>>): map<int, set<int>>
    decreases |actions|
  {
    if actions == [] then rooms
    else RoomsAfter(actions[1..], if actions[0].ChangeRooms? then actions[0].newRooms else rooms)
  }

  ghost predicate Acceptable(a: Action, rooms: map<int, set<int>>) {
    a.Call? && a.request.message != [] && a.request.room in rooms
  }

  /** The requests with a message to a room present at the time of the call. */
  ghost function Requested(actions: seq<Action>, rooms: map<int, set<int>>): seq<Packet>
    decreases |actions|
  {
    if actions == [] then []
    else
      (if Acceptable(actions[0], rooms) then [actions[0].request] else []) +
      Requested(actions[1..], RoomsAfter([actions[0]], rooms))
  }

  ghost function HeldAfter(a: Action, rooms: map<int, set<int>>, held: map<nat, Packet>): map<nat, Packet> {
    if Acceptable(a, rooms) then held[a.pid := a.request] else held
  }

  /** The packets handed over while the notifier was initialised (`when`), or
      not; `held` are the requests of the calls under way. */
  ghost function HandedOver(actions: seq<Action>, rooms: map<int, set<int>>, held: map<nat, Packet>,
                            inited: bool, when: bool): seq<Packet>
    decreases |actions|
  {
    if actions == [] then []
    else
      var a := actions[0];
      (if a.Enqueue? && a.pid in held && inited == when then [held[a.pid]] else []) +
      HandedOver(actions[1..], RoomsAfter([a], rooms), HeldAfter(a, rooms, held),
                 inited || a.Init?, when)
  }

  /** The rooms at the moments when a packet is processed. */
  ghost function RoomsSeen(actions: seq<Action>, rooms: map<int, set<int>>): seq<map<int, set<int>>>
    decreases |actions|
  {
    if actions == [] then []
    else (if actions[0].Process? then [rooms] else []) + RoomsSeen(actions[1..], RoomsAfter([actions[0]], rooms))
  }

  ghost function EndRooms(ended: seq<Ended>): (r: seq<map<int, set<int>>>)
    ensures |r| == |ended| && forall i :: 0 <= i < |r| ==> r[i] == ended[i].rooms
  {
    seq(|ended|, i requires 0 <= i < |ended| => ended[i].rooms)
  }

  ghost predicate Holds(s: State, held: map<nat, Packet>) {
    forall pid: nat :: ProducerOf(s, pid).Made? ==> pid in held && held[pid] == ProducerOf(s, pid).packet
  }

  lemma RoomsAfterOne(a: Action, rooms: map<int, set<int>>)
    ensures RoomsAfter([a], rooms) == if a.ChangeRooms? then a.newRooms else rooms
  {
    assert [a][1..] == [];
  }

  /** What one step adds to the history. */
  lemma StepHistory(s: State, a: Action, held: map<nat, Packet>)
    requires Enabled(s, a) && Holds(s, held)
    ensures var t := Apply(s, a);
      t.rooms == RoomsAfter([a], s.rooms) && t.inited == (s.inited || a.Init?) &&
      t.made == s.made + (if Acceptable(a, s.rooms) then [a.request] else []) &&
      t.enqueued == s.enqueued + (if a.Enqueue? && a.pid in held && s.inited then [held[a.pid]] else []) &&
      t.lost == s.lost + (if a.Enqueue? && a.pid in held && !s.inited then [held[a.pid]] else []) &&
      EndRooms(t.ended) == EndRooms(s.ended) + (if a.Process? then [s.rooms] else []) &&
      Holds(t, HeldAfter(a, s.rooms, held))
  {
    RoomsAfterOne(a, s.rooms);
    hide IsSent;
  }

  lemma {:induction false} RunHistory(s: State, actions: seq<Action>, held: map<nat, Packet>)
    requires IsRun(s, actions) && Holds(s, held)
    ensures var t := After(s, actions);
      t.rooms == RoomsAfter(actions, s.rooms) &&
      t.made == s.made + Requested(actions, s.rooms) &&
      t.enqueued == s.enqueued + HandedOver(actions, s.rooms, held, s.inited, true) &&
      t.lost == s.lost + HandedOver(actions, s.rooms, held, s.inited, false) &&
      EndRooms(t.ended) == EndRooms(s.ended) + RoomsSeen(actions, s.rooms)
    decreases |actions|
  {
    hide Apply, Enabled, Holds, Acceptable, HeldAfter, EndRooms;
    if actions != [] {
      var a, rest := actions[0], actions[1..];
      var u, now, held' := Apply(s, a), RoomsAfter([a], s.rooms), HeldAfter(a, s.rooms, held);
      StepHistory(s, a, held);
      RoomsAfterOne(a, s.rooms);
      RunHistory(u, rest, held');
      hide IsRun, After, RoomsAfter;
      Joined(s.made, u.made, Requested(rest, now), Requested(actions, s.rooms));
      Joined(s.enqueued, u.enqueued, HandedOver(rest, now, held', u.inited, true),
             HandedOver(actions, s.rooms, held, s.inited, true));
      Joined(s.lost, u.lost, HandedOver(rest, now, held', u.inited, false),
             HandedOver(actions, s.rooms, held, s.inited, false));
      Joined(EndRooms(s.ended), EndRooms(u.ended), RoomsSeen(rest, now), RoomsSeen(actions, s.rooms));
    }
  }

  lemma Joined<T>(a: seq<T>, b: seq<T>, c: seq<T>, all: seq<T>)
    requires |a| <= |b| && b[..|a|] == a && all == b[|a|..] + c
    ensures b + c == a + all
  {
  }

  /** Packets are the arguments of acceptable calls, enqueued or lost in the order
      in which they were handed over, and judged by the rooms of the moment. */
  lemma HistoryIsFaithful(actions: seq<Action>)
    requires IsRun(Initial(), actions)
    ensures var s := After(Initial(), actions);
      s.made == Requested(actions, map[]) &&
      s.enqueued == HandedOver(actions, map[], map[], false, true) &&
      s.lost == HandedOver(actions, map[], map[], false, false) &&
      EndRooms(s.ended) == RoomsSeen(actions, map[])
  {
    RunHistory(Initial(), actions, map[]);
    assert EndRooms([]) == [];
  }

  /** When a packet is sent, kind by kind. */
  lemma WhenSent(p: Packet, rooms: map<int, set<int>>)
    ensures p.room !in rooms ==> !IsSent(p, rooms)
    ensures p.room in rooms && p.kind == Broadcast ==> IsSent(p, rooms)
    ensures p.room in rooms && (p.kind == BroadcastExcept || p.kind == SendTo) ==>
      (IsSent(p, rooms) <==> p.cid in rooms[p.room])
  {
  }

  // ----- The notifier as an object: its calls are steps of the machine -----

  class Notifier {
    var queue: seq<Packet>
    var inited: bool
    var asyncSent: bool

    ghost predicate Shows(s: State)
      reads this
    {
      queue == s.queue && inited == s.inited && asyncSent == s.pending
    }

    constructor ()
      ensures Shows(Initial())
    {
      queue, inited, asyncSent := [], false, false;
    }

    method InitLoop(ghost s: State)
      requires Shows(s)
      modifies this`inited
      ensures Shows(Apply(s, Init))
    {
      if inited {
        return;
      }
      inited := true;
    }

    method EnqueueResponse(p: Packet, ghost s: State, ghost pid: nat)
      requires Shows(s) && ProducerOf(s, pid) == Made(p)
      modifies this`queue
      ensures Shows(Apply(s, Enqueue(pid)))
    {
      if !inited {
        return;
      }
      queue := queue + [p];
    }

    method NotifyMainThread(ghost s: State, ghost pid: nat)
      requires Shows(s) && ProducerOf(s, pid).MustNotify?
      modifies this`asyncSent
      ensures Shows(Apply(s, Notify(pid)))
    {
      if !inited {
        return;
      }
      asyncSent := true;
    }

    method DequeueResponse(ghost s: State) returns (p: Packet, found: bool)
      requires Shows(s) && s.loop.Draining? && Inv(s)
      modifies this`queue
      ensures Shows(Apply(s, Dequeue))
      ensures Apply(s, Dequeue).loop == if found then Holding(p) else Idle
    {
      if !inited || queue == [] {
        return Packet(Broadcast, 0, 0, []), false;
      }
      p, found := queue[0], true;
      queue := queue[1..];
    }

    /** `room_broadcast_except`, `room_broadcast` and `room_send_to`, undisturbed:
        a call, and for an acceptable request an enqueue and a notify step. */
    method Send(request: Packet, rooms: map<int, set<int>>, ghost s: State, ghost pid: nat) returns (ok: bool)
      requires Shows(s) && s.rooms == rooms && ProducerOf(s, pid).Quiet?
      modifies this`queue, this`asyncSent
      ensures ok <==> request.message != [] && request.room in rooms
      ensures var steps := [Call(pid, request)] + if ok then [Enqueue(pid), Notify(pid)] else [];
        IsRun(s, steps) && Shows(After(s, steps)) && ProducerOf(After(s, steps), pid).Quiet?
      ensures ok && inited ==> queue == old(queue) + [request] && asyncSent
    {
      RunOne(s, Call(pid, request));
      if request.message == [] || request.room !in rooms {
        assert [Call(pid, request)] + [] == [Call(pid, request)];
        return false;
      }
      ghost var s1 := Apply(s, Call(pid, request));
      EnqueueResponse(request, s1, pid);
      ghost var s2 := Apply(s1, Enqueue(pid));
      NotifyMainThread(s2, pid);
      RunSnoc(s, [Call(pid, request)], Enqueue(pid));
      RunSnoc(s, [Call(pid, request)] + [Enqueue(pid)], Notify(pid));
      assert [Call(pid, request)] + [Enqueue(pid)] + [Notify(pid)] ==
        [Call(pid, request)] + [Enqueue(pid), Notify(pid)];
      return true;
    }

    /** `notify_server_async_cb`, undisturbed: a run of dequeue and process steps
        that ends idle; returns what it sent and deleted. */
    method OnAsync(rooms: map<int, set<int>>, ghost s: State)
      returns (sent: seq<Packet>, deleted: seq<Packet>, ghost steps: seq<Action>)
      requires Shows(s) && Inv(s) && s.loop.Draining? && s.rooms == rooms
      modifies this`queue
      ensures queue == [] && deleted == old(queue)
      ensures sent == SentOf(old(queue), rooms)
      ensures IsRun(s, steps) && Shows(After(s, steps)) && After(s, steps).loop.Idle?
      ensures Packets(After(s, steps).ended) == Packets(s.ended) + deleted
    {
      hide Inv, IsRun, After, Apply, IsSent, SentOf, Packets;
      sent, deleted, steps := [], [], [];
      ghost var all := queue;
      ghost var t := s;
      StartRun(s, rooms);
      var p, found;
      p, found, t, steps := TakeNext(s, t, steps);
      while found
        invariant IsRun(s, steps) && t == After(s, steps) && Inv(t) && Shows(t)
        invariant t.loop == (if found then Holding(p) else Idle) && t.rooms == rooms
        invariant !found ==> queue == []
        invariant deleted + Front(p, found) + queue == all
        invariant sent == SentOf(deleted, rooms) && Packets(t.ended) == Packets(s.ended) + deleted
        decreases |queue|, found
      {
        SentSnoc(deleted, p, rooms);
        sent := SendOne(p, rooms, sent);
        deleted := deleted + [p];
        t, steps := Finish(s, t, steps);
        p, found, t, steps := TakeNext(s, t, steps);
      }
    }

    method TakeNext(ghost s: State, ghost t: State, ghost steps: seq<Action>)
      returns (p: Packet, found: bool, ghost u: State, ghost more: seq<Action>)
      requires IsRun(s, steps) && t == After(s, steps) && Inv(t) && Shows(t) && t.loop.Draining?
      modifies this`queue
      ensures IsRun(s, more) && u == After(s, more) && Inv(u) && Shows(u)
      ensures u.loop == (if found then Holding(p) else Idle) && u.rooms == t.rooms && u.ended == t.ended
      ensures old(queue) == Front(p, found) + queue && (!found ==> queue == [])
    {
      hide IsRun, After;
      p, found := DequeueResponse(t);
      u, more := Advance(s, t, steps, Dequeue);
    }
  }

  ghost method Finish(s: State, t: State, steps: seq<Action>) returns (u: State, more: seq<Action>)
    requires IsRun(s, steps) && t == After(s, steps) && Inv(t) && t.loop.Holding?
    ensures IsRun(s, more) && u == After(s, more) && Inv(u)
    ensures u.loop.Draining? && u.rooms == t.rooms
    ensures u.queue == t.queue && u.pending == t.pending && u.inited == t.inited
    ensures Packets(u.ended) == Packets(t.ended) + [t.loop.packet]
  {
    hide IsRun, After;
    PacketsSnoc(t.ended, Ended(t.loop.packet, IsSent(t.loop.packet, t.rooms), t.rooms));
    u, more := Advance(s, t, steps, Process);
  }

  /** The switch of the callback for one packet. */
  method SendOne(p: Packet, rooms: map<int, set<int>>, before: seq<Packet>) returns (sent: seq<Packet>)
    ensures sent == before + if IsSent(p, rooms) then [p] else []
  {
    sent := before;
    if p.room in rooms {
      match p.kind
      case Broadcast => sent := sent + [p];
      case BroadcastExcept =>
        if p.cid in rooms[p.room] {
          sent := sent + [p];
        }
      case SendTo =>
        if p.cid in rooms[p.room] {
          sent := sent + [p];
        }
    }
  }

  ghost method Advance(s: State, t: State, steps: seq<Action>, a: Action) returns (u: State, more: seq<Action>)
    requires IsRun(s, steps) && t == After(s, steps) && Inv(t) && Enabled(t, a)
    ensures u == Apply(t, a) && more == steps + [a]
    ensures IsRun(s, more) && u == After(s, more) && Inv(u)
  {
    StepInv(t, a);
    RunSnoc(s, steps, a);
    u, more := Apply(t, a), steps + [a];
  }

  lemma StartRun(s: State, rooms: map<int, set<int>>)
    ensures IsRun(s, []) && After(s, []) == s && SentOf([], rooms) == []
  {
  }

  ghost function Front(p: Packet, found: bool): seq<Packet> {
    if found then [p] else []
  }

  lemma {:induction false} SentSnoc(ps: seq<Packet>, p: Packet, rooms: map<int, set<int>>)
    ensures SentOf(ps + [p], rooms) == SentOf(ps, rooms) + if IsSent(p, rooms) then [p] else []
  {
    hide IsSent;
    if ps == [] {
      assert ps + [p] == [p] && [p][1..] == [];
    } else {
      var head := if IsSent(ps[0], rooms) then [ps[0]] else [];
      assert (ps + [p])[1..] == ps[1..] + [p] && (ps + [p])[0] == ps[0];
      assert SentOf(ps, rooms) == head + SentOf(ps[1..], rooms);
      assert SentOf(ps + [p], rooms) == head + SentOf(ps[1..] + [p], rooms);
      hide SentOf;
      SentSnoc(ps[1..], p, rooms);
    }
  }

  ghost function SentOf(ps: seq<Packet>, rooms: map<int, set<int>>): seq<Packet> {
    if ps == [] then [] else (if IsSent(ps[0], rooms) then [ps[0]] else []) + SentOf(ps[1..], rooms)
  }
}
