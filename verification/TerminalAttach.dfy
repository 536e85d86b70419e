/** Attaching to a running terminal. The output pump writes each chunk to the replay buffer and then
    fans it out to the subscribers; a client subscribes and then takes a snapshot of the buffer. The
    two run concurrently, each step under its own lock. */
module TerminalAttach {
  import opened Common
  import opened Sequences

  type Chunk = seq<byte>

  const MAX_REPLAY_BYTES: nat := 100 * 1024
  const SUBSCRIBER_BUFFER_SIZE: nat := 256

  // ----- Objects -----

  class ReplayBuffer {
    var buf: seq<byte>
    const capacity: nat
    /** Everything ever written. */
    ghost var written: seq<byte>

    ghost predicate Valid()
      reads this
    {
      buf == Last(written, capacity)
    }

    constructor (capacity: nat)
      ensures Valid() && this.capacity == capacity && written == []
    {
      this.capacity := capacity;
      buf := [];
      written := [];
    }

    method Write(p: seq<byte>)
      requires Valid()
      modifies this
      ensures Valid() && written == old(written) + p
    {
      LastAppend(written, p, capacity);
      buf := buf + p;
      if |buf| > capacity {
        var excess := |buf| - capacity;
        buf := buf[excess..];
      }
      written := written + p;
    }

    method Bytes() returns (r: seq<byte>)
      requires Valid()
      ensures r == Last(written, capacity)
    {
      r := buf;
    }
  }

  /** A non-blocking send on a channel of 256 chunks. */
  function Deliver(queue: seq<Chunk>, c: Chunk): seq<Chunk> {
    if |queue| < SUBSCRIBER_BUFFER_SIZE then queue + [c] else queue
  }

  function FanOut(queues: map<string, seq<Chunk>>, c: Chunk): map<string, seq<Chunk>> {
    map id | id in queues :: Deliver(queues[id], c)
  }

  class Subscribers {
    var queues: map<string, seq<Chunk>>

    constructor ()
      ensures queues == map[]
    {
      queues := map[];
    }

    method Subscribe(id: string)
      modifies this
      ensures queues == old(queues)[id := []]
    {
      queues := queues[id := []];
    }

    method Unsubscribe(id: string)
      modifies this
      ensures queues == old(queues) - {id}
    {
      if id in queues {
        queues := queues - {id};
      }
    }

    /** Walks the map in any order. */
    method FanOutData(data: Chunk)
      modifies this
      ensures queues.Keys == old(queues).Keys
      ensures forall id :: id in queues ==>
                queues[id] == if |old(queues)[id]| < 256 then old(queues)[id] + [data] else old(queues)[id]
      ensures queues == FanOut(old(queues), data)
    {
      var todo := queues.Keys;
      while todo != {}
        invariant todo <= queues.Keys == old(queues).Keys
        invariant forall id :: id in queues ==>
          queues[id] == if id in todo then old(queues)[id] else Deliver(old(queues)[id], data)
      {
        var id :| id in todo;
        if |queues[id]| < SUBSCRIBER_BUFFER_SIZE {
          queues := queues[id := queues[id] + [data]];
        }
        todo := todo - {id};
      }
    }
  }

  // ----- The protocol -----

  /** The pump is between two reads, or has written a chunk that it has not fanned out yet. */
  datatype Pump = Reading | Written(chunk: Chunk)

  /** A client: its channel, what it took from it, and its snapshot. For the proof: how much had been
      fanned out when it subscribed, how much was written when it took the snapshot, and how many
      bytes its full channel refused. */
  datatype Client = Client(queue: seq<Chunk>, received: seq<Chunk>, snapshot: Option<seq<byte>>,
                           since: nat, snapAt: nat, lost: nat)

  datatype Terminal = Terminal(replay: seq<byte>, output: seq<byte>, pump: Pump, clients: map<string, Client>)

  const IDLE := Terminal([], [], Reading, map[])

  datatype Event =
    | PumpWrite(chunk: Chunk)
    | PumpFanOut
    | Subscribe(id: string)
    | Snapshot(id: string)
    | Receive(id: string)
    | Detach(id: string)

  /** Bytes the pump has fanned out. */
  function FannedOut(t: Terminal): nat {
    |t.output| - if t.pump.Written? && |t.pump.chunk| <= |t.output| then |t.pump.chunk| else 0
  }

  function Offer(k: Client, c: Chunk): Client {
    k.(queue := Deliver(k.queue, c), lost := k.lost + if |k.queue| < SUBSCRIBER_BUFFER_SIZE then 0 else |c|)
  }

  /** One step under one lock. Subscriber ids are random, taken to be fresh. */
  ghost predicate Step(s: Terminal, ev: Event, t: Terminal) {
    match ev
    case PumpWrite(c) =>
      s.pump == Reading
      && t == s.(replay := Last(s.replay + c, MAX_REPLAY_BYTES), output := s.output + c, pump := Written(c))
    case PumpFanOut =>
      s.pump.Written?
      && t == s.(pump := Reading, clients := map id | id in s.clients :: Offer(s.clients[id], s.pump.chunk))
    case Subscribe(id) =>
      id !in s.clients
      && t == s.(clients := s.clients[id := Client([], [], None, FannedOut(s), 0, 0)])
    case Snapshot(id) =>
      id in s.clients && s.clients[id].snapshot.None?
      && t == s.(clients := s.clients[id := s.clients[id].(snapshot := Some(s.replay), snapAt := |s.output|)])
    case Receive(id) =>
      id in s.clients && s.clients[id].queue != []
      && var k := s.clients[id];
         t == s.(clients := s.clients[id := k.(queue := k.queue[1..], received := k.received + [k.queue[0]])])
    case Detach(id) => id in s.clients && t == s.(clients := s.clients - {id})
  }

  /** The pump's step fans out as the subscribers do. */
  lemma FanOutStep(s: Terminal, t: Terminal)
    requires Step(s, PumpFanOut, t)
    ensures (map id | id in t.clients :: t.clients[id].queue) ==
            FanOut(map id | id in s.clients :: s.clients[id].queue, s.pump.chunk)
  {
  }

  /** All that a client's channel has carried or still holds. */
  function Stream(k: Client): seq<byte> { Concat(k.received + k.queue) }

  // ----- Invariant -----

  ghost predicate ClientFits(t: Terminal, k: Client) {
    && k.since <= FannedOut(t)
    && |Stream(k)| + k.lost == FannedOut(t) - k.since
    && (k.lost == 0 ==> Stream(k) == t.output[k.since..FannedOut(t)])
    && (k.snapshot.Some? ==>
          && k.since <= k.snapAt <= |t.output|
          && k.snapshot.value == Last(t.output[..k.snapAt], MAX_REPLAY_BYTES))
  }

  ghost predicate Inv(t: Terminal) {
    && t.replay == Last(t.output, MAX_REPLAY_BYTES)
    && (t.pump.Written? ==> |t.pump.chunk| <= |t.output| && t.output[FannedOut(t)..] == t.pump.chunk)
    && forall id :: id in t.clients ==> ClientFits(t, t.clients[id])
  }

  lemma WriteKeepsClient(s: Terminal, c: Chunk, t: Terminal, k: Client)
    requires Step(s, PumpWrite(c), t) && ClientFits(s, k)
    ensures ClientFits(t, k)
  {
    hide Last, Concat;
    assert t.output[k.since..FannedOut(t)] == s.output[k.since..FannedOut(s)];
    if k.snapshot.Some? {
      assert t.output[..k.snapAt] == s.output[..k.snapAt];
    }
  }

  lemma OfferKeepsClient(s: Terminal, t: Terminal, k: Client)
    requires Inv(s) && Step(s, PumpFanOut, t) && ClientFits(s, k)
    ensures ClientFits(t, Offer(k, s.pump.chunk))
  {
    hide Last;
    var c := s.pump.chunk;
    var all := k.received + k.queue;
    if |k.queue| < SUBSCRIBER_BUFFER_SIZE {
      assert k.received + (k.queue + [c]) == all + [c];
      ConcatAppend(all, [c]);
      ConcatOne(c);
    }
    hide Concat;
    assert s.output[k.since..] == s.output[k.since..FannedOut(s)] + s.output[FannedOut(s)..];
    assert t.output[k.since..FannedOut(t)] == s.output[k.since..];
  }

  lemma StepKeepsInv(s: Terminal, ev: Event, t: Terminal)
    requires Inv(s) && Step(s, ev, t)
    ensures Inv(t)
  {
    hide Last, Concat, ClientFits;
    match ev
    case PumpWrite(c) =>
      LastAppend(s.output, c, MAX_REPLAY_BYTES);
      assert t.output[FannedOut(t)..] == c;
      forall id | id in t.clients ensures ClientFits(t, t.clients[id]) {
        WriteKeepsClient(s, c, t, t.clients[id]);
      }
    case PumpFanOut =>
      forall id | id in t.clients ensures ClientFits(t, t.clients[id]) {
        OfferKeepsClient(s, t, s.clients[id]);
      }
    case Subscribe(id) => NewClientFits(s, t, id);
    case Snapshot(id) => SnapshotFits(s, t, id);
    case Receive(id) => ReceiveFits(s, t, id);
    case Detach(id) => OthersFit(s, t);
  }

  /** Clients that a step leaves alone stay right while the output does not move. */
  lemma OthersFit(s: Terminal, t: Terminal)
    requires Inv(s) && t.output == s.output && t.pump == s.pump
    ensures forall id :: id in t.clients && id in s.clients && t.clients[id] == s.clients[id] ==> ClientFits(t, t.clients[id])
  {
    hide Last, Concat;
  }

  lemma NewClientFits(s: Terminal, t: Terminal, id: string)
    requires Inv(s) && Step(s, Subscribe(id), t)
    ensures Inv(t)
  {
    hide Last;
    OthersFit(s, t);
    NewClientIsEmpty(t, t.clients[id]);
    hide ClientFits;
  }

  lemma NewClientIsEmpty(t: Terminal, k: Client)
    requires k == Client([], [], None, FannedOut(t), 0, 0)
    ensures ClientFits(t, k)
  {
    assert k.received + k.queue == [];
    assert t.output[FannedOut(t)..FannedOut(t)] == [];
  }

  lemma SnapshotFits(s: Terminal, t: Terminal, id: string)
    requires Inv(s) && Step(s, Snapshot(id), t)
    ensures Inv(t)
  {
    hide Last, Concat;
    OthersFit(s, t);
    assert t.output[..|t.output|] == t.output;
  }

  lemma ReceiveFits(s: Terminal, t: Terminal, id: string)
    requires Inv(s) && Step(s, Receive(id), t)
    ensures Inv(t)
  {
    hide Last, Concat;
    OthersFit(s, t);
    var k := s.clients[id];
    assert k.received + k.queue == (k.received + [k.queue[0]]) + k.queue[1..];
  }

  // ----- Runs -----

  ghost predicate IsRun(states: seq<Terminal>, events: seq<Event>) {
    && |states| == |events| + 1 && states[0] == IDLE
    && forall i :: 0 <= i < |events| ==> Step(states[i], events[i], states[i + 1])
  }

  lemma {:induction false} RunKeepsInv(states: seq<Terminal>, events: seq<Event>, i: nat)
    requires IsRun(states, events) && i < |states|
    ensures Inv(states[i])
  {
    if i == 0 {
      assert Inv(IDLE);
    } else {
      hide Inv, Step;
      RunKeepsInv(states, events, i - 1);
      assert Step(states[i - 1], events[i - 1], states[i - 1 + 1]);
      StepKeepsInv(states[i - 1], events[i - 1], states[i]);
    }
  }

  /** From any state of any run between two reads of the pump: a client can subscribe, take its
      snapshot, get the next chunk and detach, and has then seen the end of the output. */
  lemma AttachAndReceive(states: seq<Terminal>, events: seq<Event>, i: nat, id: string, c: Chunk)
    returns (ts: seq<Terminal>, k: Client)
    requires IsRun(states, events) && i < |states| && states[i].pump == Reading && id !in states[i].clients
    ensures |ts| == 7 && ts[0] == states[i]
    ensures Step(ts[0], Subscribe(id), ts[1]) && Step(ts[1], Snapshot(id), ts[2]) && Step(ts[2], PumpWrite(c), ts[3])
    ensures Step(ts[3], PumpFanOut, ts[4]) && Step(ts[4], Receive(id), ts[5]) && Step(ts[5], Detach(id), ts[6])
    ensures id in ts[5].clients && ts[5].clients[id] == k
    ensures k.snapshot == Some(Last(states[i].output, 102_400)) && k.received == [c] && k.queue == []
    ensures id !in ts[6].clients && ts[6].output == states[i].output + c
    ensures ts[6].clients.Keys == states[i].clients.Keys && ts[6].replay == Last(states[i].output + c, 102_400)
  {
    hide Last, ClientFits, IsRun, Step;
    RunKeepsInv(states, events, i);
    var s := states[i];
    LastAppend(s.output, c, 102_400);
    var t1, t2 := Joins(s, id);
    var t3, t4 := Pumps(t2, id, c);
    var t5, t6 := Leaves(t4, id, c);
    ts := [s, t1, t2, t3, t4, t5, t6];
    k := t5.clients[id];
  }

  lemma Joins(s: Terminal, id: string) returns (t: Terminal, u: Terminal)
    requires s.pump == Reading && id !in s.clients
    ensures Step(s, Subscribe(id), t) && Step(t, Snapshot(id), u)
    ensures u == s.(clients := s.clients[id := Client([], [], Some(s.replay), |s.output|, |s.output|, 0)])
  {
    t := s.(clients := s.clients[id := Client([], [], None, |s.output|, 0, 0)]);
    u := t.(clients := t.clients[id := t.clients[id].(snapshot := Some(s.replay), snapAt := |s.output|)]);
  }

  lemma Pumps(s: Terminal, id: string, c: Chunk) returns (t: Terminal, u: Terminal)
    requires s.pump == Reading && id in s.clients && s.clients[id].queue == []
    ensures Step(s, PumpWrite(c), t) && Step(t, PumpFanOut, u)
    ensures u.pump == Reading && u.output == s.output + c && u.replay == Last(s.replay + c, 102_400)
    ensures u.clients.Keys == s.clients.Keys && u.clients[id] == s.clients[id].(queue := [c])
  {
    hide Last;
    t := Terminal(Last(s.replay + c, 102_400), s.output + c, Written(c), s.clients);
    u := t.(pump := Reading, clients := map other | other in t.clients :: Offer(t.clients[other], c));
  }

  lemma Leaves(s: Terminal, id: string, c: Chunk) returns (t: Terminal, u: Terminal)
    requires id in s.clients && s.clients[id].queue == [c]
    ensures Step(s, Receive(id), t) && Step(t, Detach(id), u)
    ensures id in t.clients && t.clients[id] == s.clients[id].(queue := [], received := s.clients[id].received + [c])
    ensures u.output == s.output && u.replay == s.replay && u.clients.Keys == s.clients.Keys - {id}
  {
    var k := s.clients[id];
    assert k.queue[1..] == [];
    t := s.(clients := s.clients[id := k.(queue := k.queue[1..], received := k.received + [k.queue[0]])]);
    u := t.(clients := t.clients - {id});
  }

  /** What a client can show: the snapshot, followed by the stream without the bytes that both have. */
  function Shown(k: Client): seq<byte>
    requires k.snapshot.Some?
  {
    var overlap := k.snapAt - k.since;
    k.snapshot.value + if 0 <= overlap <= |Stream(k)| then Stream(k)[overlap..] else []
  }

  /** A fan-out finds the client's channel 256 chunks behind. */
  predicate Overflows(s: Terminal, ev: Event, id: string) {
    && ev == PumpFanOut && s.pump.Written? && s.pump.chunk != []
    && id in s.clients && |s.clients[id].queue| >= 256
  }

  lemma ClientStep(s: Terminal, ev: Event, t: Terminal, id: string)
    requires Step(s, ev, t) && id in s.clients && ev != Detach(id)
    ensures id in t.clients && t.clients[id].since == s.clients[id].since
    ensures if Overflows(s, ev, id) then t.clients[id].lost > 0 else t.clients[id].lost == s.clients[id].lost
  {
    match ev
    case PumpWrite(c) =>
    case PumpFanOut =>
    case Subscribe(other) =>
    case Snapshot(other) =>
    case Receive(other) =>
    case Detach(other) =>
  }

  /** A client between its subscription and state i. */
  ghost predicate Attached(states: seq<Terminal>, events: seq<Event>, from: nat, i: nat, id: string) {
    && IsRun(states, events) && from < i < |states|
    && events[from] == Subscribe(id) && forall j :: from < j < i ==> events[j] != Detach(id)
  }

  lemma {:induction false} ClientSince(states: seq<Terminal>, events: seq<Event>, from: nat, i: nat, id: string)
    requires Attached(states, events, from, i, id)
    ensures id in states[i].clients && states[i].clients[id].since == FannedOut(states[from])
    ensures states[i].clients[id].lost == 0 <==> forall j :: from < j < i ==> !Overflows(states[j], events[j], id)
  {
    hide Step, Overflows;
    assert Step(states[i - 1], events[i - 1], states[i - 1 + 1]);
    if i == from + 1 {
      SubscribeStep(states[from], states[i], id);
    } else {
      ClientSince(states, events, from, i - 1, id);
      ClientStep(states[i - 1], events[i - 1], states[i], id);
    }
  }

  lemma SubscribeStep(s: Terminal, t: Terminal, id: string)
    requires Step(s, Subscribe(id), t)
    ensures id in t.clients && t.clients[id].since == FannedOut(s) && t.clients[id].lost == 0
  {
  }

  /** Over every interleaving a client's channel carries everything fanned out since it subscribed
      exactly if no fan-out ever found it 256 chunks behind. */
  lemma CompleteExactly(states: seq<Terminal>, events: seq<Event>, from: nat, i: nat, id: string)
    requires Attached(states, events, from, i, id)
    ensures var t := states[i];
            && id in t.clients && FannedOut(states[from]) <= FannedOut(t) <= |t.output|
            && (Stream(t.clients[id]) == t.output[FannedOut(states[from])..FannedOut(t)] <==>
                forall j :: from < j < i ==> !Overflows(states[j], events[j], id))
  {
    hide Overflows, Step, Concat;
    ClientSince(states, events, from, i, id);
    RunKeepsInv(states, events, i);
    assert ClientFits(states[i], states[i].clients[id]);
  }

  /** No gap: in every interleaving, a client that no fan-out found 256 chunks behind can show the
      output without a hole, from where its snapshot begins up to the last chunk written before the
      snapshot or fanned out so far; between two reads of the pump, up to the end. */
  lemma NoGap(states: seq<Terminal>, events: seq<Event>, from: nat, i: nat, id: string)
    requires Attached(states, events, from, i, id) && id in states[i].clients
    requires states[i].clients[id].snapshot.Some?
    requires forall j :: from < j < i ==> !Overflows(states[j], events[j], id)
    ensures var t := states[i];
            var k := t.clients[id];
            var start := k.snapAt - |k.snapshot.value|;
            var end := if FannedOut(t) < k.snapAt then k.snapAt else FannedOut(t);
            && |k.snapshot.value| == (if k.snapAt < 102_400 then k.snapAt else 102_400)
            && FannedOut(states[from]) <= k.snapAt && 0 <= start <= end <= |t.output|
            && Shown(k) == t.output[start..end]
            && (t.pump == Reading ==> Shown(k) == t.output[start..])
  {
    hide Overflows, Step, Concat;
    ClientSince(states, events, from, i, id);
    RunKeepsInv(states, events, i);
    var t := states[i];
    var k := t.clients[id];
    assert ClientFits(t, k);
    ShownIs(t, k);
  }

  lemma ShownIs(t: Terminal, k: Client)
    requires Inv(t) && ClientFits(t, k) && k.snapshot.Some? && k.lost == 0
    ensures var start := k.snapAt - |k.snapshot.value|;
            var end := if FannedOut(t) < k.snapAt then k.snapAt else FannedOut(t);
            && 0 <= start <= end <= |t.output|
            && Shown(k) == t.output[start..end]
            && (t.pump == Reading ==> end == |t.output| && t.output[start..] == t.output[start..end])
  {
    hide Concat, Last;
    var start := k.snapAt - |k.snapshot.value|;
    SnapshotIs(t.output[..k.snapAt], k.snapshot.value);
    assert t.output[..k.snapAt][start..] == t.output[start..k.snapAt];
    StreamIs(t, k);
  }

  lemma SnapshotIs(log: seq<byte>, snapshot: seq<byte>)
    requires snapshot == Last(log, MAX_REPLAY_BYTES)
    ensures |snapshot| <= |log| && snapshot == log[|log| - |snapshot|..]
  {
    LastIsSuffix(log, MAX_REPLAY_BYTES);
  }

  lemma StreamIs(t: Terminal, k: Client)
    requires ClientFits(t, k) && k.snapshot.Some? && k.lost == 0
    ensures var start, f := k.snapAt - |k.snapshot.value|, FannedOut(t);
            && 0 <= start
            && (k.snapAt <= f ==>
                  Stream(k)[k.snapAt - k.since..] == t.output[k.snapAt..f]
                  && t.output[start..k.snapAt] + t.output[k.snapAt..f] == t.output[start..f])
  {
    hide Concat, Last;
    var f := FannedOut(t);
    SnapshotIs(t.output[..k.snapAt], k.snapshot.value);
    if k.snapAt <= f {
      assert t.output[k.since..f][k.snapAt - k.since..] == t.output[k.snapAt..f];
    }
  }
}
