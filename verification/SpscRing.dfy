/**
 The single-producer single-consumer ring, with every load, check, copy and publish of
 `push`, `pop` and `clear` as a step of its own. The producer and the consumer are two
 tasks; a run is any interleaving of their steps.
 */
module SpscRing {
  import opened Words

  const TOPIC_CAP := 96

  // ------------------------------------------------------------------- data

  /** One slot: the topic as a C string, a payload buffer of fixed size, and how much of it counts. */
  datatype Message = Message(topic: string, payload: seq<Byte>, length: nat)

  datatype Content = Content(topic: string, body: seq<Byte>)

  /** The arguments of `push`; topic and data may each be null. */
  datatype Request = Request(topic: Option<string>, data: Option<seq<Byte>>, len: nat)

  predicate Sane(q: Request) { q.data.Some? ==> |q.data.value| == q.len }

  datatype Producer =
    | PIdle
    | PHead(req: Request, at: nat)        // head loaded
    | PChecked(req: Request, at: nat)     // tail loaded, room found
    | PTopic(req: Request, at: nat)       // topic copied
    | PPayload(req: Request, at: nat)     // payload copied
    | PLength(req: Request, at: nat)      // length stored, not yet published

  datatype Consumer =
    | CIdle
    | CTail(from: nat)                                        // tail loaded
    | CChecked(from: nat)                                     // head loaded, something there
    | CTopic(from: nat, topic: string)                        // topic copied out
    | CPayload(from: nat, topic: string, payload: seq<Byte>)  // payload copied out
    | CCopied(from: nat, out: Message)                        // whole message copied, not yet released
    | CClear(to: nat, upTo: nat)                              // head loaded by `clear`; upTo counts messages

  /** What has happened so far, seen from outside. */
  datatype History = History(
    requests: seq<Request>,   // accepted pushes, in order
    accepted: seq<Content>,   // what each of them left in its slot
    taken: nat,               // how many were popped or cleared away
    base: nat,                // `taken` at the last clear
    popped: seq<Content>,     // what `pop` returned since the last clear
    attempts: nat,
    drops: nat)

  datatype Ring = Ring(
    slots: seq<Message>, slotBytes: nat, head: nat, tail: nat, dropped: Word32,
    producer: Producer, consumer: Consumer, past: History)

  datatype Step = PushCall(req: Request) | ProducerStep | PopCall | ClearCall | ConsumerStep

  // ------------------------------------------------------------------- steps

  /** `(index + 1) % Slots`, for an index inside the array. */
  function Next(index: nat, n: nat): nat { if index + 1 < n then index + 1 else 0 }

  lemma NextIsRemainder(index: nat, n: nat)
    requires index < n
    ensures Next(index, n) == (index + 1) % n
  {
    if index + 1 < n { DivisionUnique(index + 1, 0, index + 1, n); } else { DivisionUnique(n, 1, 0, n); }
  }

  /** The slot that the a-th accepted message goes to. */
  function Slot(a: nat, n: nat): (i: nat)
    requires n > 0
    ensures i < n
  {
    if a < n then a else Slot(a - n, n)
  }

  function CutTopic(t: string): string { Cut(t, TOPIC_CAP) }

  /** What the caller of an accepted push asked to be delivered. */
  function Intended(q: Request): Content
    requires q.topic.Some? && (q.data.Some? || q.len == 0)
  {
    Content(CutTopic(q.topic.value), if q.data.Some? then q.data.value else [])
  }

  function Read(m: Message): Content
  {
    Content(m.topic, if m.length <= |m.payload| then m.payload[..m.length] else m.payload)
  }

  function CopyInto(payload: seq<Byte>, q: Request): seq<Byte> {
    if q.len > 0 && q.data.Some? && q.len <= |payload| then q.data.value + payload[q.len..] else payload
  }

  function Drop(r: Ring): Ring {
    r.(dropped := Later(r.dropped, 1), producer := PIdle, past := r.past.(drops := r.past.drops + 1))
  }

  function Put(r: Ring, at: nat, m: Message, p: Producer): Ring
    requires at < |r.slots|
  {
    r.(slots := r.slots[at := m], producer := p)
  }

  function Take(r: Ring, s: Step): (z: Ring)
    requires Shape(r)
    ensures Shape(z) && |z.slots| == |r.slots|
  {
    match s
    case PushCall(q) =>
      if r.producer != PIdle || !Sane(q) then r
      else
        var r1 := r.(past := r.past.(attempts := r.past.attempts + 1));
        if q.topic.None? || q.len > r.slotBytes then Drop(r1) else r1.(producer := PHead(q, r.head))
    case ProducerStep => Produce(r)
    case PopCall => if r.consumer != CIdle then r else r.(consumer := CTail(r.tail))
    case ClearCall => if r.consumer != CIdle then r else r.(consumer := CClear(r.head, |r.past.accepted|))
    case ConsumerStep => Consume(r)
  }

  function Produce(r: Ring): (z: Ring)
    requires Shape(r)
    ensures Shape(z) && |z.slots| == |r.slots|
  {
    match r.producer
    case PIdle => r
    case PHead(q, h) =>
      if Next(h, |r.slots|) == r.tail then Drop(r) else r.(producer := PChecked(q, h))
    case PChecked(q, h) => Put(r, h, r.slots[h].(topic := CutTopic(q.topic.value)), PTopic(q, h))
    case PTopic(q, h) => Put(r, h, r.slots[h].(payload := CopyInto(r.slots[h].payload, q)), PPayload(q, h))
    case PPayload(q, h) => Put(r, h, r.slots[h].(length := q.len), PLength(q, h))
    case PLength(q, h) =>
      r.(head := Next(h, |r.slots|), producer := PIdle,
         past := r.past.(requests := r.past.requests + [q], accepted := r.past.accepted + [Read(r.slots[h])]))
  }

  function Consume(r: Ring): (z: Ring)
    requires Shape(r)
    ensures Shape(z) && |z.slots| == |r.slots|
  {
    match r.consumer
    case CIdle => r
    case CTail(t) => r.(consumer := if t == r.head then CIdle else CChecked(t))
    case CChecked(t) => r.(consumer := CTopic(t, r.slots[t].topic))
    case CTopic(t, topic) => r.(consumer := CPayload(t, topic, r.slots[t].payload))
    case CPayload(t, topic, payload) => r.(consumer := CCopied(t, Message(topic, payload, r.slots[t].length)))
    case CCopied(t, m) =>
      r.(tail := Next(t, |r.slots|), consumer := CIdle,
         past := r.past.(taken := r.past.taken + 1, popped := r.past.popped + [Read(m)]))
    case CClear(h, n) =>
      r.(tail := h, consumer := CIdle, past := r.past.(taken := n, base := n, popped := []))
  }

  /** Indices stay inside the array; enough for every step to make sense. */
  predicate Shape(r: Ring) {
    && r.head < |r.slots| && r.tail < |r.slots|
    && (r.producer != PIdle ==> r.producer.at < |r.slots| && r.producer.req.topic.Some? && Sane(r.producer.req))
    && match r.consumer
       case CIdle => true
       case CClear(h, _) => h < |r.slots|
       case _ => r.consumer.from < |r.slots|
  }

  function Empty(slots: seq<Message>, slotBytes: nat): Ring {
    Ring(slots, slotBytes, 0, 0, 0, PIdle, CIdle, History([], [], 0, 0, [], 0, 0))
  }

  function Run(r: Ring, steps: seq<Step>): (z: Ring)
    requires Shape(r)
    ensures Shape(z) && |z.slots| == |r.slots|
  {
    if steps == [] then r
    else Take(Run(r, steps[..|steps| - 1]), steps[|steps| - 1])
  }

  // ---------------------------------------------------------------- invariant

  predicate Writing(p: Producer) { p.PChecked? || p.PTopic? || p.PPayload? || p.PLength? }

  predicate Reading(c: Consumer) { c.CChecked? || c.CTopic? || c.CPayload? || c.CCopied? }

  /** The counters stand for positions in the sequence of accepted messages. */
  predicate Counts(r: Ring) {
    var n, w, t := |r.slots|, |r.past.accepted|, r.past.taken;
    && n > 0 && r.past.base <= t <= w < t + n
    && r.head == Slot(w, n) && r.tail == Slot(t, n)
    && |r.past.requests| == w
    && (r.producer != PIdle ==> r.producer.at == r.head && r.producer.req.len <= r.slotBytes)
    && (Writing(r.producer) ==> w + 1 < t + n)
    && (r.consumer.CTail? ==> r.consumer.from == r.tail)
    && (Reading(r.consumer) ==> r.consumer.from == r.tail && t < w)
    && (r.consumer.CClear? ==> t <= r.consumer.upTo <= w && r.consumer.to == Slot(r.consumer.upTo, n))
    && r.past.attempts == w + r.past.drops + (if r.producer == PIdle then 0 else 1)
    && r.dropped == r.past.drops % WORD
  }

  predicate SlotsSized(r: Ring) { forall i :: 0 <= i < |r.slots| ==> |r.slots[i].payload| == r.slotBytes }

  /** Every message in flight sits untouched in its slot. */
  ghost predicate InFlight(r: Ring)
    requires Counts(r)
  {
    && SlotsSized(r)
    && (forall j :: r.past.taken <= j < |r.past.accepted| ==> Read(r.slots[Slot(j, |r.slots|)]) == r.past.accepted[j])
    && r.past.popped == r.past.accepted[r.past.base..r.past.taken]
    && AllAsSent(r.past.accepted, r.past.requests)
  }

  /** A message with a buffer, or without one and of length zero, is kept with its topic cut to 95
      characters and its payload whole. */
  predicate AsSent(c: Content, q: Request) {
    q.data.Some? || q.len == 0 ==> q.topic.Some? && c == Intended(q)
  }

  ghost predicate AllAsSent(accepted: seq<Content>, requests: seq<Request>) {
    |accepted| == |requests| && forall j :: 0 <= j < |accepted| ==> AsSent(accepted[j], requests[j])
  }

  lemma OneMoreAsSent(accepted: seq<Content>, requests: seq<Request>, c: Content, q: Request)
    requires AllAsSent(accepted, requests) && AsSent(c, q)
    ensures AllAsSent(accepted + [c], requests + [q])
  {}

  /** A half-written slot and a half-read message are what they should be so far. */
  predicate Halfway(r: Ring)
    requires Shape(r)
  {
    HalfWritten(r) && HalfRead(r)
  }

  predicate HalfWritten(r: Ring)
    requires Shape(r)
  {
    match r.producer
    case PTopic(q, h) => r.slots[h].topic == CutTopic(q.topic.value)
    case PPayload(q, h) => r.slots[h].topic == CutTopic(q.topic.value) && Filled(r.slots[h].payload, q)
    case PLength(q, h) =>
      r.slots[h].topic == CutTopic(q.topic.value) && Filled(r.slots[h].payload, q) && r.slots[h].length == q.len
    case _ => true
  }

  predicate HalfRead(r: Ring)
    requires Shape(r)
  {
    match r.consumer
    case CTopic(t, topic) => topic == r.slots[t].topic
    case CPayload(t, topic, payload) => topic == r.slots[t].topic && payload == r.slots[t].payload
    case CCopied(t, m) => m == r.slots[t]
    case _ => true
  }

  predicate Filled(payload: seq<Byte>, q: Request) {
    q.data.Some? ==> q.len <= |payload| && payload[..q.len] == q.data.value
  }

  ghost predicate Inv(r: Ring) { Shape(r) && Counts(r) && InFlight(r) && Halfway(r) }

  // -------------------------------------------------------------- preservation

  /** Counting on by one moves to the next slot. */
  lemma {:induction false} SlotNext(a: nat, n: nat)
    requires n > 0
    ensures Slot(a + 1, n) == Next(Slot(a, n), n)
  {
    if a >= n { SlotNext(a - n, n); }
  }

  /** Two messages in flight, or one in flight and the one being written, never share a slot. */
  lemma {:induction false} SlotsApart(a: nat, b: nat, n: nat)
    requires n > 0 && a < b < a + n
    ensures Slot(a, n) != Slot(b, n)
  {
    if a >= n {
      SlotsApart(a - n, b - n, n);
    } else if b >= n {
      assert Slot(b - n, n) == b - n;
    }
  }

  lemma SlotWraps(a: nat, n: nat)
    requires n > 0
    ensures Slot(a + n, n) == Slot(a, n)
  {}

  lemma PushCallKeeps(r: Ring, q: Request)
    requires Inv(r)
    ensures Inv(Take(r, PushCall(q)))
  {}

  lemma PutKeeps(r: Ring, m: Message, p: Producer)
    requires Inv(r) && Writing(r.producer) && Writing(p) && p.at == r.producer.at && p.req == r.producer.req
    requires |m.payload| == r.slotBytes
    requires p.PTopic? || p.PPayload? || p.PLength?
    requires Shape(Put(r, r.producer.at, m, p)) && HalfWritten(Put(r, r.producer.at, m, p))
    ensures Inv(Put(r, r.producer.at, m, p))
  {
    var z := Put(r, r.producer.at, m, p);
    var n, w := |r.slots|, |r.past.accepted|;
    forall j | r.past.taken <= j < w ensures z.slots[Slot(j, n)] == r.slots[Slot(j, n)] {
      SlotsApart(j, w, n);
    }
    if Reading(r.consumer) { SlotsApart(r.past.taken, w, n); }
  }

  lemma PublishCounts(r: Ring)
    requires Inv(r) && r.producer.PLength?
    ensures Shape(Produce(r)) && Counts(Produce(r))
  {
    SlotNext(|r.past.accepted|, |r.slots|);
  }

  lemma PublishKeeps(r: Ring)
    requires Inv(r) && r.producer.PLength?
    ensures Inv(Produce(r))
  {
    PublishCounts(r);
    var z, h, q := Produce(r), r.producer.at, r.producer.req;
    var n, w := |r.slots|, |r.past.accepted|;
    assert z.slots == r.slots && z.past.accepted == r.past.accepted + [Read(r.slots[h])] && h == Slot(w, n);
    assert AsSent(Read(r.slots[h]), q);
    OneMoreAsSent(r.past.accepted, r.past.requests, Read(r.slots[h]), q);
    assert z.past.accepted[r.past.base..r.past.taken] == r.past.accepted[r.past.base..r.past.taken];
    PublishHolds(r);
  }

  lemma PublishHolds(r: Ring)
    requires Shape(r) && Counts(r) && InFlight(r) && r.producer.PLength?
    ensures var accepted := r.past.accepted + [Read(r.slots[r.producer.at])];
      forall j :: r.past.taken <= j < |accepted| ==> Read(r.slots[Slot(j, |r.slots|)]) == accepted[j]
  {
    var n, w := |r.slots|, |r.past.accepted|;
    var accepted := r.past.accepted + [Read(r.slots[r.producer.at])];
    forall j | r.past.taken <= j < |accepted| ensures Read(r.slots[Slot(j, n)]) == accepted[j] {
      if j < w { assert accepted[j] == r.past.accepted[j]; }
    }
  }

  lemma ProduceKeeps(r: Ring)
    requires Inv(r)
    ensures Inv(Produce(r))
  {
    match r.producer
    case PIdle =>
    case PHead(q, h) => CheckKeeps(r);
    case PChecked(q, h) => PutKeeps(r, r.slots[h].(topic := CutTopic(q.topic.value)), PTopic(q, h));
    case PTopic(q, h) =>
      var m := r.slots[h].(payload := CopyInto(r.slots[h].payload, q));
      assert q.data.Some? ==> m.payload[..q.len] == q.data.value;
      PutKeeps(r, m, PPayload(q, h));
    case PPayload(q, h) => PutKeeps(r, r.slots[h].(length := q.len), PLength(q, h));
    case PLength(q, h) => PublishKeeps(r);
  }

  /** The index check sees exactly whether there is room. */
  lemma RoomCheck(r: Ring)
    requires Shape(r) && Counts(r)
    ensures Next(r.head, |r.slots|) == r.tail <==> |r.past.accepted| - r.past.taken == |r.slots| - 1
  {
    var n, w, t := |r.slots|, |r.past.accepted|, r.past.taken;
    SlotNext(w, n);
    if w + 1 < t + n {
      SlotsApart(t, w + 1, n);
    } else {
      SlotWraps(t, n);
    }
  }

  lemma CheckKeeps(r: Ring)
    requires Inv(r) && r.producer.PHead?
    ensures Inv(Produce(r))
  {
    RoomCheck(r);
  }

  lemma ConsumeKeeps(r: Ring)
    requires Inv(r)
    ensures Inv(Consume(r))
  {
    match r.consumer
    case CTail(t) => EmptyCheckKeeps(r);
    case CCopied(t, m) => ReleaseKeeps(r);
    case _ =>
  }

  lemma EmptyCheckKeeps(r: Ring)
    requires Inv(r) && r.consumer.CTail?
    ensures Inv(Consume(r))
    ensures Consume(r).consumer == CIdle <==> r.past.taken == |r.past.accepted|
  {
    if r.past.taken < |r.past.accepted| { SlotsApart(r.past.taken, |r.past.accepted|, |r.slots|); }
  }

  lemma ReleaseCounts(r: Ring)
    requires Inv(r) && r.consumer.CCopied?
    ensures Shape(Consume(r)) && Counts(Consume(r))
  {
    SlotNext(r.past.taken, |r.slots|);
  }

  lemma ReleasedMessage(r: Ring)
    requires Inv(r) && r.consumer.CCopied?
    ensures Read(r.consumer.out) == r.past.accepted[r.past.taken]
  {
    assert r.consumer.out == r.slots[r.tail];
    assert Read(r.slots[Slot(r.past.taken, |r.slots|)]) == r.past.accepted[r.past.taken];
  }

  lemma SliceSnoc<T>(s: seq<T>, i: nat, j: nat)
    requires i <= j < |s|
    ensures s[i..j + 1] == s[i..j] + [s[j]]
  {}

  lemma ReleaseKeeps(r: Ring)
    requires Inv(r) && r.consumer.CCopied?
    ensures Inv(Consume(r))
    ensures Consume(r).past.popped == r.past.popped + [r.past.accepted[r.past.taken]]
  {
    ReleaseCounts(r);
    ReleasedMessage(r);
    var t, z := r.past.taken, Consume(r);
    assert z.slots == r.slots && z.past.accepted == r.past.accepted && z.past.requests == r.past.requests;
    SliceSnoc(r.past.accepted, r.past.base, t);
  }

  lemma StepKeeps(r: Ring, s: Step)
    requires Inv(r)
    ensures Inv(Take(r, s))
  {
    match s
    case PushCall(q) => PushCallKeeps(r, q);
    case ProducerStep => ProduceKeeps(r);
    case ConsumerStep => ConsumeKeeps(r);
    case _ =>
  }

  // --------------------------------------------------------------- main results

  predicate Fresh(slots: seq<Message>, slotBytes: nat) {
    |slots| > 0 && forall i :: 0 <= i < |slots| ==> |slots[i].payload| == slotBytes
  }

  lemma {:induction false} EveryInterleavingIsSound(slots: seq<Message>, slotBytes: nat, steps: seq<Step>)
    requires Fresh(slots, slotBytes)
    ensures Inv(Run(Empty(slots, slotBytes), steps))
    ensures |Run(Empty(slots, slotBytes), steps).slots| == |slots|
  {
    var e := Empty(slots, slotBytes);
    if steps != [] {
      EveryInterleavingIsSound(slots, slotBytes, steps[..|steps| - 1]);
      StepKeeps(Run(e, steps[..|steps| - 1]), steps[|steps| - 1]);
    } else {
      assert Slot(0, |slots|) == 0;
    }
  }

  /** Between two clears, what was popped is a prefix of what was accepted, in order, each message as
      it was sent; at most Slots-1 are in flight; and every attempt was accepted or counted as
      dropped. */
  ghost predicate InOrderAndWhole(r: Ring) {
    var h := r.past;
    && h.base <= h.taken <= |h.accepted| == |h.requests| && |h.accepted| < h.taken + |r.slots|
    && |h.popped| == h.taken - h.base && h.popped <= h.accepted[h.base..]
    && (forall i :: 0 <= i < |h.popped| ==> AsSent(h.popped[i], h.requests[h.base + i]))
    && h.attempts == |h.accepted| + h.drops + (if r.producer == PIdle then 0 else 1)
    && r.dropped == h.drops % WORD
  }

  lemma SoundDelivers(r: Ring)
    requires Inv(r)
    ensures InOrderAndWhole(r)
  {
    var h := r.past;
    forall i | 0 <= i < |h.popped| ensures AsSent(h.popped[i], h.requests[h.base + i]) {
      assert h.popped[i] == h.accepted[h.base + i];
    }
  }

  /** Whatever the interleaving. */
  lemma DeliveredInOrderAndWhole(slots: seq<Message>, slotBytes: nat, steps: seq<Step>)
    requires Fresh(slots, slotBytes)
    ensures InOrderAndWhole(Run(Empty(slots, slotBytes), steps))
    ensures |Run(Empty(slots, slotBytes), steps).slots| == |slots|
  {
    EveryInterleavingIsSound(slots, slotBytes, steps);
    SoundDelivers(Run(Empty(slots, slotBytes), steps));
  }

  /** The slot being written is never the slot being read. */
  lemma NeverTheSameSlot(slots: seq<Message>, slotBytes: nat, steps: seq<Step>)
    requires Fresh(slots, slotBytes)
    ensures var r := Run(Empty(slots, slotBytes), steps);
      Writing(r.producer) && Reading(r.consumer) ==> r.producer.at != r.consumer.from
  {
    EveryInterleavingIsSound(slots, slotBytes, steps);
    var r := Run(Empty(slots, slotBytes), steps);
    if Writing(r.producer) && Reading(r.consumer) { SlotsApart(r.past.taken, |r.past.accepted|, |r.slots|); }
  }

  // ------------------------------------------------- refinement of a bounded FIFO

  /** The queue the two tasks are meant to share. */
  function Queue(r: Ring): seq<Content>
    requires r.past.taken <= |r.past.accepted|
  {
    r.past.accepted[r.past.taken..]
  }

  datatype FifoStep = Nothing | Enqueue(c: Content) | Dequeue | Discard(n: nat)

  function Fifo(q: seq<Content>, s: FifoStep): seq<Content> {
    match s
    case Nothing => q
    case Enqueue(c) => q + [c]
    case Dequeue => if q == [] then q else q[1..]
    case Discard(n) => if n <= |q| then q[n..] else q
  }

  /** What each small step does to the queue: only the two publishes move it. */
  function Effect(r: Ring, s: Step): FifoStep
    requires Shape(r) && r.past.taken <= |r.past.accepted|
  {
    match s
    case ProducerStep => if r.producer.PLength? then Enqueue(Read(r.slots[r.producer.at])) else Nothing
    case ConsumerStep =>
      if r.consumer.CCopied? then Dequeue
      else if r.consumer.CClear? && r.past.taken <= r.consumer.upTo then Discard(r.consumer.upTo - r.past.taken)
      else Nothing
    case _ => Nothing
  }

  lemma RefinesBoundedFifo(r: Ring, s: Step)
    requires Inv(r)
    ensures Inv(Take(r, s)) && Queue(Take(r, s)) == Fifo(Queue(r), Effect(r, s))
    ensures |Queue(Take(r, s))| <= |r.slots| - 1
    ensures Effect(r, s) == Dequeue ==> Queue(r) != [] && Take(r, s).past.popped == r.past.popped + [Queue(r)[0]]
  {
    StepKeeps(r, s);
    if s.ConsumerStep? && r.consumer.CCopied? { ReleaseKeeps(r); }
    MovesTheQueue(r, s);
  }

  lemma MovesTheQueue(r: Ring, s: Step)
    requires Shape(r) && r.past.taken <= |r.past.accepted|
    requires r.consumer.CCopied? ==> r.past.taken < |r.past.accepted|
    requires r.consumer.CClear? ==> r.past.taken <= r.consumer.upTo <= |r.past.accepted|
    ensures var z := Take(r, s).past;
      z.taken <= |z.accepted| && z.accepted[z.taken..] == Fifo(Queue(r), Effect(r, s))
  {
    match s
    case ProducerStep =>
      if r.producer.PLength? {
        var c := Read(r.slots[r.producer.at]);
        assert (r.past.accepted + [c])[r.past.taken..] == r.past.accepted[r.past.taken..] + [c];
      }
    case _ =>
  }

  /** A push is refused at once exactly when it has no topic or is too long for a slot, and for lack of
      room exactly when the queue is full at its check; and a pop comes back empty-handed exactly when
      the queue is empty at its check. */
  lemma RefusalsAreHonest(r: Ring)
    requires Inv(r)
    ensures forall q: Request :: r.producer == PIdle && Sane(q) ==>
      (Take(r, PushCall(q)).producer == PIdle <==> q.topic.None? || q.len > r.slotBytes)
    ensures r.producer.PHead? ==> (Produce(r).producer == PIdle <==> |Queue(r)| == |r.slots| - 1)
    ensures r.consumer.CTail? ==> (Consume(r).consumer == CIdle <==> Queue(r) == [])
  {
    if r.producer.PHead? { RoomCheck(r); }
    if r.consumer.CTail? { EmptyCheckKeeps(r); }
  }

  /** A topic of at most 95 characters is kept as it is, a longer one to its first 95. */
  lemma TopicIsKept(topic: string)
    ensures CutTopic(topic) == if |topic| <= 95 then topic else topic[..95]
  {}

  /** A push that nobody interrupts puts exactly its message at the end of the queue, or leaves it. */
  lemma PushQueuesItsMessage(r: Ring, topic: string, data: seq<Byte>)
    requires Inv(r) && r.producer == PIdle && |topic| <= 95
    ensures var q := Request(Some(topic), Some(data), |data|);
      Queue(PushResult(r, q)) ==
        Queue(r) + if |data| <= r.slotBytes && |Queue(r)| < |r.slots| - 1 then [Content(topic, data)] else []
  {
    RoomCheck(r);
    assert Queue(r) + [] == Queue(r);
    var m := r.slots[r.head];
    if |data| <= r.slotBytes { assert (data + m.payload[|data|..])[..|data|] == data; }
  }

  /** A push with a null buffer and a length is accepted, and delivers whatever the slot held. */
  lemma NullBufferDeliversStaleBytes(r: Ring, topic: string, len: nat)
    requires Inv(r) && r.producer == PIdle && 0 < len <= r.slotBytes && |Queue(r)| < |r.slots| - 1
    ensures var q := Request(Some(topic), None, len);
      Queue(PushResult(r, q)) == Queue(r) + [Content(CutTopic(topic), r.slots[r.head].payload[..len])]
  {
    var q := Request(Some(topic), None, len);
    RoomCheck(r);
  }

  // ------------------------------------------------------- the methods, run whole

  /** `push`, `pop` and `clear` when the other task happens not to run in between. */
  function PushWhole(r: Ring, q: Request): Ring
    requires Shape(r)
  {
    Produce(Produce(Produce(Produce(Produce(Take(r, PushCall(q)))))))
  }

  function PopWhole(r: Ring): Ring
    requires Shape(r)
  {
    Consume(Consume(Consume(Consume(Consume(Take(r, PopCall))))))
  }

  function ClearWhole(r: Ring): Ring
    requires Shape(r)
  {
    Consume(Take(r, ClearCall))
  }

  class SpscRing {
    var slots: array<Message>
    const slotBytes: nat
    var head: nat
    var tail: nat
    var dropped: Word32
    ghost var past: History

    ghost function View(): Ring
      reads this, slots
    {
      Ring(slots[..], slotBytes, head, tail, dropped, PIdle, CIdle, past)
    }

    constructor (n: nat, slotBytes: nat, blank: seq<Byte>)
      requires n > 0 && |blank| == slotBytes
      ensures fresh(slots) && View() == Empty(slots[..], slotBytes) && slots.Length == n
      ensures Inv(View())
    {
      this.slotBytes := slotBytes;
      slots := new Message[n](_ => Message("", blank, 0));
      head, tail, dropped := 0, 0, 0;
      past := History([], [], 0, 0, [], 0, 0);
      new;
      EveryInterleavingIsSound(slots[..], slotBytes, []);
    }

    method Push(q: Request) returns (ok: bool)
      requires Shape(View()) && Sane(q)
      modifies this`head, this`dropped, this`past, slots
      ensures View() == PushResult(old(View()), q)
      ensures ok <==> q.topic.Some? && q.len <= slotBytes && Next(old(head), slots.Length) != old(tail)
    {
      past := past.(attempts := past.attempts + 1);
      if q.topic.None? || q.len > slotBytes {
        CountDrop();
        return false;
      }
      var h := head;
      var next := Next(h, slots.Length);
      if next == tail {
        CountDrop();
        return false;
      }
      CopyToSlot(h, q);
      head := next;
      past := past.(requests := past.requests + [q], accepted := past.accepted + [Read(slots[h])]);
      return true;
    }

    method CountDrop()
      modifies this`dropped, this`past
      ensures dropped == Later(old(dropped), 1) && past == old(past).(drops := old(past).drops + 1)
    {
      dropped := Later(dropped, 1);
      past := past.(drops := past.drops + 1);
    }

    method CopyToSlot(h: nat, q: Request)
      requires h < slots.Length && q.topic.Some?
      modifies slots
      ensures slots[..] == old(slots[..])[h := Written(old(slots[h]), q)]
    {
      slots[h] := slots[h].(topic := CutTopic(q.topic.value));
      if q.len > 0 && q.data.Some? { slots[h] := slots[h].(payload := CopyInto(slots[h].payload, q)); }
      slots[h] := slots[h].(length := q.len);
    }

    method Pop() returns (ok: bool, out: Message)
      requires Shape(View())
      modifies this`tail, this`past
      ensures View() == PopResult(old(View()))
      ensures ok <==> old(tail) != head
      ensures ok ==> out == slots[old(tail)]
    {
      out := slots[tail];
      if tail == head { return false, out; }
      past := past.(taken := past.taken + 1, popped := past.popped + [Read(out)]);
      tail := Next(tail, slots.Length);
      return true, out;
    }

    method Clear()
      requires Shape(View())
      modifies this`tail, this`past
      ensures View() == ClearWhole(old(View())) && tail == head
    {
      tail := head;
      past := past.(taken := |past.accepted|, base := |past.accepted|, popped := []);
    }
  }

  /** A clear that nobody interrupts leaves nothing in flight. */
  lemma ClearEffect(r: Ring)
    requires Inv(r) && r.consumer == CIdle
    ensures Inv(ClearWhole(r)) && Queue(ClearWhole(r)) == []
  {
    StepKeeps(r, ClearCall);
    ConsumeKeeps(Take(r, ClearCall));
  }

  /** A slot after an accepted push: bytes past the length stay as they were. */
  function Written(m: Message, q: Request): Message
    requires q.topic.Some?
  {
    Message(CutTopic(q.topic.value), CopyInto(m.payload, q), q.len)
  }

  lemma ProduceWhole(r: Ring)
    requires Inv(r) && r.producer.PHead? && Next(r.producer.at, |r.slots|) != r.tail
    ensures var q, h := r.producer.req, r.producer.at; var m := Written(r.slots[h], q);
      var z := Produce(Produce(Produce(Produce(Produce(r)))));
      && Inv(z)
      && z == r.(slots := r.slots[h := m], head := Next(h, |r.slots|), producer := PIdle,
                 past := r.past.(requests := r.past.requests + [q], accepted := r.past.accepted + [Read(m)]))
  {
    ProduceKeeps(r);
    var r1 := Produce(r);
    ProduceKeeps(r1);
    var r2 := Produce(r1);
    ProduceKeeps(r2);
    var r3 := Produce(r2);
    ProduceKeeps(r3);
    ProduceKeeps(Produce(r3));
    StepsMakeAPush(r);
  }

  lemma StepsMakeAPush(r: Ring)
    requires Shape(r) && r.producer.PHead? && Next(r.producer.at, |r.slots|) != r.tail
    ensures var q, h := r.producer.req, r.producer.at; var m := Written(r.slots[h], q);
      Produce(Produce(Produce(Produce(Produce(r))))) ==
        r.(slots := r.slots[h := m], head := Next(h, |r.slots|), producer := PIdle,
           past := r.past.(requests := r.past.requests + [q], accepted := r.past.accepted + [Read(m)]))
  {
    var q, h := r.producer.req, r.producer.at;
    var r4 := Produce(Produce(Produce(Produce(r))));
    assert r4.slots == r.slots[h := Written(r.slots[h], q)];
  }

  /** Where a push that nobody interrupts leaves the ring. */
  function PushResult(r: Ring, q: Request): Ring
    requires Shape(r)
  {
    var past := r.past.(attempts := r.past.attempts + 1);
    if q.topic.None? || q.len > r.slotBytes || Next(r.head, |r.slots|) == r.tail then
      r.(dropped := Later(r.dropped, 1), past := past.(drops := past.drops + 1))
    else
      var m := Written(r.slots[r.head], q);
      r.(slots := r.slots[r.head := m], head := Next(r.head, |r.slots|),
         past := past.(requests := past.requests + [q], accepted := past.accepted + [Read(m)]))
  }

  /** A call that is refused before its index check does nothing more. */
  lemma DroppedPush(r: Ring, q: Request)
    requires Shape(r) && r.producer == PIdle && Sane(q) && (q.topic.None? || q.len > r.slotBytes)
    ensures PushWhole(r, q) == PushResult(r, q) == Take(r, PushCall(q))
  {}

  lemma PushEffect(r: Ring, q: Request)
    requires Inv(r) && r.producer == PIdle && Sane(q)
    ensures PushWhole(r, q) == PushResult(r, q) && Inv(PushResult(r, q))
  {
    PushCallKeeps(r, q);
    var r1 := Take(r, PushCall(q));
    if q.topic.None? || q.len > r.slotBytes {
      DroppedPush(r, q);
    } else if Next(r.head, |r.slots|) == r.tail {
      CheckKeeps(r1);
    } else {
      ProduceWhole(r1);
    }
  }

  /** Where a pop that nobody interrupts leaves the ring. */
  function PopResult(r: Ring): Ring
    requires Shape(r)
  {
    if r.tail == r.head then r
    else r.(tail := Next(r.tail, |r.slots|),
            past := r.past.(taken := r.past.taken + 1, popped := r.past.popped + [Read(r.slots[r.tail])]))
  }

  lemma ConsumeWhole(r: Ring)
    requires Inv(r) && r.consumer.CTail? && r.tail != r.head
    ensures var z := Consume(Consume(Consume(Consume(Consume(r)))));
      Inv(z) && z == PopResult(r.(consumer := CIdle))
  {
    ConsumeKeeps(r);
    var r1 := Consume(r);
    ConsumeKeeps(r1);
    var r2 := Consume(r1);
    ConsumeKeeps(r2);
    var r3 := Consume(r2);
    ConsumeKeeps(r3);
    ConsumeKeeps(Consume(r3));
    StepsMakeAPop(r);
  }

  lemma StepsMakeAPop(r: Ring)
    requires Shape(r) && r.consumer == CTail(r.tail) && r.tail != r.head
    ensures Consume(Consume(Consume(Consume(Consume(r))))) == PopResult(r.(consumer := CIdle))
  {
    var r3 := Consume(Consume(Consume(r)));
    assert r3.consumer == CPayload(r.tail, r.slots[r.tail].topic, r.slots[r.tail].payload);
  }

  lemma PopEffect(r: Ring)
    requires Inv(r) && r.consumer == CIdle
    ensures PopWhole(r) == PopResult(r) && Inv(PopResult(r))
    ensures r.tail == r.head <==> Queue(r) == []
  {
    var r1 := Take(r, PopCall);
    EmptyCheckKeeps(r1);
    if r.tail != r.head { ConsumeWhole(r1); }
  }

  /** A pop takes the oldest message in flight. */
  lemma PopTakesOldest(r: Ring)
    requires Inv(r) && r.consumer == CIdle
    ensures r.tail != r.head ==>
      Queue(r) != [] && Read(r.slots[r.tail]) == Queue(r)[0] && Queue(PopResult(r)) == Queue(r)[1..]
  {
    if r.tail != r.head { assert r.past.taken < |r.past.accepted|; }
  }
}
