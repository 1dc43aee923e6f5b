/**
 Reassembly and routing of incoming messages on the Wi-Fi session (`EspMqttClient::handle`).

 The broker's library cuts a payload larger than its buffer into fragments; only the first one
 carries the topic. What the handler hands on is recorded as a sequence of deliveries.
 */
module EspMqtt {
  import opened Words

  const ASSEMBLY_BYTES: nat := 1024
  const ASSEMBLY_TOPIC: nat := 96
  const TOPIC_LEN: nat := 128
  const MAX_RESERVED: nat := 4

  datatype Event =
    | Connected
    | Disconnected
    | Data(topic: Option<string>, data: seq<Byte>, total: nat, offset: nat)
    | Other

  datatype Delivery = Direct(topic: string, payload: seq<Byte>) | Queued(topic: string, payload: seq<Byte>)

  /** Which topics are the library's own, and whether the project installed a direct callback. */
  datatype Routing = Routing(reserved: seq<string>, direct: bool)

  datatype Session = Session(connected: bool, assembling: bool, assembly: seq<Byte>, topic: string)

  function Route(r: Routing, topic: string, payload: seq<Byte>): Delivery {
    if r.direct && topic !in r.reserved then Direct(topic, payload) else Queued(topic, payload)
  }

  /** A fragment joined to the assembly. */
  function Joined(r: Routing, s: Session, data: seq<Byte>, total: nat): (Session, seq<Delivery>) {
    var grown := s.assembly + data;
    if |grown| > ASSEMBLY_BYTES then (s.(assembling := false), [])
    else if |grown| >= total then (s.(assembling := false, assembly := []), [Route(r, s.topic, grown)])
    else (s.(assembly := grown), [])
  }

  /** A null topic reads as the empty string. */
  function NameOf(topic: Option<string>): string { if topic.Some? then topic.value else "" }

  function Started(s: Session, topic: Option<string>): Session {
    s.(assembling := true, assembly := [], topic := Cut(NameOf(topic), ASSEMBLY_TOPIC))
  }

  /** `handle`: the session afterwards and what was handed on. */
  function Handled(r: Routing, s: Session, e: Event): (Session, seq<Delivery>) {
    match e
    case Connected => (s.(connected := true), [])
    case Disconnected => (s.(connected := false, assembling := false), [])
    case Other => (s, [])
    case Data(topic, data, total, offset) =>
      if total <= |data| then (s, [Route(r, if topic.Some? then topic.value else s.topic, data)]) else
      var t := if offset == 0 then Started(s, topic) else s;
      if !t.assembling then (t, []) else Joined(r, t, data, total)
  }

  class EspMqttClient {
    var reserved: seq<string>
    var direct: bool
    var connected: bool
    var assembling: bool
    const assembly: array<Byte>
    var assemblyLen: nat
    var assemblyTopic: string
    var delivered: seq<Delivery>

    ghost predicate Valid() reads this, assembly { assembly.Length == ASSEMBLY_BYTES && assemblyLen <= ASSEMBLY_BYTES }

    ghost function View(): Session
      requires Valid()
      reads this, assembly
    {
      Session(connected, assembling, assembly[..assemblyLen], assemblyTopic)
    }

    ghost function Routes(): Routing reads this { Routing(reserved, direct) }

    constructor (blank: seq<Byte>)
      requires |blank| == ASSEMBLY_BYTES
      ensures Valid() && View() == Session(false, false, [], "") && Routes() == Routing([], false) && delivered == []
    {
      reserved, direct, connected, assembling := [], false, false, false;
      assembly := new Byte[ASSEMBLY_BYTES](i requires 0 <= i < |blank| => blank[i]);
      assemblyLen, assemblyTopic, delivered := 0, "", [];
    }

    method SetDirectCallback(installed: bool)
      modifies `direct
      ensures direct == installed
    {
      direct := installed;
    }

    method IsReserved(topic: string) returns (found: bool)
      ensures found <==> topic in reserved
    {
      for i := 0 to |reserved|
        invariant topic !in reserved[..i]
      {
        if reserved[i] == topic { return true; }
      }
      assert reserved[..|reserved|] == reserved;
      return false;
    }

    /** `reserveTopic`: a null or empty topic, a full table and a known topic change nothing. */
    method ReserveTopic(topic: Option<string>)
      modifies `reserved
      ensures topic.None? || topic.value == "" || |old(reserved)| >= MAX_RESERVED || topic.value in old(reserved)
        ==> reserved == old(reserved)
      ensures topic.Some? && topic.value != "" && |old(reserved)| < MAX_RESERVED && topic.value !in old(reserved)
        ==> reserved == old(reserved) + [Cut(topic.value, TOPIC_LEN)]
      ensures |old(reserved)| <= MAX_RESERVED ==> |reserved| <= MAX_RESERVED
    {
      if topic.None? || topic.value == "" { return; }
      if |reserved| >= MAX_RESERVED { return; }
      var known := IsReserved(topic.value);
      if known { return; }
      reserved := reserved + [Cut(topic.value, TOPIC_LEN)];
    }

    method Deliver(topic: string, payload: seq<Byte>)
      modifies `delivered
      ensures delivered == old(delivered) + [Route(Routes(), topic, payload)]
    {
      var own := IsReserved(topic);
      delivered := delivered + [if direct && !own then Direct(topic, payload) else Queued(topic, payload)];
    }

    /** `memcpy` into the assembly buffer, which never overflows. */
    method Append(data: seq<Byte>)
      requires Valid() && assemblyLen + |data| <= ASSEMBLY_BYTES
      modifies `assemblyLen, assembly
      ensures Valid() && assembly[..assemblyLen] == old(assembly[..assemblyLen]) + data
    {
      for i := 0 to |data|
        invariant assemblyLen == old(assemblyLen)
        invariant forall k :: 0 <= k < assemblyLen ==> assembly[k] == old(assembly[k])
        invariant forall k :: 0 <= k < i ==> assembly[assemblyLen + k] == data[k]
      {
        assembly[assemblyLen + i] := data[i];
      }
      assemblyLen := assemblyLen + |data|;
    }

    method Handle(e: Event)
      requires Valid()
      modifies this, assembly
      ensures Valid() && Routes() == old(Routes())
      ensures (View(), delivered) ==
        var (s, out) := Handled(old(Routes()), old(View()), e); (s, old(delivered) + out)
    {
      assert delivered + [] == delivered;
      match e
      case Connected => connected := true;
      case Disconnected =>
        connected := false;
        assembling := false;
      case Other =>
      case Data(topic, data, total, offset) =>
        if total <= |data| {
          Deliver(if topic.Some? then topic.value else assemblyTopic, data);
          return;
        }
        if offset == 0 {
          assembling := true;
          assemblyLen := 0;
          assemblyTopic := Cut(NameOf(topic), ASSEMBLY_TOPIC);
        }
        if !assembling { return; }
        Fragment(data, total);
    }

    method Fragment(data: seq<Byte>, total: nat)
      requires Valid()
      modifies `assembling, `assemblyLen, `delivered, assembly
      ensures Valid()
      ensures (View(), delivered) ==
        var (s, out) := Joined(Routes(), old(View()), data, total); (s, old(delivered) + out)
    {
      assert delivered + [] == delivered;
      if assemblyLen + |data| > ASSEMBLY_BYTES {
        assembling := false;
        return;
      }
      Append(data);
      if assemblyLen >= total {
        Deliver(assemblyTopic, assembly[..assemblyLen]);
        assembling := false;
        assemblyLen := 0;
      }
    }
  }

  // ------------------------------------------------------------------- whole streams

  function Handle(r: Routing, s: Session, events: seq<Event>): (Session, seq<Delivery>) {
    if events == [] then (s, []) else
    var (t, before) := Handle(r, s, events[..|events| - 1]);
    var (u, out) := Handled(r, t, events[|events| - 1]);
    (u, before + out)
  }

  lemma {:induction false} HandleConcat(r: Routing, s: Session, a: seq<Event>, b: seq<Event>)
    ensures var (t, x) := Handle(r, s, a); var (u, y) := Handle(r, t, b); Handle(r, s, a + b) == (u, x + y)
  {
    var (t, x) := Handle(r, s, a);
    if b == [] {
      assert a + b == a && x + [] == x;
    } else {
      var most := b[..|b| - 1];
      HandleConcat(r, s, a, most);
      assert (a + b)[..|a + b| - 1] == a + most;
      var (v, z) := Handle(r, t, most);
      var (u, out) := Handled(r, v, b[|b| - 1]);
      assert x + z + out == x + (z + out);
    }
  }

  lemma OneEvent(r: Routing, s: Session, e: Event)
    ensures Handle(r, s, [e]) == Handled(r, s, e)
  {
    assert [e][..0] == [];
    var (u, out) := Handled(r, s, e);
    assert [] + out == out;
  }

  predicate Fragmented(e: Event) { e.Data? && |e.data| < e.total }

  predicate First(e: Event) { Fragmented(e) && e.offset == 0 }

  /** What ends a message that is being put together. */
  predicate Breaks(e: Event) { e.Disconnected? || First(e) }

  /** The fragments of a stream joined, whatever lies between them. */
  function Bytes(events: seq<Event>): seq<Byte> {
    if events == [] then []
    else
      var last := events[|events| - 1];
      Bytes(events[..|events| - 1]) + if Fragmented(last) then last.data else []
  }

  /** A message that began at event i is being put together: nothing has broken it off, and after
      each of its fragments it fitted the buffer and was short of its announced length. */
  ghost predicate Running(events: seq<Event>, i: nat) {
    && i < |events| && First(events[i])
    && (forall k :: i < k < |events| ==> !Breaks(events[k]))
    && (forall k :: i <= k < |events| ==> Unfinished(events, i, k))
  }

  predicate Unfinished(events: seq<Event>, i: nat, k: nat)
    requires i <= k < |events|
  {
    Fragmented(events[k]) ==>
      var n := |Bytes(events[i..k + 1])|; n <= ASSEMBLY_BYTES && n < events[k].total
  }

  /** The next event is the last fragment of the message that began at event i, and all of it fits. */
  ghost predicate Completes(events: seq<Event>, e: Event, i: nat) {
    Running(events, i) && Fragmented(e) && !Breaks(e)
    && e.total <= |Bytes(events[i..]) + e.data| <= ASSEMBLY_BYTES
  }

  lemma BytesSnoc(events: seq<Event>, e: Event, i: nat)
    requires i <= |events|
    ensures Bytes((events + [e])[i..]) == Bytes(events[i..]) + if Fragmented(e) then e.data else []
  {
    var f := (events + [e])[i..];
    assert f == events[i..] + [e] && f[..|f| - 1] == events[i..];
  }

  lemma RunningSnoc(events: seq<Event>, e: Event, i: nat)
    requires i < |events|
    ensures Running(events + [e], i) <==>
      && Running(events, i) && !Breaks(e)
      && (Fragmented(e) ==>
        var n := |Bytes(events[i..]) + e.data|; n <= ASSEMBLY_BYTES && n < e.total)
  {
    var f, n := events + [e], |events|;
    BytesSnoc(events, e, i);
    assert f[i..n + 1] == f[i..] && f[n] == e;
    if Running(f, i) {
      assert Unfinished(f, i, n) && !Breaks(f[n]);
      RunningBefore(events, e, i);
    }
    if Running(events, i) && !Breaks(e) && Unfinished(f, i, n) { RunningAfter(events, e, i); }
  }

  lemma RunningBefore(events: seq<Event>, e: Event, i: nat)
    requires i < |events| && Running(events + [e], i)
    ensures Running(events, i)
  {
    var f := events + [e];
    forall k | i <= k < |events| ensures Unfinished(events, i, k) {
      assert Unfinished(f, i, k) && f[i..k + 1] == events[i..k + 1];
    }
    forall k | i < k < |events| ensures !Breaks(events[k]) { assert !Breaks(f[k]); }
  }

  lemma RunningAfter(events: seq<Event>, e: Event, i: nat)
    requires i < |events| && Running(events, i) && !Breaks(e) && Unfinished(events + [e], i, |events|)
    ensures Running(events + [e], i)
  {
    var f := events + [e];
    forall k | i <= k < |f| ensures Unfinished(f, i, k) {
      if k < |events| { assert Unfinished(events, i, k) && f[i..k + 1] == events[i..k + 1]; }
    }
    forall k | i < k < |f| ensures !Breaks(f[k]) { if k < |events| { assert !Breaks(events[k]); } }
  }

  lemma RunningFirst(events: seq<Event>, e: Event)
    ensures Running(events + [e], |events|) <==> First(e) && |e.data| <= ASSEMBLY_BYTES
  {
    var f, n := events + [e], |events|;
    assert f[n..n + 1] == [e] && [e][..0] == [] && f[n] == e;
    assert Bytes([e]) == Bytes([]) + if Fragmented(e) then e.data else [];
    if Running(f, n) { assert Unfinished(f, n, n); }
  }

  /** The session, from the stream alone: it is assembling exactly when some message is being put
      together, and holds exactly that message's fragments and its topic. */
  ghost predicate Assembles(s: Session, events: seq<Event>) {
    && (s.assembling ==> exists i: nat :: Running(events, i))
    && (forall i: nat :: Running(events, i) ==> HoldsMessage(s, events, i))
  }

  predicate HoldsMessage(s: Session, events: seq<Event>, i: nat) {
    i < |events| && events[i].Data? && s.assembling && s.assembly == Bytes(events[i..])
    && s.topic == Cut(NameOf(events[i].topic), ASSEMBLY_TOPIC)
  }

  /** At most one message is being put together. */
  lemma OnlyOneRuns(events: seq<Event>, i: nat, j: nat)
    requires Running(events, i) && Running(events, j)
    ensures i == j
  {
    if i < j { assert Breaks(events[j]); } else if j < i { assert Breaks(events[i]); }
  }

  lemma FirstHolds(r: Routing, s: Session, events: seq<Event>, e: Event)
    requires First(e)
    ensures Assembles(Handled(r, s, e).0, events + [e])
  {
    var f, t := events + [e], Handled(r, s, e).0;
    RunningFirst(events, e);
    BytesSnoc(events, e, |events|);
    assert events[|events|..] == [] && [] + e.data == e.data;
    forall i: nat | Running(f, i) ensures HoldsMessage(t, f, i) {
      if i < |events| { RunningSnoc(events, e, i); }
    }
  }

  lemma StepHolds(r: Routing, s: Session, events: seq<Event>, e: Event)
    requires !First(e) && Assembles(s, events)
    ensures Assembles(Handled(r, s, e).0, events + [e])
  {
    var f, t := events + [e], Handled(r, s, e).0;
    RunningFirst(events, e);
    forall i: nat | Running(f, i) ensures HoldsMessage(t, f, i) {
      RunningSnoc(events, e, i);
      BytesSnoc(events, e, i);
      assert HoldsMessage(s, events, i);
      assert Bytes(events[i..]) + [] == Bytes(events[i..]);
    }
    if t.assembling {
      var i: nat :| Running(events, i);
      assert HoldsMessage(s, events, i);
      RunningSnoc(events, e, i);
      assert Running(f, i);
    }
  }

  lemma {:induction false} AssemblyIsOneMessage(r: Routing, s: Session, events: seq<Event>)
    requires !s.assembling
    ensures Assembles(Handle(r, s, events).0, events)
  {
    if events != [] {
      var most, e := events[..|events| - 1], events[|events| - 1];
      AssemblyIsOneMessage(r, s, most);
      var t := Handle(r, s, most).0;
      assert most + [e] == events;
      if First(e) { FirstHolds(r, t, most, e); } else { StepHolds(r, t, most, e); }
    }
  }

  /** For any events whatsoever, from a session that is in the middle of nothing: a fragment hands a
      message on if and only if it completes one, and then exactly that one. What was broken off by a
      disconnection or by another first fragment, or grew past 1024 bytes, never is. */
  lemma DeliversOnlyCompleteMessages(r: Routing, s: Session, events: seq<Event>, e: Event)
    requires !s.assembling && Fragmented(e)
    ensures var out := Handled(r, Handle(r, s, events).0, e).1;
      && (out != [] <==> exists i: nat :: Completes(events, e, i))
      && forall i: nat :: Completes(events, e, i) ==>
        out == [Route(r, Cut(NameOf(events[i].topic), ASSEMBLY_TOPIC), Bytes(events[i..]) + e.data)]
  {
    AssemblyIsOneMessage(r, s, events);
    var t := Handle(r, s, events).0;
    forall i: nat | Running(events, i) ensures HoldsMessage(t, events, i) {}
    if Handled(r, t, e).1 != [] {
      var i: nat :| Running(events, i);
      assert HoldsMessage(t, events, i);
      assert Completes(events, e, i);
    }
  }

  /** A message that comes in one event is handed on at once, under its own topic and whole; without a
      topic, under the last one assembled. */
  lemma WholeIsHandedOn(r: Routing, s: Session, topic: string, data: seq<Byte>, total: nat, offset: nat)
    requires total <= |data|
    ensures Handled(r, s, Data(Some(topic), data, total, offset)) == (s, [Route(r, topic, data)])
    ensures Handled(r, s, Data(None, data, total, offset)) == (s, [Route(r, s.topic, data)])
  {}

  /** Over any events: exactly what is not the library's own goes to the direct callback, and without
      one nothing does. */
  lemma {:induction false} DirectExactlyWhen(r: Routing, s: Session, events: seq<Event>)
    ensures forall d :: d in Handle(r, s, events).1 ==> (d.Direct? <==> r.direct && d.topic !in r.reserved)
  {
    if events != [] { DirectExactlyWhen(r, s, events[..|events| - 1]); }
  }

  /** The last thing the library said of the connection. */
  function LastWord(before: bool, events: seq<Event>): bool {
    if events == [] then before
    else
      var e := events[|events| - 1];
      if e.Connected? then true else if e.Disconnected? then false else LastWord(before, events[..|events| - 1])
  }

  /** Messages, whole or not, leave the connection as it was last said to be. */
  lemma {:induction false} ConnectedIsTheLastWord(r: Routing, s: Session, events: seq<Event>)
    ensures Handle(r, s, events).0.connected == LastWord(s.connected, events)
  {
    if events != [] { ConnectedIsTheLastWord(r, s, events[..|events| - 1]); }
  }

  // ----------------------------------------------------------------------- the senders

  /** What may lie between the fragments of a message without disturbing it. */
  predicate Quiet(e: Event) { e.Connected? || e.Other? || (e.Data? && !Fragmented(e) && e.topic.Some?) }

  /** What may still arrive of a message that was broken off. */
  predicate Leftover(e: Event) { Quiet(e) || e.Disconnected? || (Fragmented(e) && e.offset > 0) }

  /** What the broker sends: a message that fits one event; a message in fragments of which the first
      `arrived` get through before it is abandoned, with what follows each of them; a change of the
      connection; or a disconnection with the rest of what it broke off. */
  datatype Item =
    | Whole(topic: string, payload: seq<Byte>)
    | Pieces(name: Option<string>, pieces: seq<seq<Byte>>, arrived: nat, between: seq<seq<Event>>)
    | Link(up: bool)
    | BrokenOff(rest: seq<Event>)

  function Joint(pieces: seq<seq<Byte>>): seq<Byte> {
    if pieces == [] then [] else Joint(pieces[..|pieces| - 1]) + pieces[|pieces| - 1]
  }

  predicate ItemOk(i: Item) {
    match i
    case Pieces(_, pieces, arrived, between) => PiecesOk(pieces, between) && arrived <= |pieces|
    case BrokenOff(rest) => forall k :: 0 <= k < |rest| ==> Leftover(rest[k])
    case _ => true
  }

  predicate PiecesOk(pieces: seq<seq<Byte>>, between: seq<seq<Event>>) {
    && |pieces| >= 2 && (forall k :: 0 <= k < |pieces| ==> pieces[k] != [])
    && |between| == |pieces| && forall k :: 0 <= k < |between| ==> AllQuiet(between[k])
  }

  predicate AllQuiet(events: seq<Event>) { forall k :: 0 <= k < |events| ==> Quiet(events[k]) }

  function Fragment(name: Option<string>, pieces: seq<seq<Byte>>, k: nat): Event
    requires k < |pieces|
  {
    Data(if k == 0 then name else None, pieces[k], |Joint(pieces)|, |Joint(pieces[..k])|)
  }

  /** The first n fragments, in order and contiguous, each with what follows it. */
  function Fragments(name: Option<string>, pieces: seq<seq<Byte>>, between: seq<seq<Event>>, n: nat): seq<Event>
    requires n <= |pieces| == |between|
  {
    if n == 0 then []
    else Fragments(name, pieces, between, n - 1) + [Fragment(name, pieces, n - 1)] + between[n - 1]
  }

  function Lower(i: Item): seq<Event>
    requires ItemOk(i)
  {
    match i
    case Whole(topic, payload) => [Data(Some(topic), payload, |payload|, 0)]
    case Pieces(name, pieces, arrived, between) => Fragments(name, pieces, between, arrived)
    case Link(up) => [if up then Connected else Disconnected]
    case BrokenOff(rest) => [Disconnected] + rest
  }

  /** The messages that came in one event. */
  function Wholes(r: Routing, events: seq<Event>): seq<Delivery> {
    if events == [] then []
    else
      var last := events[|events| - 1];
      Wholes(r, events[..|events| - 1])
      + if last.Data? && !Fragmented(last) then [Route(r, NameOf(last.topic), last.data)] else []
  }

  /** A message after n of its fragments: handed on if they are all, and fit. */
  function Complete(r: Routing, name: Option<string>, pieces: seq<seq<Byte>>, n: nat): seq<Delivery> {
    if n < |pieces| || |Joint(pieces)| > ASSEMBLY_BYTES then []
    else [Route(r, Cut(NameOf(name), ASSEMBLY_TOPIC), Joint(pieces))]
  }

  function ExpectedPieces(r: Routing, name: Option<string>, pieces: seq<seq<Byte>>, between: seq<seq<Event>>, n: nat)
      : seq<Delivery>
    requires n <= |pieces| == |between|
  {
    if n == 0 then []
    else ExpectedPieces(r, name, pieces, between, n - 1) + Complete(r, name, pieces, n) + Wholes(r, between[n - 1])
  }

  /** What ought to be handed on: every message in one event, and every complete one of at most 1024
      bytes; nothing else. */
  function Expected(r: Routing, i: Item): seq<Delivery>
    requires ItemOk(i)
  {
    match i
    case Whole(topic, payload) => [Route(r, topic, payload)]
    case Pieces(name, pieces, arrived, between) => ExpectedPieces(r, name, pieces, between, arrived)
    case Link(_) => []
    case BrokenOff(rest) => Wholes(r, rest)
  }

  lemma {:induction false} JointGrows(pieces: seq<seq<Byte>>, n: nat)
    requires n <= |pieces| && forall k :: 0 <= k < |pieces| ==> pieces[k] != []
    ensures |Joint(pieces[..n])| + (|pieces| - n) <= |Joint(pieces)|
    decreases |pieces| - n
  {
    if n == |pieces| {
      assert pieces[..n] == pieces;
    } else {
      assert pieces[..n + 1][..n] == pieces[..n];
      JointGrows(pieces, n + 1);
    }
  }

  /** After n fragments of a message, the assembly holds exactly them, or the message was too long
      and has been given up. */
  predicate Halfway(s: Session, name: Option<string>, sofar: seq<Byte>) {
    && (s.assembling <==> |sofar| <= ASSEMBLY_BYTES)
    && (s.assembling ==> s.assembly == sofar && s.topic == Cut(NameOf(name), ASSEMBLY_TOPIC))
  }

  lemma FirstFragment(r: Routing, s: Session, name: Option<string>, pieces: seq<seq<Byte>>)
    requires |pieces| >= 2 && forall k :: 0 <= k < |pieces| ==> pieces[k] != []
    ensures var (t, out) := Handled(r, s, Fragment(name, pieces, 0));
      out == [] && Halfway(t, name, Joint(pieces[..1]))
  {
    JointGrows(pieces, 1);
    assert pieces[..1][..0] == [] && Joint(pieces[..1]) == Joint([]) + pieces[0];
    assert pieces[..0] == [];
    assert [] + pieces[0] == pieces[0];
  }

  lemma NextFragment(r: Routing, s: Session, name: Option<string>, pieces: seq<seq<Byte>>, n: nat)
    requires 1 <= n < |pieces| && forall k :: 0 <= k < |pieces| ==> pieces[k] != []
    requires Halfway(s, name, Joint(pieces[..n]))
    ensures var (t, out) := Handled(r, s, Fragment(name, pieces, n));
      && (n + 1 < |pieces| ==> out == [] && Halfway(t, name, Joint(pieces[..n + 1])))
      && (n + 1 == |pieces| ==> out == Complete(r, name, pieces, n + 1))
  {
    assert pieces[..n + 1][..n] == pieces[..n];
    assert Joint(pieces[..n + 1]) == Joint(pieces[..n]) + pieces[n];
    assert pieces[..0] == [];
    JointGrows(pieces[..n], 0);
    JointGrows(pieces, n + 1);
    assert pieces[..n][..0] == [];
    if n + 1 == |pieces| { assert pieces[..n + 1] == pieces; }
  }

  lemma {:induction false} QuietPasses(r: Routing, s: Session, events: seq<Event>)
    requires AllQuiet(events)
    ensures var (t, out) := Handle(r, s, events); out == Wholes(r, events) && t == s.(connected := t.connected)
  {
    if events != [] { QuietPasses(r, s, events[..|events| - 1]); }
  }

  lemma {:induction false} LeftoversPass(r: Routing, s: Session, events: seq<Event>)
    requires !s.assembling && forall k :: 0 <= k < |events| ==> Leftover(events[k])
    ensures var (t, out) := Handle(r, s, events); out == Wholes(r, events) && !t.assembling
  {
    if events != [] { LeftoversPass(r, s, events[..|events| - 1]); }
  }

  lemma NextPiece(r: Routing, s: Session, name: Option<string>, pieces: seq<seq<Byte>>, n: nat)
    requires n < |pieces| && |pieces| >= 2 && forall k :: 0 <= k < |pieces| ==> pieces[k] != []
    requires n > 0 ==> Halfway(s, name, Joint(pieces[..n]))
    ensures var (t, out) := Handled(r, s, Fragment(name, pieces, n));
      out == Complete(r, name, pieces, n + 1) && (n + 1 < |pieces| ==> Halfway(t, name, Joint(pieces[..n + 1])))
  {
    if n == 0 { FirstFragment(r, s, name, pieces); } else { NextFragment(r, s, name, pieces, n); }
  }

  lemma {:induction false} FragmentsAssemble(r: Routing, s: Session, name: Option<string>, pieces: seq<seq<Byte>>,
                                             between: seq<seq<Event>>, n: nat)
    requires PiecesOk(pieces, between) && n <= |pieces|
    ensures var (t, out) := Handle(r, s, Fragments(name, pieces, between, n));
      && out == ExpectedPieces(r, name, pieces, between, n)
      && (1 <= n < |pieces| ==> Halfway(t, name, Joint(pieces[..n])))
  {
    if n > 0 {
      FragmentsAssemble(r, s, name, pieces, between, n - 1);
      var a, f, q := Fragments(name, pieces, between, n - 1), Fragment(name, pieces, n - 1), between[n - 1];
      var t := Handle(r, s, a).0;
      HandleConcat(r, s, a, [f]);
      OneEvent(r, t, f);
      NextPiece(r, t, name, pieces, n - 1);
      var u := Handled(r, t, f).0;
      HandleConcat(r, s, a + [f], q);
      assert AllQuiet(q);
      QuietPasses(r, u, q);
    }
  }

  function LowerAll(items: seq<Item>): seq<Event>
    requires forall k :: 0 <= k < |items| ==> ItemOk(items[k])
  {
    if items == [] then [] else Lower(items[0]) + LowerAll(items[1..])
  }

  function ExpectedAll(r: Routing, items: seq<Item>): seq<Delivery>
    requires forall k :: 0 <= k < |items| ==> ItemOk(items[k])
  {
    if items == [] then [] else Expected(r, items[0]) + ExpectedAll(r, items[1..])
  }

  lemma OneItem(r: Routing, s: Session, i: Item)
    requires ItemOk(i)
    ensures Handle(r, s, Lower(i)).1 == Expected(r, i)
  {
    match i
    case Whole(topic, payload) => OneEvent(r, s, Data(Some(topic), payload, |payload|, 0));
    case Pieces(name, pieces, arrived, between) => FragmentsAssemble(r, s, name, pieces, between, arrived);
    case Link(up) => OneEvent(r, s, if up then Connected else Disconnected);
    case BrokenOff(rest) => BrokenOffPasses(r, s, rest);
  }

  lemma BrokenOffPasses(r: Routing, s: Session, rest: seq<Event>)
    requires forall k :: 0 <= k < |rest| ==> Leftover(rest[k])
    ensures Handle(r, s, [Disconnected] + rest).1 == Wholes(r, rest)
  {
    OneEvent(r, s, Disconnected);
    var t := Handled(r, s, Disconnected).0;
    LeftoversPass(r, t, rest);
    HandleConcat(r, s, [Disconnected], rest);
    assert [] + Wholes(r, rest) == Wholes(r, rest);
  }

  /** Whatever the session was in the middle of, and however messages are cut, mixed with whole ones,
      abandoned, or broken off by disconnections with the rest still coming in: what is handed on is
      every message in one event and every complete fragmented one that fits, once, in order, and
      nothing else. */
  lemma {:induction false} DeliveredExactly(r: Routing, s: Session, items: seq<Item>)
    requires forall k :: 0 <= k < |items| ==> ItemOk(items[k])
    ensures Handle(r, s, LowerAll(items)).1 == ExpectedAll(r, items)
    decreases |items|
  {
    if items != [] {
      OneItem(r, s, items[0]);
      var t := Handle(r, s, Lower(items[0])).0;
      DeliveredExactly(r, t, items[1..]);
      HandleConcat(r, s, Lower(items[0]), LowerAll(items[1..]));
    }
  }

  /** A fragmented message is routed under its topic cut to 95 characters. One of the library's own
      topics therefore keeps its way into the queue exactly when it is short enough to survive the
      cut, or its first 95 characters are reserved as well. */
  lemma ReservedFragmentsStayQueued(r: Routing, topic: string, pieces: seq<seq<Byte>>)
    requires r.direct && topic in r.reserved && |Joint(pieces)| <= ASSEMBLY_BYTES
    ensures var out := Complete(r, Some(topic), pieces, |pieces|);
      |out| == 1 && (out[0].Queued? <==> |topic| < ASSEMBLY_TOPIC || topic[..ASSEMBLY_TOPIC - 1] in r.reserved)
  {}
}
