/**
 The byte-level conversation between the MQTT socket and the modem: CIPSEND with its prompt,
 acceptance and neutralising null bytes (`GsmLink::enviarMqtt`), and the second opinion asked
 before a socket is given up (`SocketMqttGsm::connected`).

 The modem is an automaton. Having accepted a CIPSEND for n bytes it takes the next n bytes off
 the UART as data, whatever they are; every other byte goes to its command interpreter.
 */
module GsmModem {
  import opened Words

  datatype Uart = Uart(pending: nat, data: seq<Byte>, commands: seq<Byte>)

  function Taken(m: Uart, bytes: seq<Byte>): Uart {
    var n := Min(|bytes|, m.pending);
    Uart(m.pending - n, m.data + bytes[..n], m.commands + bytes[n..])
  }

  /** A CIPSEND command on the wire. Only a modem that is listening for commands can accept it. */
  function Announced(m: Uart, command: seq<Byte>, n: nat, accepts: bool): Uart {
    var heard := Taken(m, command);
    if m.pending == 0 && accepts then heard.(pending := n) else heard
  }

  /** What the modem decides and what the waits return: 1 and 2 are the expected texts in order,
      anything else is a timeout. `claimed` is the number after DATA ACCEPT. */
  datatype Answers = Answers(accepts: bool, prompt: int, aceite: int, line: int, claimed: int)

  /** The prompt is only shown for an accepted CIPSEND, the error only for a refused one. */
  predicate Honest(a: Answers) { (a.prompt == 1 ==> a.accepts) && (a.prompt == 2 ==> !a.accepts) }

  function Nulls(n: nat): seq<Byte> { seq(n, i => 0) }

  const PIECE: nat := 64

  /** The modem after `enviarMqtt`, and what it returns. */
  function Sent(m: Uart, command: seq<Byte>, payload: seq<Byte>, a: Answers): (Uart, nat) {
    if payload == [] then (m, 0) else
    var asked := Announced(m, command, |payload| % 0x1_0000, a.accepts);
    if a.prompt == 2 then (asked, 0)
    else if a.prompt != 1 then (Taken(asked, Nulls(|payload|)), 0)
    else (Taken(asked, payload), if a.aceite == 1 && a.line == 1 && a.claimed > 0 then a.claimed else 0)
  }

  class Modem {
    var uart: Uart

    constructor ()
      ensures uart == Uart(0, [], [])
    {
      uart := Uart(0, [], []);
    }

    method Write(bytes: seq<Byte>)
      modifies this
      ensures uart == Taken(old(uart), bytes)
    {
      uart := Taken(uart, bytes);
    }

    method SendCipsend(command: seq<Byte>, n: nat, accepts: bool)
      modifies this
      ensures uart == Announced(old(uart), command, n, accepts)
    {
      uart := Announced(uart, command, n, accepts);
    }
  }

  /** `enviarMqtt`. The modem and the buffer may be null. */
  method EnviarMqtt(modem: Modem?, buf: array?<Byte>, len: nat, command: seq<Byte>, a: Answers) returns (sent: nat)
    requires buf != null ==> len <= buf.Length
    modifies modem
    ensures modem == null || buf == null ==> sent == 0
    ensures modem != null && buf == null ==> modem.uart == old(modem.uart)
    ensures modem != null && buf != null ==> (modem.uart, sent) == Sent(old(modem.uart), command, buf[..len], a)
  {
    if modem == null || buf == null || len == 0 { return 0; }
    ghost var payload := buf[..len];
    modem.SendCipsend(command, len % 0x1_0000, a.accepts);
    if a.prompt == 2 { return 0; }
    if a.prompt != 1 {
      ghost var asked := modem.uart;
      NothingTaken(asked);
      var falta := len;
      while falta > 0
        invariant 0 <= falta <= len && modem.uart == Taken(asked, Nulls(len - falta))
      {
        var n := if falta < PIECE then falta else PIECE;
        TakenInPieces(asked, Nulls(len - falta), Nulls(n));
        NullsAdd(len - falta, n);
        modem.Write(Nulls(n));
        falta := falta - n;
      }
      return 0;
    }
    modem.Write(buf[..len]);
    if a.aceite != 1 { return 0; }
    if a.line != 1 { return 0; }
    return if a.claimed > 0 then a.claimed else 0;
  }

  lemma NullsAreZeros(n: nat)
    ensures |Nulls(n)| == n && forall i :: 0 <= i < n ==> Nulls(n)[i] == 0
  {}

  lemma NullsAdd(a: nat, b: nat)
    ensures Nulls(a) + Nulls(b) == Nulls(a + b)
  {}

  lemma NothingTaken(m: Uart)
    ensures Taken(m, Nulls(0)) == m
  {
    assert Nulls(0) == [];
    assert m.data + [] == m.data && m.commands + [] == m.commands;
  }

  /** Writing in pieces is writing the whole. */
  lemma TakenInPieces(m: Uart, a: seq<Byte>, b: seq<Byte>)
    ensures Taken(Taken(m, a), b) == Taken(m, a + b)
  {
    var whole := a + b;
    if |a| <= m.pending {
      var n := Min(|whole|, m.pending);
      assert whole[..n] == a + b[..n - |a|] && whole[n..] == b[n - |a|..];
      assert m.commands + a[|a|..] + b[n - |a|..] == m.commands + b[n - |a|..];
      assert m.data + a[..|a|] + b[..n - |a|] == m.data + (a + b[..n - |a|]);
    } else {
      var n := m.pending;
      assert whole[..n] == a[..n] && whole[n..] == a[n..] + b;
      assert m.commands + a[n..] + b == m.commands + (a[n..] + b);
      assert m.data + a[..n] + b[..0] == m.data + a[..n];
      assert b[0..] == b;
    }
  }

  // ---------------------------------------------------------------- resynchronisation

  /** What a send should put in the data stream: its payload, nulls in its place, or nothing. */
  function Frame(payload: seq<Byte>, a: Answers): seq<Byte> {
    if !a.accepts then [] else if a.prompt == 1 then payload else Nulls(|payload|)
  }

  /** What a send should put in front of the command interpreter: its own command, and nulls when
      the modem had refused without saying so. */
  function Heard(command: seq<Byte>, payload: seq<Byte>, a: Answers): seq<Byte> {
    if payload == [] then []
    else command + if !a.accepts && a.prompt != 2 then Nulls(|payload|) else []
  }

  predicate InStep(m: Uart, after: Uart, command: seq<Byte>, payload: seq<Byte>, a: Answers) {
    after == Uart(0, m.data + Frame(payload, a), m.commands + Heard(command, payload, a))
  }

  /** From command mode, a send leaves the modem in command mode with exactly the announced bytes
      taken as data, unless a payload too long for the 16-bit announcement is accepted. */
  lemma SendResynchronises(m: Uart, command: seq<Byte>, payload: seq<Byte>, a: Answers)
    requires m.pending == 0 && Honest(a)
    ensures InStep(m, Sent(m, command, payload, a).0, command, payload, a) <==> |payload| <= 0xffff || !a.accepts
  {
    if payload == [] {
      assert Frame(payload, a) == [];
      assert m.data + [] == m.data && m.commands + [] == m.commands;
    } else {
      var n := |payload| % 0x1_0000;
      var asked := Announced(m, command, n, a.accepts);
      assert asked == Uart(if a.accepts then n else 0, m.data, m.commands + command) by {
        assert m.data + command[..0] == m.data && command[0..] == command;
      }
      if a.prompt == 2 {
        assert m.data + [] == m.data && command + [] == command;
      } else {
        var written := if a.prompt == 1 then payload else Nulls(|payload|);
        WholeOrSpilled(asked, written);
        RefusedIsHeard(m, command, written);
        assert command + [] == command;
      }
    }
  }

  lemma WholeOrSpilled(asked: Uart, written: seq<Byte>)
    ensures asked.pending == |written| ==> Taken(asked, written) == Uart(0, asked.data + written, asked.commands)
    ensures asked.pending == 0 ==> Taken(asked, written) == Uart(0, asked.data, asked.commands + written)
    ensures asked.pending < |written| ==> |Taken(asked, written).data| < |asked.data| + |written|
  {
    assert written[..|written|] == written && written[0..] == written && written[|written|..] == [] == written[..0];
    assert asked.commands + [] == asked.commands && asked.data + [] == asked.data;
  }

  lemma RefusedIsHeard(m: Uart, command: seq<Byte>, written: seq<Byte>)
    ensures m.commands + command + written == m.commands + (command + written)
    ensures m.data + [] == m.data
  {}

  /** The oversized case: the head of the payload is data, its tail is read as commands. */
  lemma OversizedPayloadSpills(m: Uart, command: seq<Byte>, payload: seq<Byte>, a: Answers)
    requires m.pending == 0 && Honest(a) && a.prompt == 1 && |payload| > 0xffff
    ensures var n := |payload| % 0x1_0000;
      Sent(m, command, payload, a).0
        == Uart(0, m.data + payload[..n], m.commands + command + payload[n..]) && n < |payload|
  {
    assert m.data + command[..0] == m.data && command[0..] == command;
  }

  /** A length is only ever reported for a payload the modem took whole. */
  lemma ReportedIsTaken(m: Uart, command: seq<Byte>, payload: seq<Byte>, a: Answers)
    requires m.pending == 0 && Honest(a) && |payload| <= 0xffff && Sent(m, command, payload, a).1 > 0
    ensures Sent(m, command, payload, a).0.data == m.data + payload
  {
    SendResynchronises(m, command, payload, a);
  }

  /** And reported it is exactly when the prompt, the acceptance and the line after it came with a
      positive number, which is then what is reported. */
  lemma ReportedExactlyWhen(m: Uart, command: seq<Byte>, payload: seq<Byte>, a: Answers)
    ensures var sent := Sent(m, command, payload, a).1;
      && (sent > 0 <==> payload != [] && a.prompt == 1 && a.aceite == 1 && a.line == 1 && a.claimed > 0)
      && (sent > 0 ==> sent == a.claimed)
  {}

  // --------------------------------------------------------------------- whole traffic

  datatype Traffic = Send(command: seq<Byte>, payload: seq<Byte>, answers: Answers) | Command(text: seq<Byte>)

  function After(m: Uart, t: Traffic): Uart {
    match t
    case Send(command, payload, answers) => Sent(m, command, payload, answers).0
    case Command(text) => Taken(m, text)
  }

  function Run(m: Uart, items: seq<Traffic>): Uart
    decreases |items|
  {
    if items == [] then m else Run(After(m, items[0]), items[1..])
  }

  function FrameOf(t: Traffic): seq<Byte> { if t.Send? then Frame(t.payload, t.answers) else [] }

  function HeardOf(t: Traffic): seq<Byte> { if t.Send? then Heard(t.command, t.payload, t.answers) else t.text }

  function Frames(items: seq<Traffic>): seq<Byte> {
    if items == [] then [] else FrameOf(items[0]) + Frames(items[1..])
  }

  function Interpreted(items: seq<Traffic>): seq<Byte> {
    if items == [] then [] else HeardOf(items[0]) + Interpreted(items[1..])
  }

  predicate Fits(t: Traffic) { t.Send? ==> Honest(t.answers) && |t.payload| <= 0xffff }

  lemma Regroup(a: seq<Byte>, b: seq<Byte>, c: seq<Byte>)
    ensures a + b + c == a + (b + c)
  {}

  lemma OneItem(m: Uart, t: Traffic)
    requires m.pending == 0 && Fits(t)
    ensures After(m, t) == Uart(0, m.data + FrameOf(t), m.commands + HeardOf(t))
  {
    if t.Send? {
      SendResynchronises(m, t.command, t.payload, t.answers);
    } else {
      assert t.text[..0] == [] && t.text[0..] == t.text;
    }
  }

  /** Over any traffic, with any timeouts and refusals: no command is ever swallowed as data, no
      payload is ever read as a command, and every frame is whole. */
  lemma {:induction false} TrafficStaysInStep(m: Uart, items: seq<Traffic>)
    requires m.pending == 0 && forall i :: 0 <= i < |items| ==> Fits(items[i])
    ensures Run(m, items) == Uart(0, m.data + Frames(items), m.commands + Interpreted(items))
    decreases |items|
  {
    if items == [] {
      assert m.data + [] == m.data && m.commands + [] == m.commands;
    } else {
      var t, rest := items[0], items[1..];
      OneItem(m, t);
      TrafficStaysInStep(After(m, t), rest);
      Regroup(m.data, FrameOf(t), Frames(rest));
      Regroup(m.commands, HeardOf(t), Interpreted(rest));
    }
  }

  // ---------------------------------------------------------------- the second opinion

  const RECONFIRM: Word32 := 2000

  datatype Socket = Socket(open: bool, confirmedAt: Word32)

  datatype Call =
    | Connect(done: bool)
    | Stop
    | ConfirmOpen(now: Word32)
    | Connected(client: bool, saysOpen: bool, now: Word32, modemSaysConnected: bool)

  datatype Reply = Reply(open: bool, asked: bool)

  /** `connected()`: the new fields, the answer, and whether the modem was asked. */
  function Answer(s: Socket, client: bool, saysOpen: bool, now: Word32, modemSaysConnected: bool): (Socket, Reply) {
    if !client then (s.(open := false), Reply(false, false))
    else if saysOpen then (Socket(true, 0), Reply(true, false))
    else if !s.open then (s, Reply(false, false))
    else if s.confirmedAt != 0 && Elapsed(now, s.confirmedAt) < RECONFIRM then (s, Reply(true, false))
    else if modemSaysConnected then (s.(confirmedAt := now), Reply(true, true))
    else (Socket(false, 0), Reply(false, true))
  }

  function Step(s: Socket, c: Call): (Socket, Reply) {
    match c
    case Connect(done) => (Socket(done, 0), Reply(done, false))
    case Stop => (Socket(false, 0), Reply(false, false))
    case ConfirmOpen(now) => (Socket(true, now), Reply(true, false))
    case Connected(client, saysOpen, now, modem) => Answer(s, client, saysOpen, now, modem)
  }

  class SocketMqttGsm {
    var open: bool
    var confirmedAt: Word32

    ghost function View(): Socket reads this { Socket(open, confirmedAt) }

    constructor ()
      ensures View() == Socket(false, 0)
    {
      open, confirmedAt := false, 0;
    }

    method Connect(done: bool) returns (r: bool)
      modifies this
      ensures (View(), Reply(r, false)) == Step(old(View()), Call.Connect(done))
    {
      open := done;
      confirmedAt := 0;
      return open;
    }

    method Stop()
      modifies this
      ensures View() == Step(old(View()), Call.Stop).0
    {
      open := false;
      confirmedAt := 0;
    }

    method ConfirmarAberto(now: Word32)
      modifies this
      ensures View() == Step(old(View()), ConfirmOpen(now)).0
    {
      open := true;
      confirmedAt := now;
    }

    method Connected(client: bool, saysOpen: bool, now: Word32, modemSaysConnected: bool) returns (r: bool, asked: bool)
      modifies this
      ensures (View(), Reply(r, asked)) == Step(old(View()), Call.Connected(client, saysOpen, now, modemSaysConnected))
    {
      asked := false;
      if !client {
        open := false;
        return false, asked;
      }
      if saysOpen {
        open := true;
        confirmedAt := 0;
        return true, asked;
      }
      if !open { return false, asked; }
      if confirmedAt != 0 && Elapsed(now, confirmedAt) < RECONFIRM { return true, asked; }
      asked := true;
      if modemSaysConnected {
        confirmedAt := now;
        return true, asked;
      }
      open := false;
      confirmedAt := 0;
      return false, asked;
    }
  }

  /** What an outsider knows about the socket from the calls and replies alone: whether it was
      last said to be open, and when the modem last vouched for it. */
  datatype Belief = Closed | Open(vouched: Option<Word32>)

  function Learn(b: Belief, c: Call, r: Reply): Belief {
    match c
    case Connect(done) => if done then Open(None) else Closed
    case Stop => Closed
    case ConfirmOpen(now) => Open(Some(now))
    case Connected(_, saysOpen, now, modem) =>
      if !r.open then Closed
      else if saysOpen then Open(None)
      else if r.asked && modem then Open(Some(now))
      else b
  }

  predicate Vouched(b: Belief, now: Word32) {
    b.Open? && b.vouched.Some? && Elapsed(now, b.vouched.value) < RECONFIRM
  }

  /** The modem's word of less than two seconds ago still counts (unless it was given at reading 0,
      which counts as none). */
  predicate Fresh(b: Belief, now: Word32) { Vouched(b, now) && b.vouched.value != 0 }

  /** The answer is open exactly when there is a client and TinyGSM says open; or when the socket was
      open and the modem's word of less than two seconds ago, or of now, says that it still is. The
      modem is asked exactly when it is about to be given up without such a word. */
  predicate Justified(b: Belief, c: Call, r: Reply) {
    match c
    case Connect(done) => r == Reply(done, false)
    case Stop => r == Reply(false, false)
    case ConfirmOpen(_) => r == Reply(true, false)
    case Connected(client, saysOpen, now, modem) =>
      && (r.open <==> client && (saysOpen || (b.Open? && (Fresh(b, now) || modem))))
      && (r.asked <==> client && !saysOpen && b.Open? && !Fresh(b, now))
  }

  predicate AlwaysJustified(s: Socket, b: Belief, calls: seq<Call>)
    decreases |calls|
  {
    calls == [] ||
    var (t, r) := Step(s, calls[0]);
    Justified(b, calls[0], r) && AlwaysJustified(t, Learn(b, calls[0], r), calls[1..])
  }

  predicate Agree(s: Socket, b: Belief) {
    && s.open == b.Open?
    && (s.open && s.confirmedAt != 0 ==> b.vouched == Some(s.confirmedAt))
    && (b.Open? && b.vouched.Some? && b.vouched.value != 0 ==> s.confirmedAt == b.vouched.value)
  }

  lemma {:induction false} SessionsEndOnTheModemsWord(s: Socket, b: Belief, calls: seq<Call>)
    requires Agree(s, b)
    ensures AlwaysJustified(s, b, calls)
    decreases |calls|
  {
    if calls != [] {
      var (t, r) := Step(s, calls[0]);
      SessionsEndOnTheModemsWord(t, Learn(b, calls[0], r), calls[1..]);
    }
  }
}
