/**
 The queue between the cellular session's callback and the application: `entregar` and `poll`
 of GsmMqttClient, over six slots of which one always stays empty.
 */
module GsmMqttQueue {
  import opened Words

  const FILA: nat := 6
  const TOPICO_MAX: nat := 128
  const CARGA_MAX: nat := 512
  const RESERVADOS: nat := 4

  datatype Mensagem = Mensagem(topico: string, carga: seq<Byte>)

  function Prefix(bytes: seq<Byte>, cap: nat): seq<Byte> { bytes[..Min(|bytes|, cap)] }

  /** What a slot keeps of a message: here a long payload is cut, not dropped. */
  function Kept(topico: string, carga: seq<Byte>): Mensagem {
    Mensagem(Cut(topico, TOPICO_MAX), Prefix(carga, CARGA_MAX))
  }

  /** The queue as the application sees it, and what has passed through it. */
  datatype Queue = Queue(
    waiting: seq<Mensagem>, dropped: Word32, direct: seq<Mensagem>,
    accepted: seq<Mensagem>, polled: seq<Mensagem>, lost: nat)

  datatype Call = Entregar(topico: string, carga: seq<Byte>, own: bool) | Poll

  /** `own`: there is no direct callback, or the topic is one of the library's. */
  function Delivered(q: Queue, topico: string, carga: seq<Byte>, own: bool): Queue {
    if !own then q.(direct := q.direct + [Mensagem(topico, carga)])
    else if |q.waiting| == FILA - 1 then q.(dropped := Later(q.dropped, 1), lost := q.lost + 1)
    else
      var m := Kept(topico, carga);
      q.(waiting := q.waiting + [m], accepted := q.accepted + [m])
  }

  function Polled(q: Queue): Queue {
    if q.waiting == [] then q
    else q.(waiting := q.waiting[1..], polled := q.polled + [q.waiting[0]])
  }

  class MqttQueue {
    const fila: array<Mensagem>
    var inicio: nat
    var fim: nat
    var dropped: Word32
    var reservados: seq<string>
    var direto: bool
    ghost var past: Queue    // only its history parts are kept here

    ghost predicate Valid()
      reads this, fila
    {
      fila.Length == FILA && inicio < FILA && fim < FILA
    }

    ghost function Waiting(): (w: seq<Mensagem>)
      requires Valid()
      reads this, fila
      ensures |w| < FILA
    {
      if inicio <= fim then fila[inicio..fim] else fila[inicio..] + fila[..fim]
    }

    ghost function View(): Queue
      requires Valid()
      reads this, fila
    {
      past.(waiting := Waiting(), dropped := dropped)
    }

    constructor ()
      ensures Valid() && fresh(fila) && View() == Queue([], 0, [], [], [], 0) && reservados == [] && !direto
    {
      fila := new Mensagem[FILA](_ => Mensagem("", []));
      inicio, fim, dropped, reservados, direto := 0, 0, 0, [], false;
      past := Queue([], 0, [], [], [], 0);
    }

    method SetDirectCallback(installed: bool)
      modifies `direto
      ensures direto == installed
    {
      direto := installed;
    }

    method ReserveTopic(topic: Option<string>)
      modifies `reservados
      ensures reservados == old(reservados)
        + if topic.Some? && |old(reservados)| < RESERVADOS then [Cut(topic.value, TOPICO_MAX)] else []
    {
      if topic.None? || |reservados| >= RESERVADOS { return; }
      reservados := reservados + [Cut(topic.value, TOPICO_MAX)];
    }

    method Reservado(topico: string) returns (found: bool)
      ensures found <==> topico in reservados
    {
      for i := 0 to |reservados|
        invariant topico !in reservados[..i]
      {
        if reservados[i] == topico { return true; }
      }
      assert reservados[..|reservados|] == reservados;
      return false;
    }

    method Entregar(topico: string, carga: seq<Byte>)
      requires Valid()
      modifies `fim, `dropped, `past, fila
      ensures Valid()
      ensures View() == Delivered(old(View()), topico, carga, !direto || topico in reservados)
    {
      if direto {
        var own := Reservado(topico);
        if !own {
          past := past.(direct := past.direct + [Mensagem(topico, carga)]);
          return;
        }
      }
      var proximo := (fim + 1) % FILA;
      if proximo == inicio {
        dropped := Later(dropped, 1);
        past := past.(lost := past.lost + 1);
        return;
      }
      var m := Kept(topico, carga);
      Store(m, proximo);
      past := past.(accepted := past.accepted + [m]);
    }

    /** Writes the free slot and publishes it. */
    method Store(m: Mensagem, proximo: nat)
      requires Valid() && proximo == (fim + 1) % FILA && proximo != inicio
      modifies `fim, fila
      ensures Valid() && Waiting() == old(Waiting()) + [m] && |old(Waiting())| < FILA - 1
    {
      ghost var before := Waiting();
      fila[fim] := m;
      fim := proximo;
      assert Waiting() == before + [m];
    }

    /** `topicCap` and `cargaCap` are None for null pointers. A buffer too small gets what fits. */
    method Poll(topicCap: Option<nat>, cargaCap: Option<nat>, limit: nat)
        returns (some: bool, topico: string, carga: seq<Byte>, len: nat)
      requires Valid() && (cargaCap.Some? ==> cargaCap.value == limit)
      modifies `inicio, `past
      ensures Valid() && View() == Polled(old(View()))
      ensures some <==> old(Waiting()) != []
      ensures some ==>
        var m := old(Waiting())[0];
        && len == Min(|m.carga|, limit)
        && (cargaCap.Some? ==> carga == Prefix(m.carga, limit))
        && (topicCap.Some? && topicCap.value > 0 ==> topico == Cut(m.topico, topicCap.value))
      ensures !some ==> len == 0
    {
      some, topico, carga, len := false, "", [], 0;
      if inicio == fim { return; }
      var m := fila[inicio];
      assert m == Waiting()[0];
      if topicCap.Some? && topicCap.value > 0 { topico := Cut(m.topico, topicCap.value); }
      len := if |m.carga| < limit then |m.carga| else limit;
      if cargaCap.Some? { carga := m.carga[..len]; }
      Free();
      past := past.(polled := past.polled + [m]);
      some := true;
    }

    /** Gives the oldest slot back. */
    method Free()
      requires Valid() && inicio != fim
      modifies `inicio
      ensures Valid() && old(Waiting()) != [] && Waiting() == old(Waiting())[1..]
    {
      ghost var before := Waiting();
      inicio := (inicio + 1) % FILA;
      assert Waiting() == before[1..];
    }
  }

  // ------------------------------------------------------------------- conservation

  const EMPTY := Queue([], 0, [], [], [], 0)

  function Run(q: Queue, calls: seq<Call>): Queue {
    if calls == [] then q else
    var before := Run(q, calls[..|calls| - 1]);
    match calls[|calls| - 1]
    case Entregar(topico, carga, own) => Delivered(before, topico, carga, own)
    case Poll => Polled(before)
  }

  /** What a call sends to the queue, as a slot would keep it. */
  function Meant(c: Call): seq<Mensagem> {
    if c.Entregar? && c.own then [Kept(c.topico, c.carga)] else []
  }

  function AllMeant(calls: seq<Call>): seq<Mensagem> {
    if calls == [] then [] else AllMeant(calls[..|calls| - 1]) + Meant(calls[|calls| - 1])
  }

  /** `a` is `b` with some elements left out, `n` of them. */
  ghost predicate LeavesOut(a: seq<Mensagem>, b: seq<Mensagem>, n: nat)
    decreases |b|
  {
    if b == [] then a == [] && n == 0
    else
      var last, most := b[|b| - 1], b[..|b| - 1];
      || (a != [] && a[|a| - 1] == last && LeavesOut(a[..|a| - 1], most, n))
      || (n > 0 && LeavesOut(a, most, n - 1))
  }

  /** How many messages wait after some calls: one more for each sent in while fewer than five wait,
      one less for each poll that finds any. */
  function Occupied(calls: seq<Call>): nat {
    if calls == [] then 0 else
    var n, c := Occupied(calls[..|calls| - 1]), calls[|calls| - 1];
    if c.Poll? then (if n > 0 then n - 1 else 0)
    else if c.own && n < FILA - 1 then n + 1 else n
  }

  /** The messages that find room when they are sent in. */
  function Admitted(calls: seq<Call>): seq<Mensagem> {
    if calls == [] then [] else
    var most, c := calls[..|calls| - 1], calls[|calls| - 1];
    Admitted(most) + if Occupied(most) < FILA - 1 then Meant(c) else []
  }

  lemma OneMore(a: seq<Mensagem>, b: seq<Mensagem>, n: nat, m: Mensagem)
    requires LeavesOut(a, b, n)
    ensures LeavesOut(a + [m], b + [m], n) && LeavesOut(a, b + [m], n + 1)
  {
    assert (b + [m])[..|b|] == b && (a + [m])[..|a|] == a;
  }

  ghost predicate Sound(q: Queue, meant: seq<Mensagem>) {
    && q.polled + q.waiting == q.accepted && |q.waiting| <= FILA - 1
    && LeavesOut(q.accepted, meant, q.lost) && q.dropped == q.lost % WORD
  }

  lemma EntregarKeeps(q: Queue, meant: seq<Mensagem>, topico: string, carga: seq<Byte>)
    requires Sound(q, meant)
    ensures Sound(Delivered(q, topico, carga, true), meant + [Kept(topico, carga)])
  {
    var m := Kept(topico, carga);
    OneMore(q.accepted, meant, q.lost, m);
    if |q.waiting| == FILA - 1 {
      CountedUp(q.lost);
    } else {
      assert q.polled + (q.waiting + [m]) == q.polled + q.waiting + [m];
    }
  }

  lemma PollKeeps(q: Queue, meant: seq<Mensagem>)
    requires Sound(q, meant)
    ensures Sound(Polled(q), meant)
  {
    if q.waiting != [] {
      assert q.waiting == [q.waiting[0]] + q.waiting[1..];
      assert q.polled + [q.waiting[0]] + q.waiting[1..] == q.polled + q.waiting;
    }
  }

  /** Over any calls: what is handed out is, in order, the messages sent in, less the refused ones,
      less those still waiting; and the refused are counted. */
  lemma {:induction false} NothingIsReorderedOrInvented(calls: seq<Call>)
    ensures Sound(Run(EMPTY, calls), AllMeant(calls))
  {
    if calls != [] {
      var most, c := calls[..|calls| - 1], calls[|calls| - 1];
      NothingIsReorderedOrInvented(most);
      assert AllMeant(most) + [] == AllMeant(most);
      if c.Poll? {
        PollKeeps(Run(EMPTY, most), AllMeant(most));
      } else if c.own {
        EntregarKeeps(Run(EMPTY, most), AllMeant(most), c.topico, c.carga);
      }
    }
  }

  /** A slot keeps a topic of less than 128 characters and a payload of at most 512 bytes as they are,
      and the first 127 and 512 of longer ones. */
  lemma SlotKeeps(topico: string, carga: seq<Byte>)
    ensures var m := Kept(topico, carga);
      && m.topico == (if |topico| < 128 then topico else topico[..127])
      && m.carga == if |carga| <= 512 then carga else carga[..512]
  {}

  /** What calls send past the queue, uncut. */
  function PastTheQueue(calls: seq<Call>): seq<Mensagem> {
    if calls == [] then [] else
    var c := calls[|calls| - 1];
    PastTheQueue(calls[..|calls| - 1]) + if c.Entregar? && !c.own then [Mensagem(c.topico, c.carga)] else []
  }

  /** A message for the direct callback is handed to it whole, at once and in order, whatever waits. */
  lemma {:induction false} DirectIsHandedOn(calls: seq<Call>)
    ensures Run(EMPTY, calls).direct == PastTheQueue(calls)
  {
    if calls != [] {
      DirectIsHandedOn(calls[..|calls| - 1]);
      assert PastTheQueue(calls[..|calls| - 1]) + [] == PastTheQueue(calls[..|calls| - 1]);
    }
  }

  /** And a message is refused exactly when five wait. */
  lemma {:induction false} RefusedOnlyWhenFull(calls: seq<Call>)
    ensures var q := Run(EMPTY, calls); |q.waiting| == Occupied(calls) && q.accepted == Admitted(calls)
    ensures Run(EMPTY, calls).lost + |Admitted(calls)| == |AllMeant(calls)|
  {
    if calls != [] {
      var most := calls[..|calls| - 1];
      RefusedOnlyWhenFull(most);
      NothingIsReorderedOrInvented(most);
      assert Admitted(most) + [] == Admitted(most) && AllMeant(most) + [] == AllMeant(most);
    }
  }

  lemma CountedUp(n: nat)
    ensures Later(n % WORD, 1) == (n + 1) % WORD
  {
    var q, w := n / WORD, n % WORD;
    if w + 1 < WORD { DivisionUnique(n + 1, q, w + 1, WORD); } else { DivisionUnique(n + 1, q + 1, 0, WORD); }
  }
}
