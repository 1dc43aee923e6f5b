/**
 Progress of the link. Against any answers of the modem, a link that is not Ready leaves
 the state it is in within that state's constant deadline, give or take one call gap.

 The clock is taken not to wrap here: readings never decrease (see `Scheduled`), because
 `now < _next_try` in the source is not safe across a wrap.
 */
module GsmProgress {
  import opened Words
  import opened GsmProtocol

  /** The instant after which the next call of GsmLink::loop leaves the current state. */
  function StayLimit(l: Link): int {
    match l.state
    case Settling => l.since + SettleTime(l) + SETTLE_WINDOW_MS
    case Network => l.since + NETWORK_MS + NET_CHECK_MS
    case Attaching => l.since + ATTACH_MS
    case Backoff => l.nextTry
    case _ => l.since
  }

  /** States with a deadline. A PDP that is to be redone gets its deadline after the teardown. */
  predicate Timed(l: Link) {
    && l.state != Off && l.state != Ready && !l.httpLeased
    && !(l.state == Attaching && l.refazerPdp)
    && SettleTime(l) + SETTLE_WINDOW_MS < WORD
  }

  /** The stored readings lie in the past, and registration was last looked at in its window. */
  predicate ClockBehind(l: Link, t: Word32) {
    && l.since <= t
    && (l.state == Network ==> l.since <= l.netCheckMs <= t && l.netCheckMs <= l.since + NETWORK_MS)
  }

  /** `loop` is called within `gap` ms of the end of its previous call, and no call blocks for
      more than `longest` ms; `after` is when a call ends. */
  predicate Scheduled(events: seq<Event>, t: Word32, gap: nat, longest: nat) {
    events == []
    || (if events[0].LinkLoop?
        then t <= events[0].now <= t + gap && events[0].now <= events[0].link.after <= events[0].now + longest
             && Scheduled(events[1..], events[0].link.after, gap, longest)
        else Scheduled(events[1..], t, gap, longest))
  }

  /** Only the link moves a link that is down: sessions and HTTP clients cannot. */
  lemma OthersLeaveTheLink(s: System, e: Event)
    requires s.link.state != Ready && !s.link.httpLeased && !e.LinkLoop?
    ensures Step(s, e).link == s.link
  {}

  /** A call that does not leave the state came before the limit, and does not move the limit. */
  lemma StayingIsEarly(s: System, now: Word32, a: LinkAnswers)
    requires Timed(s.link) && ClockBehind(s.link, now)
    requires LinkLoopStep(s, now, a).link.state == s.link.state
    ensures now <= StayLimit(s.link)
    ensures var l := LinkLoopStep(s, now, a).link;
      Timed(l) && ClockBehind(l, now) && StayLimit(l) == StayLimit(s.link)
  {
  }

  lemma ClockGoesOn(l: Link, t: Word32, u: Word32)
    requires ClockBehind(l, t) && t <= u
    ensures ClockBehind(l, u)
  {}

  /** If the link is called at least every `gap` ms and called once past the limit, some call
      takes it out of its state, no later than one gap and one call after the limit (or one gap
      after the start). Nothing the modem answers, and nothing the session or HTTP do
      meanwhile, prevents it. */
  lemma {:induction false} LeavesInTime(s: System, events: seq<Event>, t: Word32, gap: nat, longest: nat, late: nat)
      returns (k: nat)
    requires Timed(s.link) && ClockBehind(s.link, t) && Scheduled(events, t, gap, longest)
    requires late < |events| && events[late].LinkLoop? && events[late].now > StayLimit(s.link)
    ensures k <= late && events[k].LinkLoop?
    ensures Run(s, events[..k + 1]).link.state != s.link.state
    ensures events[k].now <= t + gap || events[k].now <= StayLimit(s.link) + longest + gap
    decreases |events|
  {
    var e := events[0];
    var s1 := Step(s, e);
    RunOne(s, events);
    if e.LinkLoop? && s1.link.state != s.link.state {
      k := 0;
    } else {
      var t1 := if e.LinkLoop? then e.link.after else t;
      EventStays(s, t, e);
      var k1 := LeavesInTime(s1, events[1..], t1, gap, longest, late - 1);
      k := k1 + 1;
      RunShift(s, events, k + 1);
    }
  }

  /** Any event that leaves the link where it is leaves its limit where it is. */
  lemma EventStays(s: System, t: Word32, e: Event)
    requires Timed(s.link) && ClockBehind(s.link, t)
    requires e.LinkLoop? ==> t <= e.now <= e.link.after && Step(s, e).link.state == s.link.state
    ensures var l := Step(s, e).link;
      && l.state == s.link.state && Timed(l) && StayLimit(l) == StayLimit(s.link)
      && ClockBehind(l, if e.LinkLoop? then e.link.after else t) && (e.LinkLoop? ==> e.now <= StayLimit(l))
  {
    if e.LinkLoop? { StayStep(s, t, e.now, e.link); } else { OthersLeaveTheLink(s, e); }
  }

  lemma StayStep(s: System, t: Word32, now: Word32, a: LinkAnswers)
    requires Timed(s.link) && ClockBehind(s.link, t) && t <= now <= a.after
    requires LinkLoopStep(s, now, a).link.state == s.link.state
    ensures var l := LinkLoopStep(s, now, a).link;
      now <= StayLimit(s.link) == StayLimit(l) && Timed(l) && ClockBehind(l, a.after)
  {
    ClockGoesOn(s.link, t, now);
    StayingIsEarly(s, now, a);
    ClockGoesOn(LinkLoopStep(s, now, a).link, now, a.after);
  }

  lemma RunOne(s: System, events: seq<Event>)
    requires events != []
    ensures Run(s, events[..1]) == Step(s, events[0])
  {
    assert events[..1][..0] == [];
    assert Run(s, []) == s;
  }

  lemma {:induction false} RunShift(s: System, events: seq<Event>, k: nat)
    requires 1 <= k <= |events|
    ensures Run(s, events[..k]) == Run(Step(s, events[0]), events[1..][..k - 1])
  {
    if k == 1 {
      RunOne(s, events);
    } else {
      RunShift(s, events, k - 1);
      assert events[..k][..k - 1] == events[..k - 1];
      var r := events[1..][..k - 1];
      assert r[..|r| - 1] == events[1..][..k - 2] && r[|r| - 1] == events[k - 1];
    }
  }

  /** What is granted on entering a state, counted from the end of the call that enters it:
      23 s to answer after a reset, 63 s to register, 25 s to attach, at most 30 s of backoff. */
  function Budget(state: State): nat {
    match state
    case Settling => SETTLE_RESET_MS + SETTLE_WINDOW_MS
    case Network => NETWORK_MS + NET_CHECK_MS
    case Attaching => ATTACH_MS
    case Backoff => 30000
    case _ => 0
  }

  lemma EntryGrantsItsBudget(s: System, now: Word32, a: LinkAnswers)
    requires s.link.state != Off && now <= a.after && ClockBehind(s.link, now)
    requires LinkLoopStep(s, now, a).link.state != s.link.state
    ensures var l := LinkLoopStep(s, now, a).link;
      l.state != Ready ==> StayLimit(l) <= a.after + Budget(l.state) && ClockBehind(l, a.after)
  {
    var l := LinkLoopStep(s, now, a).link;
    match s.link.state
    case Settling => SettlingGrants(s, now, a);
    case Network => NetworkGrants(s, now, a);
    case Attaching => AttachingGrants(s, now, a);
    case _ =>
  }

  /** Both ways down, from wherever they are taken. */
  lemma DownGrants(s: System, now: Word32, cause: ResetCause, after: Word32)
    requires now <= after && s.link.since <= now
    ensures var l := Fail(s, now).link;
      l.state == Backoff && l.since <= after && StayLimit(l) <= after + Budget(Backoff)
    ensures var l := ResetModem(s, cause, after).link;
      l.state == Settling && l.since == after && StayLimit(l) == after + Budget(Settling)
  {}

  lemma SettlingGrants(s: System, now: Word32, a: LinkAnswers)
    requires s.link.state == Settling && now <= a.after && s.link.since <= now
    ensures var l := SettlingStep(s, now, a).link;
      l.state == Settling || (StayLimit(l) <= a.after + Budget(l.state) && ClockBehind(l, a.after))
  {
    DownGrants(s, now, Ladder, a.after);
  }

  lemma NetworkGrants(s: System, now: Word32, a: LinkAnswers)
    requires s.link.state == Network && now <= a.after && s.link.since <= now
    ensures var l := NetworkStep(s, now, a).link;
      l.state == Network || (StayLimit(l) <= a.after + Budget(l.state) && ClockBehind(l, a.after))
  {
    var waited := Elapsed(now, s.link.since);
    var s1 := s.(link := s.link.(netCheckMs := now));
    DownGrants(s1, now, Denied(a.creg), a.after);
    DownGrants(s1, now, StuckWithSignal(a.csq, waited), a.after);
    DownGrants(s1, now, NoRegistration(waited), a.after);
  }

  lemma AttachingGrants(s: System, now: Word32, a: LinkAnswers)
    requires s.link.state == Attaching && now <= a.after && s.link.since <= now
    ensures var l := AttachingStep(s, now, a).link;
      l.state == Attaching || l.state == Ready
      || (StayLimit(l) <= a.after + Budget(l.state) && ClockBehind(l, a.after))
  {
    DownGrants(s.(link := s.link.(compararIp := false)), now, SameIp(a.ip), a.after);
    DownGrants(s, now, PdpNotUp(Elapsed(now, s.link.since)), a.after);
  }

  /** The session can only take a Ready link to Backoff or to a reset, with the same budgets. */
  lemma ReportGrantsItsBudget(s: System, now: Word32, after: Word32)
    requires now <= after && s.link.state == Ready && s.link.since <= now
    ensures var l := ReportTransportFailure(s, now, after).link;
      l.state != Ready ==>
        (l.state == Backoff || l.state == Settling) && StayLimit(l) <= after + Budget(l.state) && ClockBehind(l, after)
  {
    var n := Bump(s.link.mqttFalhas, 255);
    var s1 := Emit(s.(link := s.link.(mqttFalhas := n)), FailureCounted);
    DownGrants(s1, now, Ladder, after);
    DownGrants(s1.(link := s1.link.(refazerPdp := true)), now, Ladder, after);
  }

  // ------------------------------------------------------- a PDP that is to be redone

  /** The first call tears the PDP down and its deadline starts afterwards. */
  lemma RedoStarts(s: System, now: Word32, a: LinkAnswers)
    requires s.link.state == Attaching && s.link.refazerPdp
    ensures var r := LinkLoopStep(s, now, a);
      && r.link == s.link.(refazerPdp := false, compararIp := true, since := a.after)
      && r.trace == s.trace + [PdpTornDown]
  {}

  /** The stay whose deadline is restarted: a PDP to be redone still leaves Attaching, within one
      teardown, 25 s and their gaps. The restart happens once, or the bound would not hold. */
  lemma {:induction false} LeavesAfterRedo(s: System, events: seq<Event>, t: Word32, gap: nat, longest: nat, late: nat)
      returns (k: nat)
    requires s.link.state == Attaching && s.link.refazerPdp && !s.link.httpLeased
    requires SettleTime(s.link) + SETTLE_WINDOW_MS < WORD && s.link.since <= t && Scheduled(events, t, gap, longest)
    requires late < |events| && events[late].LinkLoop? && events[late].now > t + gap + longest + ATTACH_MS
    ensures k <= late && events[k].LinkLoop?
    ensures Run(s, events[..k + 1]).link.state != Attaching
    ensures events[k].now <= t + gap + longest + ATTACH_MS + longest + gap
    decreases |events|
  {
    var e := events[0];
    var s1 := Step(s, e);
    RunOne(s, events);
    var k1: nat;
    if e.LinkLoop? {
      RedoStarts(s, e.now, e.link);
      k1 := LeavesInTime(s1, events[1..], e.link.after, gap, longest, late - 1);
    } else {
      OthersLeaveTheLink(s, e);
      k1 := LeavesAfterRedo(s1, events[1..], t, gap, longest, late - 1);
    }
    k := k1 + 1;
    RunShift(s, events, k + 1);
  }

  // ---------------------------------------------------------------- not too early

  predicate TooEarly(l: Link, now: Word32) {
    match l.state
    case Backoff => now < l.nextTry
    case Settling => Elapsed(now, l.since) < SettleTime(l)
    case _ => false
  }

  /** A link that backs off or lets the modem settle is left alone for its whole wait: nothing that
      is called before the wait is over changes any of its fields. */
  lemma {:induction false} WaitIsKept(s: System, events: seq<Event>)
    requires Down(s.link.state) && !s.link.httpLeased
    requires forall i :: 0 <= i < |events| && events[i].LinkLoop? ==> TooEarly(s.link, events[i].now)
    ensures Run(s, events).link == s.link
  {
    if events != [] {
      var most, e := events[..|events| - 1], events[|events| - 1];
      WaitIsKept(s, most);
      if !e.LinkLoop? { OthersLeaveTheLink(Run(s, most), e); }
    }
  }

  /** How long that is after giving up, and after a reset. */
  lemma WaitIsLongEnough(s: System, now: Word32, cause: ResetCause, after: Word32)
    ensures var l := Fail(s, now).link;
      l.state == Backoff && l.nextTry == Later(now, LinkBackoffMs(s.link.failures))
    ensures var l := ResetModem(s, cause, after).link;
      l.state == Settling && l.since == after && SettleTime(l) == SETTLE_RESET_MS
  {}

  // ----------------------------------------------------------- the way back to Ready

  predicate Down(state: State) { state == Settling || state == Backoff }

  lemma DownGoesToInit(s: System, e: Event)
    requires Down(s.link.state)
    ensures Down(Step(s, e).link.state) || Step(s, e).link.state == Init
  {
    if e.SessionLoop? { PassLeavesTheState(s, e.now, e.session); }
  }

  lemma PassLeavesTheState(s: System, now: Word32, a: SessionAnswers)
    requires s.link.state != Ready
    ensures SessionLoopStep(s, now, a).link == s.link
  {}

  /** No recovery skips Init, where the modem's echo is turned off: from Backoff or from a reset,
      registration, PDP and Ready are reached only through it. */
  lemma {:induction false} RecoveryReinitialises(s: System, events: seq<Event>) returns (k: nat)
    requires Down(s.link.state) && !Down(Run(s, events).link.state)
    ensures k <= |events| && Run(s, events[..k]).link.state == Init
  {
    var most := events[..|events| - 1];
    if Down(Run(s, most).link.state) {
      DownGoesToInit(Run(s, most), events[|events| - 1]);
      k := |events|;
      assert events[..k] == events;
    } else {
      k := RecoveryReinitialises(s, most);
      assert most[..k] == events[..k];
    }
  }
}
