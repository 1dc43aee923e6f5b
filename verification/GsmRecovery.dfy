/**
 The link comes back. GsmProgress says that no state lasts; here the modem does what it is asked, and
 the link reaches Ready: after a known number of calls, and by a known time.
 */
module GsmRecovery {
  import opened Words
  import opened GsmProtocol
  import opened GsmSafety
  import opened GsmProgress
  import opened GsmTimeline

  /** The modem answers, registers and brings up a PDP; if that is to be another one than before, with
      another address, or without telling it. */
  predicate Willing(l: Link, a: LinkAnswers) {
    && a.testAt && a.registered && a.pdpUp
    && (l.refazerPdp || l.compararIp ==> a.ip == 0 || a.ip != l.ipAnterior)
  }

  /** How many calls that do not come too early it takes to reach Ready, at most: a call that finds the
      settling window over backs off first. */
  function Rank(l: Link): nat {
    match l.state
    case Settling => 6
    case Backoff => 5
    case Init => 4
    case Network => 3
    case Attaching => if l.refazerPdp then 2 else 1
    case _ => 0
  }

  predicate OnTheWay(l: Link) { l.state != Off && l.state != Ready && !l.httpLeased }

  /** What makes an answer acceptable does not change before Ready. */
  predicate SameDemands(l: Link, r: Link) {
    r.ipAnterior == l.ipAnterior && (r.refazerPdp || r.compararIp ==> l.refazerPdp || l.compararIp)
  }

  /** A call that is too early changes nothing; any other takes a willing modem at least one step on. */
  lemma CallMovesOn(s: System, now: Word32, a: LinkAnswers)
    requires OnTheWay(s.link) && Willing(s.link, a)
    ensures var l := LinkLoopStep(s, now, a).link;
      if TooEarly(s.link, now) then l == s.link
      else l.state == Ready || (OnTheWay(l) && Rank(l) < Rank(s.link) && SameDemands(s.link, l))
  {}

  /** Calls of the link's loop that do not come too early in the state they find. */
  function Useful(s: System, events: seq<Event>): nat
    decreases |events|
  {
    if events == [] then 0
    else
      var e := events[0];
      (if e.LinkLoop? && !TooEarly(s.link, e.now) then 1 else 0) + Useful(Step(s, e), events[1..])
  }

  /** Whatever the session and HTTP do meanwhile, and however the clock reads. */
  lemma {:induction false} RecoversAfter(s: System, events: seq<Event>) returns (k: nat)
    requires s.link.state == Ready || OnTheWay(s.link)
    requires forall i :: 0 <= i < |events| && events[i].LinkLoop? ==> Willing(s.link, events[i].link)
    requires Useful(s, events) >= Rank(s.link)
    ensures k <= |events| && Run(s, events[..k]).link.state == Ready
    decreases |events|
  {
    if s.link.state == Ready {
      k := 0;
      assert Run(s, []) == s && events[..0] == [];
    } else {
      var e := events[0];
      if e.LinkLoop? { CallMovesOn(s, e.now, e.link); } else { OthersLeaveTheLink(s, e); }
      var k1 := RecoversAfter(Step(s, e), events[1..]);
      k := k1 + 1;
      RunShift(s, events, k);
    }
  }

  // ------------------------------------------------------------------ by the clock

  /** The end of the wait that a state begins with. */
  function WaitEnd(l: Link): int {
    match l.state
    case Settling => l.since + SettleTime(l)
    case Backoff => l.nextTry
    case _ => 0
  }

  function Max(a: int, b: int): int { if a >= b then a else b }

  /** When the call that reaches Ready begins, at the latest, if the last one ended at `t`: after the
      wait of the state, with one gap and one call for each step; and settling may be found over, and
      cost one backoff. */
  function ReadyBy(l: Link, t: Word32, gap: nat, longest: nat): int {
    Max(t, WaitEnd(l) + longest) + Rank(l) * (gap + longest) + if l.state == Settling then 30000 else 0
  }

  /** If the link is called at least every `gap` ms, and once past that time, it is Ready by then. */
  lemma {:induction false} ReadyInTime(s: System, events: seq<Event>, t: Word32, gap: nat, longest: nat, late: nat)
      returns (k: nat)
    requires OnTheWay(s.link) && s.link.since <= t && Scheduled(events, t, gap, longest)
    requires late < |events| && events[late].LinkLoop? && events[late].now > ReadyBy(s.link, t, gap, longest)
    requires forall i :: 0 <= i <= late && events[i].LinkLoop? ==> Willing(s.link, events[i].link)
    ensures k <= late && events[k].LinkLoop? && Run(s, events[..k + 1]).link.state == Ready
    ensures events[k].now <= ReadyBy(s.link, t, gap, longest)
    decreases |events|
  {
    var e := events[0];
    var s1 := Step(s, e);
    RunOne(s, events);
    if e.LinkLoop? {
      CallMovesOn(s, e.now, e.link);
      CallIsInTime(s, t, e.now, e.link, gap, longest);
    } else {
      OthersLeaveTheLink(s, e);
    }
    if s1.link.state == Ready {
      k := 0;
    } else {
      var t1 := if e.LinkLoop? then e.link.after else t;
      var k1 := ReadyInTime(s1, events[1..], t1, gap, longest, late - 1);
      k := k1 + 1;
      RunShift(s, events, k + 1);
    }
  }

  /** A call that is too early came before the end of the wait; any other leaves no wait behind, but for
      the backoff that a late settling costs. */
  lemma CallSetsTheWait(s: System, now: Word32, a: LinkAnswers)
    requires OnTheWay(s.link) && Willing(s.link, a) && s.link.since <= now <= a.after
    ensures TooEarly(s.link, now) ==> now < WaitEnd(s.link)
    ensures var l := LinkLoopStep(s, now, a).link;
      && (l.state != Ready ==> l.since <= a.after)
      && (!TooEarly(s.link, now) ==> WaitEnd(l) <= (if s.link.state == Settling then now + 30000 else 0)
                                     && l.state != Settling)
  {
    if s.link.state == Settling { DownGrants(s, now, Ladder, a.after); }
  }

  lemma {:induction false} OneStepLess(more: nat, less: nat, each: nat)
    requires less < more
    ensures less * each + each <= more * each
  {
    if less + 1 < more { OneStepLess(more - 1, less, each); }
    assert (more - 1) * each + each == more * each;
  }

  /** No call that is made in time puts Ready off. */
  lemma CallIsInTime(s: System, t: Word32, now: Word32, a: LinkAnswers, gap: nat, longest: nat)
    requires OnTheWay(s.link) && Willing(s.link, a) && s.link.since <= t <= now <= t + gap
    requires now <= a.after <= now + longest
    ensures var l := LinkLoopStep(s, now, a).link;
      && now <= ReadyBy(s.link, t, gap, longest)
      && (l.state != Ready ==> l.since <= a.after)
      && (l.state != Ready ==> ReadyBy(l, a.after, gap, longest) <= ReadyBy(s.link, t, gap, longest))
  {
    CallMovesOn(s, now, a);
    CallSetsTheWait(s, now, a);
    OneStepLess(Rank(s.link), 0, gap + longest);
    var l := LinkLoopStep(s, now, a).link;
    if l.state != Ready && !TooEarly(s.link, now) { OneStepLess(Rank(s.link), Rank(l), gap + longest); }
  }

  /** From boot, at any moment of a punctual run: if the modem is willing from then on, a link that is
      down and goes on being called is Ready again within its settling time, 30 s, and six calls. */
  lemma EveryOutageEnds(boot: Word32, start: Word32, gap: nat, longest: nat, before: seq<Event>, rest: seq<Event>,
                        late: nat)
      returns (k: nat)
    requires boot + SETTLE_WINDOW_MS < WORD && Punctual(start, gap, longest, before + rest)
    requires late < |rest| && rest[late].LinkLoop?
    requires var l, t := Run(Initial(boot, start), before).link, ClockAt(start, gap, before).now;
      && l.state != Ready && rest[late].now > t + SettleTime(l) + 30000 + longest + 6 * (gap + longest)
      && forall i :: 0 <= i <= late && rest[i].LinkLoop? ==> Willing(l, rest[i].link)
    ensures k <= late && rest[k].LinkLoop?
    ensures var s, t := Run(Initial(boot, start), before), ClockAt(start, gap, before).now;
      && Run(s, rest[..k + 1]).link.state == Ready
      && rest[k].now <= t + SettleTime(s.link) + 30000 + longest + 6 * (gap + longest)
  {
    var s, t := Run(Initial(boot, start), before), ClockAt(start, gap, before).now;
    MomentOfRun(boot, start, gap, longest, before, rest);
    ReadySoon(s.link, t, gap, longest);
    k := ReadyInTime(s, rest, t, gap, longest, late);
  }

  lemma ReadySoon(l: Link, t: Word32, gap: nat, longest: nat)
    requires TimesAgree(l, t) && OnTheWay(l)
    ensures ReadyBy(l, t, gap, longest) <= t + SettleTime(l) + 30000 + longest + 6 * (gap + longest)
  {
    assert Rank(l) * (gap + longest) <= 6 * (gap + longest);
  }
}
