/**
 The version order of update orders and the checks made before a download
 (`compareVersions` and `validate` in OrderCodec).
 */
module OrderCodec {
  import opened Words

  // --------------------------------------------------------------- reading components

  const LONG_MAX: int := 0x7fff_ffff
  const LONG_MIN: int := -0x8000_0000

  predicate IsDigit(c: char) { '0' <= c <= '9' }

  predicate IsSpace(c: char) { c == ' ' || '\t' <= c <= '\r' }

  function Saturated(v: int): int { if v > LONG_MAX then LONG_MAX else if v < LONG_MIN then LONG_MIN else v }

  /** The digits at the front of a string, as a number continuing `so far`, and what follows. */
  function Number(s: string, sofar: nat): (r: (nat, string))
    ensures |r.1| <= |s|
  {
    if s == "" || !IsDigit(s[0]) then (sofar, s) else Number(s[1..], sofar * 10 + (s[0] - '0') as nat)
  }

  function Unspaced(s: string): (r: string)
    ensures |r| <= |s|
  {
    if s != "" && IsSpace(s[0]) then Unspaced(s[1..]) else s
  }

  /** `strtol(s, &end, 10)` on a 32-bit long: the value and what `end` points at; None when there
      is no number, where `end` is the start. */
  function Strtol(s: string): (r: Option<(int, string)>)
    ensures r.Some? ==> |r.value.1| < |s|
  {
    var t := Unspaced(s);
    var signed := t != "" && (t[0] == '-' || t[0] == '+');
    var d := if signed then t[1..] else t;
    if d == "" || !IsDigit(d[0]) then None else
    var (v, rest) := Number(d[1..], (d[0] - '0') as nat);
    Some((Saturated((if signed && t[0] == '-' then -1 else 1) * v), rest))
  }

  /** `nextComponent`: the component, or -1, and what is left of the string. */
  function NextComponent(s: string): (r: (int, string))
    ensures |r.1| <= |s| && (r.0 >= 0 ==> |r.1| < |s|)
  {
    if s == "" then (-1, s) else
    var n := Strtol(s);
    if n.None? then (-1, s) else
    var (v, rest) := n.value;
    (v, if rest != "" && rest[0] == '.' then rest[1..] else rest)
  }

  function Sign(x: int, y: int): int { if x < y then -1 else if x > y then 1 else 0 }

  function AtLeastZero(v: int): int { if v < 0 then 0 else v }

  /** `compareVersions`; null compares equal to everything. */
  method CompareVersions(a: Option<string>, b: Option<string>) returns (r: int)
    ensures r == if a.None? || b.None? then 0 else Compared(Parts(a.value), Parts(b.value))
  {
    if a.None? || b.None? { return 0; }
    var p, q := a.value, b.value;
    while p != "" || q != ""
      invariant Compared(Parts(p), Parts(q)) == Compared(Parts(a.value), Parts(b.value))
      decreases |p| + |q|
    {
      PartsBegin(p);
      PartsBegin(q);
      var (va, p') := NextComponent(p);
      var (vb, q') := NextComponent(q);
      if va < 0 && vb < 0 { return 0; }
      var la := if va < 0 then 0 else va;
      var lb := if vb < 0 then 0 else vb;
      if la != lb { return if la < lb then -1 else 1; }
      p, q := p', q';
    }
    return 0;
  }

  /** All the components of a version string, up to its end or its first part without a number. */
  function Parts(s: string): seq<int>
    decreases |s|
  {
    if s == "" || Strtol(s).None? then [] else
    var (v, rest) := NextComponent(s);
    [v] + Parts(rest)
  }

  /** One turn of the loop sees the next component of each side; a side that has none stays put. */
  lemma PartsBegin(s: string)
    ensures NextComponent(s).0 == Get(Parts(s), 0)
    ensures Parts(NextComponent(s).1) == Rest(Parts(s))
  {}

  function Get(a: seq<int>, i: nat): int { if i < |a| then a[i] else -1 }

  function Rest(a: seq<int>): seq<int> { if a == [] then [] else a[1..] }

  /** The loop of the source over components. */
  function Compared(a: seq<int>, b: seq<int>): int
    decreases |a| + |b|
  {
    var x, y := Get(a, 0), Get(b, 0);
    if x < 0 && y < 0 then 0
    else if AtLeastZero(x) != AtLeastZero(y) then Sign(AtLeastZero(x), AtLeastZero(y))
    else Compared(Rest(a), Rest(b))
  }

  // ---------------------------------------------------------------- the reference order

  /** Component i of a version padded with zeros for ever, a negative one counting as zero. */
  function Padded(a: seq<int>, i: nat): nat { if i < |a| then AtLeastZero(a[i]) else 0 }

  /** a comes before b: they agree up to some component, and there a is smaller. */
  ghost predicate Before(a: seq<int>, b: seq<int>) {
    exists i: nat :: BeforeAt(a, b, i)
  }

  ghost predicate BeforeAt(a: seq<int>, b: seq<int>, i: nat) { AgreeTo(a, b, i) && Padded(a, i) < Padded(b, i) }

  ghost predicate AgreeTo(a: seq<int>, b: seq<int>, n: nat) { forall j :: 0 <= j < n ==> Padded(a, j) == Padded(b, j) }

  /** Some component before the n-th is negative or missing on both sides. */
  ghost predicate BothBlankBefore(a: seq<int>, b: seq<int>, n: nat) {
    exists j: nat :: j < n && Get(a, j) < 0 && Get(b, j) < 0
  }

  lemma RestShifts(a: seq<int>, i: nat)
    ensures Padded(Rest(a), i) == Padded(a, i + 1) && Get(Rest(a), i) == Get(a, i + 1)
  {}

  /** Strictly before implies that order, for all version strings whatsoever. */
  lemma {:induction false} ComparedIsBefore(a: seq<int>, b: seq<int>)
    ensures Compared(a, b) < 0 ==> Before(a, b)
    ensures Compared(a, b) > 0 ==> Before(b, a)
    decreases |a| + |b|
  {
    var x, y := Get(a, 0), Get(b, 0);
    if x < 0 && y < 0 {
    } else if AtLeastZero(x) != AtLeastZero(y) {
      assert AgreeTo(a, b, 0) && AgreeTo(b, a, 0);
      if x < y { assert BeforeAt(a, b, 0); } else { assert BeforeAt(b, a, 0); }
    } else {
      ComparedIsBefore(Rest(a), Rest(b));
      if Compared(a, b) < 0 { BeforeShifts(a, b); } else if Compared(a, b) > 0 { BeforeShifts(b, a); }
    }
  }

  lemma BeforeShifts(a: seq<int>, b: seq<int>)
    requires Padded(a, 0) == Padded(b, 0) && Before(Rest(a), Rest(b))
    ensures Before(a, b)
  {
    var i: nat :| BeforeAt(Rest(a), Rest(b), i);
    forall j | 0 <= j < i + 1 ensures Padded(a, j) == Padded(b, j) {
      if j > 0 {
        RestShifts(a, j - 1);
        RestShifts(b, j - 1);
      }
    }
    RestShifts(a, i);
    RestShifts(b, i);
    assert BeforeAt(a, b, i + 1);
  }

  /** Conversely, the loop finds the first difference exactly when no earlier component is blank on
      both sides: two negative components in the same place end the comparison. */
  lemma {:induction false} FoundUnlessBothBlank(a: seq<int>, b: seq<int>, i: nat)
    requires BeforeAt(a, b, i)
    ensures Compared(a, b) < 0 <==> !BothBlankBefore(a, b, i)
    ensures Compared(b, a) > 0 <==> !BothBlankBefore(a, b, i)
    decreases i
  {
    var x, y := Get(a, 0), Get(b, 0);
    if i > 0 {
      assert Padded(a, 0) == Padded(b, 0);
      if x < 0 && y < 0 {
        assert BothBlankBefore(a, b, i);
      } else {
        forall j | 0 <= j < i - 1 ensures Padded(Rest(a), j) == Padded(Rest(b), j) {
          RestShifts(a, j);
          RestShifts(b, j);
          assert Padded(a, j + 1) == Padded(b, j + 1);
        }
        RestShifts(a, i - 1);
        RestShifts(b, i - 1);
        FoundUnlessBothBlank(Rest(a), Rest(b), i - 1);
        BlankShifts(a, b, i);
      }
    }
  }

  lemma BlankShifts(a: seq<int>, b: seq<int>, i: nat)
    requires i > 0 && !(Get(a, 0) < 0 && Get(b, 0) < 0)
    ensures BothBlankBefore(a, b, i) <==> BothBlankBefore(Rest(a), Rest(b), i - 1)
  {
    if BothBlankBefore(a, b, i) {
      var j: nat :| j < i && Get(a, j) < 0 && Get(b, j) < 0;
      RestShifts(a, j - 1);
      RestShifts(b, j - 1);
      assert j - 1 < i - 1 && Get(Rest(a), j - 1) < 0 && Get(Rest(b), j - 1) < 0;
    }
    if BothBlankBefore(Rest(a), Rest(b), i - 1) {
      var j: nat :| j < i - 1 && Get(Rest(a), j) < 0 && Get(Rest(b), j) < 0;
      RestShifts(a, j);
      RestShifts(b, j);
      assert j + 1 < i && Get(a, j + 1) < 0 && Get(b, j + 1) < 0;
    }
  }

  lemma BeforeIsTransitive(a: seq<int>, b: seq<int>, c: seq<int>)
    requires Before(a, b) && Before(b, c)
    ensures Before(a, c)
  {
    var i: nat :| BeforeAt(a, b, i);
    var k: nat :| BeforeAt(b, c, k);
    var n := Min(i, k);
    assert AgreeTo(a, c, n);
    assert BeforeAt(a, c, n);
  }

  lemma BeforeIsIrreflexive(a: seq<int>)
    ensures !Before(a, a)
  {}

  // ---------------------------------------------------------------------- sign-free

  predicate SignFree(s: string) { '-' !in s }

  predicate NonNegative(a: seq<int>) { forall i :: 0 <= i < |a| ==> a[i] >= 0 }

  lemma {:induction false} NumberStaysSignFree(s: string, sofar: nat)
    requires SignFree(s)
    ensures SignFree(Number(s, sofar).1)
  {
    if s != "" && IsDigit(s[0]) { NumberStaysSignFree(s[1..], sofar * 10 + (s[0] - '0') as nat); }
  }

  lemma {:induction false} UnspacedStaysSignFree(s: string)
    requires SignFree(s)
    ensures SignFree(Unspaced(s))
  {
    if s != "" && IsSpace(s[0]) { UnspacedStaysSignFree(s[1..]); }
  }

  lemma StrtolOfSignFree(s: string)
    requires SignFree(s) && Strtol(s).Some?
    ensures Strtol(s).value.0 >= 0 && SignFree(Strtol(s).value.1)
  {
    var t := Unspaced(s);
    UnspacedStaysSignFree(s);
    var signed := t != "" && (t[0] == '-' || t[0] == '+');
    var d := if signed then t[1..] else t;
    NumberStaysSignFree(d[1..], (d[0] - '0') as nat);
  }

  lemma {:induction false} SignFreeParts(s: string)
    requires SignFree(s)
    ensures NonNegative(Parts(s))
    decreases |s|
  {
    if s != "" && Strtol(s).Some? {
      StrtolOfSignFree(s);
      SignFreeParts(NextComponent(s).1);
    }
  }

  /** On components without a negative one the comparison is the reference order. */
  lemma NonNegativeIsLexicographic(x: seq<int>, y: seq<int>)
    requires NonNegative(x) && NonNegative(y)
    ensures (Compared(x, y) < 0 <==> Before(x, y)) && (Compared(x, y) > 0 <==> Before(y, x))
  {
    ComparedIsBefore(x, y);
    if Before(x, y) {
      var i: nat :| BeforeAt(x, y, i);
      BlankMeansEnded(x, y, i);
      FoundUnlessBothBlank(x, y, i);
    }
    if Before(y, x) {
      var i: nat :| BeforeAt(y, x, i);
      BlankMeansEnded(y, x, i);
      FoundUnlessBothBlank(y, x, i);
    }
  }

  /** On sign-free strings the comparison is the reference order, in both directions. */
  lemma SignFreeIsLexicographic(a: string, b: string)
    requires SignFree(a) && SignFree(b)
    ensures var x, y := Parts(a), Parts(b);
      (Compared(x, y) < 0 <==> Before(x, y)) && (Compared(x, y) > 0 <==> Before(y, x))
  {
    SignFreeParts(a);
    SignFreeParts(b);
    NonNegativeIsLexicographic(Parts(a), Parts(b));
  }

  lemma BlankMeansEnded(a: seq<int>, b: seq<int>, i: nat)
    requires NonNegative(a) && NonNegative(b) && BeforeAt(a, b, i)
    ensures !BothBlankBefore(a, b, i)
  {
    assert i < |b|;
  }

  /** Neither before nor after is an equivalence too, so sign-free versions are totally
      preordered: "not after" is transitive. */
  lemma SignFreeIsPreorder(a: string, b: string, c: string)
    requires SignFree(a) && SignFree(b) && SignFree(c)
    requires Compared(Parts(a), Parts(b)) <= 0 && Compared(Parts(b), Parts(c)) <= 0
    ensures Compared(Parts(a), Parts(c)) <= 0
  {
    var x, y, z := Parts(a), Parts(b), Parts(c);
    SignFreeIsLexicographic(a, b);
    SignFreeIsLexicographic(b, c);
    SignFreeIsLexicographic(a, c);
    if Before(z, x) {
      var i: nat :| BeforeAt(z, x, i);
      FirstDisagreement(z, y, x, i);
    }
  }

  lemma {:induction false} FirstApart(a: seq<int>, b: seq<int>, n: nat) returns (k: nat)
    requires !AgreeTo(a, b, n)
    ensures k < n && AgreeTo(a, b, k) && Padded(a, k) != Padded(b, k)
  {
    if AgreeTo(a, b, n - 1) { k := n - 1; } else { k := FirstApart(a, b, n - 1); }
  }

  /** What lies strictly between two things cannot be level with both. */
  lemma FirstDisagreement(a: seq<int>, b: seq<int>, c: seq<int>, i: nat)
    requires BeforeAt(a, c, i)
    ensures Before(a, b) || Before(b, c)
  {
    if !AgreeTo(a, b, i) {
      var k := FirstApart(a, b, i);
      assert AgreeTo(b, c, k);
      if Padded(a, k) < Padded(b, k) { assert BeforeAt(a, b, k); } else { assert BeforeAt(b, c, k); }
    } else if Padded(a, i) < Padded(b, i) {
      assert BeforeAt(a, b, i);
    } else {
      assert BeforeAt(b, c, i);
    }
  }

  /** With signs it is not: "-1.2" is level with "-1.1", that with "0.1", and yet "-1.2" is newer
      than "0.1". */
  lemma SignedIsNotTransitive()
    ensures Compared(Parts("-1.2"), Parts("-1.1")) == 0 && Compared(Parts("-1.1"), Parts("0.1")) == 0
    ensures Compared(Parts("-1.2"), Parts("0.1")) > 0
  {
    TwoParts("-1.2", -1, '2');
    TwoParts("-1.1", -1, '1');
    TwoParts("0.1", 0, '1');
    OneStep(-1, 2, 0, 1);
    OneStep(-1, 1, 0, 1);
  }

  lemma OneStep(v: int, x: nat, w: nat, y: nat)
    requires AtLeastZero(v) == w
    ensures Compared([v, x], [w, y]) == Sign(x, y)
  {
    assert Rest([v, x]) == [x] && Rest([w, y]) == [y] && Rest([x]) == Rest([y]) == [];
    assert Compared([], []) == 0;
  }

  lemma TwoParts(s: string, v: int, last: char)
    requires IsDigit(last) && ((s == "0." + [last] && v == 0) || (s == "-1." + [last] && v == -1))
    ensures Parts(s) == [v, (last - '0') as nat]
  {
    var d := if v == 0 then s else s[1..];
    var tail := "." + [last];
    assert d == (if v == 0 then "0" else "1") + tail;
    assert d[1..] == tail && tail[1..] == [last];
    assert Number(tail, (d[0] - '0') as nat) == ((d[0] - '0') as nat, tail);
    assert Strtol(s) == Some((v, tail));
    LastPart([last], (last - '0') as nat);
  }

  lemma LastPart(s: string, v: nat)
    requires v < 10 && |s| == 1 && IsDigit(s[0]) && (s[0] - '0') as nat == v
    ensures Parts(s) == [v]
  {
    assert s[1..] == "" && Number("", v) == (v, "");
    assert NextComponent(s) == (v, "") && Parts("") == [];
  }

  // ------------------------------------------------------------------------ validation

  datatype Order = Order(
    updateId: string, targetVersion: string, url: string, repo: string, size: Word32, hasSha256: bool)

  datatype Rejection = Accepted | MissingField | Duplicate | WrongRepo | SameVersion | Downgrade | TooLarge | NoSha256

  /** What the device knows when an order arrives; null strings are None. */
  datatype Device = Device(
    version: Option<string>, repo: Option<string>, slotBytes: Word32, lastUpdateId: Option<string>,
    allowDowngrade: bool)

  predicate Known(s: Option<string>) { s.Some? && s.value != "" }

  function Comparison(o: Order, d: Device): int
    requires Known(d.version)
  {
    Compared(Parts(o.targetVersion), Parts(d.version.value))
  }

  method Validate(o: Order, d: Device) returns (r: Rejection)
    ensures r == Verdict(o, d)
  {
    if o.updateId == "" || o.url == "" || o.targetVersion == "" { return MissingField; }
    if d.lastUpdateId.Some? && d.lastUpdateId.value != "" && o.updateId == d.lastUpdateId.value { return Duplicate; }
    if o.repo != "" && d.repo.Some? && d.repo.value != "" && o.repo != d.repo.value { return WrongRepo; }
    if d.version.Some? && d.version.value != "" {
      var cmp := CompareVersions(Some(o.targetVersion), d.version);
      if cmp == 0 { return SameVersion; }
      if cmp < 0 && !d.allowDowngrade { return Downgrade; }
    }
    if d.slotBytes > 0 && o.size > d.slotBytes { return TooLarge; }
    if !o.hasSha256 { return NoSha256; }
    return Accepted;
  }

  function Verdict(o: Order, d: Device): Rejection {
    if o.updateId == "" || o.url == "" || o.targetVersion == "" then MissingField
    else if Known(d.lastUpdateId) && o.updateId == d.lastUpdateId.value then Duplicate
    else if o.repo != "" && Known(d.repo) && o.repo != d.repo.value then WrongRepo
    else if Known(d.version) && Comparison(o, d) == 0 then SameVersion
    else if Known(d.version) && Comparison(o, d) < 0 && !d.allowDowngrade then Downgrade
    else if d.slotBytes > 0 && o.size > d.slotBytes then TooLarge
    else if !o.hasSha256 then NoSha256
    else Accepted
  }

  /** What acceptance comes to when neither version carries a sign: nothing missing, new, meant for
      this device, later than what runs (or merely different, where downgrades are allowed), small
      enough, and with a digest. */
  lemma AcceptedExactlyWhen(o: Order, d: Device)
    requires SignFree(o.targetVersion) && (d.version.Some? ==> SignFree(d.version.value))
    ensures Verdict(o, d) == Accepted <==>
      && o.updateId != "" && o.url != "" && o.targetVersion != ""
      && (Known(d.lastUpdateId) ==> o.updateId != d.lastUpdateId.value)
      && (o.repo != "" && Known(d.repo) ==> o.repo == d.repo.value)
      && (Known(d.version) ==> MayReplace(o.targetVersion, d.version.value, d.allowDowngrade))
      && (d.slotBytes > 0 ==> o.size <= d.slotBytes) && o.hasSha256
  {
    if Known(d.version) { SignFreeIsLexicographic(o.targetVersion, d.version.value); }
  }

  /** What each refusal means: the first thing wrong, in this order. */
  lemma RefusedExactlyFor(o: Order, d: Device)
    ensures var v := Verdict(o, d);
      var missing := o.updateId == "" || o.url == "" || o.targetVersion == "";
      var repeated := Known(d.lastUpdateId) && d.lastUpdateId.value == o.updateId;
      var elsewhere := o.repo != "" && Known(d.repo) && d.repo.value != o.repo;
      var level := Known(d.version) && Comparison(o, d) == 0;
      var older := Known(d.version) && Comparison(o, d) < 0 && !d.allowDowngrade;
      var large := 0 < d.slotBytes < o.size;
      && (v == MissingField <==> missing)
      && (v == Duplicate <==> !missing && repeated)
      && (v == WrongRepo <==> !missing && !repeated && elsewhere)
      && (v == SameVersion <==> !missing && !repeated && !elsewhere && level)
      && (v == Downgrade <==> !missing && !repeated && !elsewhere && older)
      && (v == TooLarge <==> !missing && !repeated && !elsewhere && !level && !older && large)
      && (v == NoSha256 <==> !missing && !repeated && !elsewhere && !level && !older && !large && !o.hasSha256)
  {}

  ghost predicate MayReplace(target: string, current: string, allowDowngrade: bool) {
    Before(Parts(current), Parts(target)) || (allowDowngrade && Before(Parts(target), Parts(current)))
  }

  /** The versions a device runs, newest last, as orders arrive: an accepted order becomes the
      installed version. Everything else about the device may change between orders. */
  function Installed(first: string, arrivals: seq<(Order, Device)>): (h: seq<string>)
    ensures |h| > 0
    decreases |arrivals|
  {
    if arrivals == [] then [first] else
    var (o, d) := arrivals[|arrivals| - 1];
    AfterArrival(Installed(first, arrivals[..|arrivals| - 1]), o, d)
  }

  function AfterArrival(h: seq<string>, o: Order, d: Device): (r: seq<string>)
    requires |h| > 0
    ensures |r| > 0
  {
    if Verdict(o, Running(d, h[|h| - 1])) == Accepted then h + [o.targetVersion] else h
  }

  /** The device with a given version installed and downgrades disallowed. */
  function Running(d: Device, version: string): Device { d.(version := Some(version), allowDowngrade := false) }

  ghost predicate Increasing(h: seq<string>) {
    forall i, j :: 0 <= i < j < |h| ==> Before(Parts(h[i]), Parts(h[j]))
  }

  lemma AcceptedIsNewer(o: Order, d: Device)
    requires Known(d.version) && !d.allowDowngrade && Verdict(o, d) == Accepted
    ensures Before(Parts(d.version.value), Parts(o.targetVersion)) && o.targetVersion != ""
  {
    ComparedIsBefore(Parts(o.targetVersion), Parts(d.version.value));
  }

  lemma AppendedStaysIncreasing(h: seq<string>, v: string)
    requires |h| > 0 && Increasing(h) && Before(Parts(h[|h| - 1]), Parts(v))
    ensures Increasing(h + [v])
  {
    var g := h + [v];
    forall i, j | 0 <= i < j < |g| ensures Before(Parts(g[i]), Parts(g[j])) {
      if j == |h| && i < |h| - 1 {
        BeforeIsTransitive(Parts(h[i]), Parts(h[|h| - 1]), Parts(v));
      }
    }
  }

  ghost predicate Climbing(h: seq<string>) { Increasing(h) && forall i :: 0 <= i < |h| ==> h[i] != "" }

  lemma ArrivalKeepsClimbing(h: seq<string>, o: Order, d: Device)
    requires |h| > 0 && Climbing(h)
    ensures Climbing(AfterArrival(h, o, d))
  {
    var here := Running(d, h[|h| - 1]);
    if Verdict(o, here) == Accepted {
      assert Known(here.version);
      AcceptedIsNewer(o, here);
      AppendedStaysIncreasing(h, o.targetVersion);
    }
  }

  /** With downgrades disallowed the installed versions strictly increase, whatever strings the
      orders carry. */
  lemma {:induction false} InstalledVersionsIncrease(first: string, arrivals: seq<(Order, Device)>)
    requires first != ""
    ensures Climbing(Installed(first, arrivals))
    decreases |arrivals|
  {
    if arrivals != [] {
      InstalledVersionsIncrease(first, arrivals[..|arrivals| - 1]);
      var before := Installed(first, arrivals[..|arrivals| - 1]);
      ArrivalKeepsClimbing(before, arrivals[|arrivals| - 1].0, arrivals[|arrivals| - 1].1);
    }
  }

  /** So no version is ever installed twice. */
  lemma NoVersionRepeats(first: string, arrivals: seq<(Order, Device)>, i: nat, j: nat)
    requires first != "" && i < j < |Installed(first, arrivals)|
    ensures Installed(first, arrivals)[i] != Installed(first, arrivals)[j]
  {
    InstalledVersionsIncrease(first, arrivals);
    var h := Installed(first, arrivals);
    assert Before(Parts(h[i]), Parts(h[j]));
    BeforeIsIrreflexive(Parts(h[i]));
  }
}
