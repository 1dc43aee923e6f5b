/**
 Which numbers a version string is read as (`nextComponent` in OrderCodec): the value of a string of
 digits by place, what surrounds it, and the versions that are lists of numbers.
 */
module VersionText {
  import opened Words
  import opened OrderCodec

  // ----------------------------------------------------------------- numbers by place

  predicate AllDigits(s: string) { forall i :: 0 <= i < |s| ==> IsDigit(s[i]) }

  /** White space is a blank, or one of the control characters 9 to 13. */
  lemma SpacesAre(c: char)
    ensures IsSpace(c) <==> c as int == 32 || 9 <= c as int <= 13
  {}

  predicate AllSpaces(s: string) { forall i :: 0 <= i < |s| ==> IsSpace(s[i]) }

  function Pow10(n: nat): nat { if n == 0 then 1 else 10 * Pow10(n - 1) }

  /** A digit counts for ten to the number of digits after it. */
  function Value(digits: string): nat
    requires AllDigits(digits)
  {
    if digits == "" then 0 else (digits[0] - '0') as nat * Pow10(|digits| - 1) + Value(digits[1..])
  }

  /** No digit follows. */
  predicate Stops(s: string) { s == "" || !IsDigit(s[0]) }

  lemma PlacesAdd(sofar: nat, d: nat, p: nat, v: nat)
    ensures (sofar * 10 + d) * p + v == sofar * (10 * p) + (d * p + v)
  {}

  lemma {:induction false} NumberIsValue(digits: string, rest: string, sofar: nat)
    requires AllDigits(digits) && Stops(rest)
    ensures Number(digits + rest, sofar) == (sofar * Pow10(|digits|) + Value(digits), rest)
  {
    if digits == "" {
      assert digits + rest == rest;
    } else {
      var d := (digits[0] - '0') as nat;
      assert (digits + rest)[1..] == digits[1..] + rest && (digits + rest)[0] == digits[0];
      NumberIsValue(digits[1..], rest, sofar * 10 + d);
      PlacesAdd(sofar, d, Pow10(|digits| - 1), Value(digits[1..]));
    }
  }

  lemma {:induction false} SpacesAreSkipped(blank: string, s: string)
    requires AllSpaces(blank) && (s == "" || !IsSpace(s[0]))
    ensures Unspaced(blank + s) == s
  {
    if blank == "" {
      assert blank + s == s;
    } else {
      assert (blank + s)[1..] == blank[1..] + s;
      SpacesAreSkipped(blank[1..], s);
    }
  }

  predicate IsSign(s: string) { s == "" || s == "+" || s == "-" }

  function Signed(sign: string, n: int): int { if sign == "-" then -n else n }

  lemma DigitsAreRead(digits: string, rest: string)
    requires digits != "" && AllDigits(digits) && Stops(rest)
    ensures Number((digits + rest)[1..], (digits[0] - '0') as nat) == (Value(digits), rest)
  {
    NumberIsValue(digits, rest, 0);
    assert (digits + rest)[0] == digits[0];
  }

  /** Values out of the range of a 32-bit long become its ends. */
  lemma CappedAtTheEnds(v: int)
    ensures Saturated(v) == if v >= 0x7fff_ffff then 0x7fff_ffff else if v <= -0x8000_0000 then -0x8000_0000 else v
  {}

  /** `t` is the string from its sign on, `number` from its first digit on. */
  lemma SignIsRead(s: string, t: string, sign: string, number: string)
    requires Unspaced(s) == t == sign + number && IsSign(sign) && number != "" && IsDigit(number[0])
    ensures var (v, rest) := Number(number[1..], (number[0] - '0') as nat);
      Strtol(s) == Some((Saturated(Signed(sign, v)), rest))
  {
    assert sign != "" ==> t[0] == sign[0] && t[1..] == number;
    assert sign == "" ==> t == number;
  }

  /** A number is read whole: white space, a sign, all the digits at their places, up to the first
      character that is not one; capped at the range of a 32-bit long. */
  lemma NumberIsRead(blank: string, sign: string, digits: string, rest: string)
    requires AllSpaces(blank) && IsSign(sign) && digits != "" && AllDigits(digits) && Stops(rest)
    ensures Strtol(blank + sign + digits + rest) == Some((Saturated(Signed(sign, Value(digits))), rest))
  {
    var s, number := blank + sign + digits + rest, digits + rest;
    assert s == blank + (sign + number);
    SpacesAreSkipped(blank, sign + number);
    DigitsAreRead(digits, rest);
    SignIsRead(s, sign + number, sign, number);
  }

  /** What follows a component, without the dot that ends it. */
  function AfterDot(s: string): string { if s != "" && s[0] == '.' then s[1..] else s }

  /** The components of a string that begins with a number are that number and those of what follows
      it and its dot. */
  lemma PartsGoOn(blank: string, sign: string, digits: string, rest: string)
    requires AllSpaces(blank) && IsSign(sign) && digits != "" && AllDigits(digits) && Stops(rest)
    ensures Parts(blank + sign + digits + rest) ==
      [Saturated(Signed(sign, Value(digits)))] + Parts(AfterDot(rest))
  {
    NumberIsRead(blank, sign, digits, rest);
  }

  /** Where none begins they end. */
  lemma PartsEnd(blank: string, sign: string, rest: string)
    requires AllSpaces(blank) && IsSign(sign) && Stops(rest)
    requires sign == "" && rest != "" ==> !IsSpace(rest[0]) && rest[0] != '+' && rest[0] != '-'
    ensures Parts(blank + sign + rest) == []
  {
    assert blank + sign + rest == blank + (sign + rest);
    SpacesAreSkipped(blank, sign + rest);
    assert sign != "" ==> (sign + rest)[1..] == rest;
    assert sign == "" ==> sign + rest == rest;
  }

  // ----------------------------------------------------------------------- dotted lists

  predicate Numbers(l: seq<string>) { forall i :: 0 <= i < |l| ==> l[i] != "" && AllDigits(l[i]) }

  function Dotted(l: seq<string>): string {
    if l == [] then "" else if |l| == 1 then l[0] else l[0] + "." + Dotted(l[1..])
  }

  function Values(l: seq<string>): seq<int>
    requires Numbers(l)
  {
    if l == [] then [] else [Saturated(Value(l[0]))] + Values(l[1..])
  }

  /** Numbers with dots between them, leading zeros or not, are read as their values. */
  lemma {:induction false} DottedIsRead(l: seq<string>)
    requires l != [] && Numbers(l)
    ensures Parts(Dotted(l)) == Values(l)
  {
    var rest := if |l| == 1 then "" else "." + Dotted(l[1..]);
    assert Dotted(l) == l[0] + rest && "" + "" + l[0] + rest == l[0] + rest;
    PartsGoOn("", "", l[0], rest);
    if |l| > 1 {
      DottedIsRead(l[1..]);
      assert rest[1..] == Dotted(l[1..]);
    }
  }

  lemma {:induction false} ValuesAreNumbers(l: seq<string>)
    requires Numbers(l)
    ensures NonNegative(Values(l)) && |Values(l)| == |l|
    ensures forall i :: 0 <= i < |l| ==> Values(l)[i] == Min(Value(l[i]), 0x7fff_ffff)
  {
    if l != [] { ValuesAreNumbers(l[1..]); }
  }

  /** So such versions compare as lists of numbers, the shorter one with zeros added. */
  lemma DottedVersionsCompare(a: seq<string>, b: seq<string>)
    requires a != [] && b != [] && Numbers(a) && Numbers(b)
    ensures var r := Compared(Parts(Dotted(a)), Parts(Dotted(b)));
      (r < 0 <==> Before(Values(a), Values(b))) && (r > 0 <==> Before(Values(b), Values(a)))
  {
    DottedIsRead(a);
    DottedIsRead(b);
    ValuesAreNumbers(a);
    ValuesAreNumbers(b);
    NonNegativeIsLexicographic(Values(a), Values(b));
  }

  // ------------------------------------------------------------------- printed numbers

  function Digit(n: nat): char
    requires n < 10
  {
    '0' + n as char
  }

  function Print(n: nat): string { if n < 10 then [Digit(n)] else Print(n / 10) + [Digit(n % 10)] }

  lemma TenTimes(d: nat, p: nat, v: nat, c: nat)
    ensures d * (10 * p) + (10 * v + c) == 10 * (d * p + v) + c
  {}

  lemma {:induction false} LastPlace(digits: string, c: char)
    requires AllDigits(digits) && IsDigit(c)
    ensures Value(digits + [c]) == 10 * Value(digits) + (c - '0') as nat
  {
    var s := digits + [c];
    if digits == "" {
      assert s == [c] && s[1..] == "";
    } else {
      LastPlace(digits[1..], c);
      assert s[1..] == digits[1..] + [c] && s[0] == digits[0];
      TenTimes((s[0] - '0') as nat, Pow10(|digits| - 1), Value(digits[1..]), (c - '0') as nat);
    }
  }

  /** A printed number has the value that was printed. */
  lemma {:induction false} ValueOfPrint(n: nat)
    ensures Print(n) != "" && AllDigits(Print(n)) && Value(Print(n)) == n
  {
    if n < 10 {
      assert [Digit(n)][1..] == "";
    } else {
      ValueOfPrint(n / 10);
      LastPlace(Print(n / 10), Digit(n % 10));
    }
  }

  predicate Small(numbers: seq<nat>) { forall i :: 0 <= i < |numbers| ==> numbers[i] < 0x8000_0000 }

  function Printed(numbers: seq<nat>): seq<string> {
    if numbers == [] then [] else [Print(numbers[0])] + Printed(numbers[1..])
  }

  lemma {:induction false} PrintedNumbers(numbers: seq<nat>)
    requires Small(numbers)
    ensures |Printed(numbers)| == |numbers| && Numbers(Printed(numbers)) && Values(Printed(numbers)) == numbers
  {
    if numbers != [] {
      PrintedNumbers(numbers[1..]);
      ValueOfPrint(numbers[0]);
    }
  }

  function Version(numbers: seq<nat>): string { Dotted(Printed(numbers)) }

  /** A version printed from numbers below 2^31 is read back as those numbers. */
  lemma PrintedVersionIsRead(numbers: seq<nat>)
    requires numbers != [] && Small(numbers)
    ensures Version(numbers) != "" && Parts(Version(numbers)) == numbers
  {
    PrintedNumbers(numbers);
    DottedIsRead(Printed(numbers));
  }

  /** An order for a numbered version, on a device that runs one, with downgrades disallowed: the version
      is no obstacle exactly when its numbers come later. */
  lemma NumberedOrderIsNewer(o: Order, d: Device, target: seq<nat>, current: seq<nat>)
    requires target != [] && current != [] && Small(target) && Small(current)
    requires o.targetVersion == Version(target) && d.version == Some(Version(current)) && !d.allowDowngrade
    ensures Known(d.version) && (Comparison(o, d) > 0 <==> Before(current, target))
    ensures Verdict(o, d) == Accepted ==> Before(current, target)
    ensures Verdict(o, d) == SameVersion || Verdict(o, d) == Downgrade ==> !Before(current, target)
  {
    PrintedVersionIsRead(target);
    PrintedVersionIsRead(current);
    NonNegativeIsLexicographic(target, current);
  }
}
