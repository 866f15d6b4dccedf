/** The room page's two small displays (public/app.js): the elapsed-time
    clock and the video-grid class chosen from the number of tiles. */
module Display {
  import opened Protocol

  // ------------------------------------------------------ decimal numerals

  predicate IsDigit(ch: char) {
    '0' <= ch <= '9'
  }

  predicate AllDigits(s: string) {
    forall i :: 0 <= i < |s| ==> IsDigit(s[i])
  }

  function DigitChar(d: nat): char
    requires d < 10
  {
    ('0' as int + d) as char
  }

  /** `String(n)` for a non-negative integer: its decimal digits, without
      leading zeros. */
  function NatToString(n: nat): (s: string)
    ensures |s| >= 1 && AllDigits(s)
    ensures n < 10 <==> |s| == 1
    ensures n < 100 ==> |s| <= 2
    decreases n
  {
    if n < 10 then [DigitChar(n)] else NatToString(n / 10) + [DigitChar(n % 10)]
  }

  /** `String(i)` for any integer: a minus sign before the digits of a
      negative number. */
  function IntToString(i: int): string {
    if i < 0 then "-" + NatToString(-i) else NatToString(i)
  }

  function DigitValue(ch: char): nat {
    if IsDigit(ch) then ch as int - '0' as int else 0
  }

  /** The value of a string of decimal digits, leading zeros allowed. */
  function ParseNat(s: string): nat
    decreases |s|
  {
    if s == [] then 0 else ParseNat(s[..|s| - 1]) * 10 + DigitValue(s[|s| - 1])
  }

  /** `padStart(2, '0')`: zeros in front up to two characters; a longer
      string is left alone. */
  function Pad2(s: string): (t: string)
    ensures |t| == if |s| >= 2 then |s| else 2
    ensures t[|t| - |s|..] == s
    ensures forall i :: 0 <= i < |t| - |s| ==> t[i] == '0'
  {
    if |s| >= 2 then s else if |s| == 1 then "0" + s else "00"
  }

  /** Reading back what `String` wrote gives the number. */
  lemma {:induction false} ParseNatToString(n: nat)
    ensures ParseNat(NatToString(n)) == n
    decreases n
  {
    if n >= 10 {
      var s := NatToString(n);
      assert s[..|s| - 1] == NatToString(n / 10);
      ParseNatToString(n / 10);
    }
  }

  /** Leading zeros do not change the value. */
  lemma {:induction false} ParseLeadingZero(s: string)
    requires AllDigits(s)
    ensures AllDigits("0" + s) && ParseNat("0" + s) == ParseNat(s)
    decreases |s|
  {
    if s != [] {
      var t := "0" + s;
      assert t[..|t| - 1] == "0" + s[..|s| - 1];
      ParseLeadingZero(s[..|s| - 1]);
    } else {
      assert ("0" + s)[..0] == [];
    }
  }

  /** `padStart(2, '0')` of a numeral: at least two digits that read back
      as the number, exactly two below 100. */
  lemma ParsePad2(n: nat)
    ensures AllDigits(Pad2(NatToString(n)))
    ensures ParseNat(Pad2(NatToString(n))) == n
    ensures |Pad2(NatToString(n))| >= 2
    ensures n < 100 ==> |Pad2(NatToString(n))| == 2
  {
    var s := NatToString(n);
    ParseNatToString(n);
    if |s| < 2 {
      ParseLeadingZero(s);
    }
  }

  // ------------------------------------------------------------- the clock

  function Abs(a: int): nat {
    if a < 0 then -a else a
  }

  /** `Math.floor(a / b)` for a positive divisor. */
  function FloorDiv(a: int, b: int): (q: int)
    requires b > 0
    ensures q * b <= a < q * b + b
  {
    a / b
  }

  /** JavaScript's `%` for a positive divisor: the remainder takes the sign
      of the dividend. */
  function JsRem(a: int, b: int): (r: int)
    requires b > 0
    ensures Abs(r) == Abs(a) % b
    ensures a >= 0 ==> r >= 0
    ensures a < 0 ==> r <= 0
  {
    if a >= 0 then a % b else -((-a) % b)
  }

  /** `updateTimer`: whole seconds since the page started, written as
      minutes and seconds, each padded to two characters. */
  function TimerText(now: int, start: int): string {
    var elapsed := FloorDiv(now - start, 1000);
    Pad2(IntToString(FloorDiv(elapsed, 60))) + ":" + Pad2(IntToString(JsRem(elapsed, 60)))
  }

  /** `t` is a clock text `mm:ss` reading `seconds`: at least two minute
      digits, a colon, exactly two second digits, seconds below 60, and
      minutes times 60 plus seconds equal to `seconds`. */
  predicate ReadsAs(t: string, seconds: int) {
    var k := |t| - 3;
    && k >= 2 && t[k] == ':'
    && AllDigits(t[..k]) && AllDigits(t[k + 1..])
    && ParseNat(t[k + 1..]) < 60
    && ParseNat(t[..k]) * 60 + ParseNat(t[k + 1..]) == seconds
  }

  /** For a clock that has not gone backwards the text reads as the whole
      seconds elapsed. */
  lemma TimerFields(now: int, start: int)
    requires now >= start
    ensures ReadsAs(TimerText(now, start), (now - start) / 1000)
  {
    var e := (now - start) / 1000;
    var mins, secs := e / 60, e % 60;
    var mm, ss := Pad2(NatToString(mins)), Pad2(NatToString(secs));
    assert e >= 0 && mins * 60 + secs == e && secs < 60 && TimerText(now, start) == mm + ":" + ss by {
      TimerSplit(now, start);
    }
    assert AllDigits(mm) && ParseNat(mm) == mins && |mm| >= 2 by {
      ParsePad2(mins);
    }
    assert AllDigits(ss) && ParseNat(ss) == secs && |ss| == 2 by {
      ParsePad2(secs);
    }
    FieldsOf(mm, ss, e);
  }

  /** The clock's arithmetic for a non-negative elapsed time. */
  lemma TimerSplit(now: int, start: int)
    requires now >= start
    ensures var e := (now - start) / 1000;
      && e >= 0 && e / 60 * 60 + e % 60 == e && e % 60 < 60
      && TimerText(now, start) == Pad2(NatToString(e / 60)) + ":" + Pad2(NatToString(e % 60))
  {
  }

  /** Two digit fields joined by a colon, the second two characters long,
      read as the first times 60 plus the second. */
  lemma FieldsOf(mm: string, ss: string, e: nat)
    requires |mm| >= 2 && |ss| == 2 && AllDigits(mm) && AllDigits(ss)
    requires ParseNat(ss) < 60 && ParseNat(mm) * 60 + ParseNat(ss) == e
    ensures ReadsAs(mm + ":" + ss, e)
  {
    var t := mm + ":" + ss;
    var k := |t| - 3;
    assert t[..k] == mm && t[k + 1..] == ss;
  }

  /** When the clock reads earlier than the start, both fields carry a
      minus sign: five seconds before the start shows `-1:-5`. */
  lemma TimerBeforeStart()
    ensures TimerText(0, 5000) == "-1:-5"
  {
    assert FloorDiv(-5000, 1000) == -5;
    assert FloorDiv(-5, 60) == -1;
    assert JsRem(-5, 60) == -5;
    assert NatToString(1) == "1";
    assert NatToString(5) == "5";
  }

  // -------------------------------------------------------------- the grid

  datatype Layout = Grid1 | Grid2 | Grid3to4 | Grid5to6 | GridMany

  /** The class added to the grid element. */
  function ClassName(l: Layout): string {
    match l
    case Grid1 => "grid-1"
    case Grid2 => "grid-2"
    case Grid3to4 => "grid-3-4"
    case Grid5to6 => "grid-5-6"
    case GridMany => "grid-many"
  }

  /** `updateGridLayout`: the first threshold the tile count meets. */
  function GridLayout(tiles: nat): (l: Layout)
    ensures Fits(tiles, l)
  {
    if tiles <= 1 then Grid1
    else if tiles == 2 then Grid2
    else if tiles <= 4 then Grid3to4
    else if tiles <= 6 then Grid5to6
    else GridMany
  }

  /** The tile counts each layout is meant for, as its class name says. */
  function Lowest(l: Layout): nat {
    match l
    case Grid1 => 0
    case Grid2 => 2
    case Grid3to4 => 3
    case Grid5to6 => 5
    case GridMany => 7
  }

  function Highest(l: Layout): Option<nat> {
    match l
    case Grid1 => Some(1)
    case Grid2 => Some(2)
    case Grid3to4 => Some(4)
    case Grid5to6 => Some(6)
    case GridMany => None
  }

  predicate Fits(tiles: nat, l: Layout) {
    Lowest(l) <= tiles && (Highest(l).None? || tiles <= Highest(l).value)
  }

  /** The thresholds send every tile count to the one layout whose range
      holds it. */
  lemma GridLayoutFits(tiles: nat, l: Layout)
    ensures GridLayout(tiles) == l <==> Fits(tiles, l)
  {
  }

  /** The ranges do not overlap, so no count fits two layouts. */
  lemma LayoutsDisjoint(tiles: nat, l: Layout, m: Layout)
    requires Fits(tiles, l) && Fits(tiles, m)
    ensures l == m
  {
  }

  /** More tiles never give a layout meant for fewer. */
  lemma GridLayoutMonotone(a: nat, b: nat)
    requires a <= b
    ensures Lowest(GridLayout(a)) <= Lowest(GridLayout(b))
  {
  }

  /** Different layouts add different classes. */
  lemma ClassNamesDistinct(l: Layout, m: Layout)
    requires ClassName(l) == ClassName(m)
    ensures l == m
  {
  }
}
