/** The console progress bar of src/progress_bar.cpp: the text of one bar
    line, and the ProgressBar object that counts ticks up to the expected
    number of iterations and writes its lines to the console, modelled as
    the text written so far. */
module Progress {
  import opened Wrappers
  import opened Text

  /** LENGTH_OF_PROGRESS_BAR: the bar with its two brackets. */
  const BarLength: nat := 55

  /** Bound of the source's unsigned int counters. */
  const UIntLimit: nat := 0x1_0000_0000

  const UseAfterEnd: string := "Attempted to use progress bar after having terminated it"

  /** The bin a percentage falls in: percentage / (100.0 / 55), truncated.
      For 0..100 the double computation and this exact one agree. */
  function Bins(percentage: nat): nat
  {
    percentage * BarLength / 100
  }

  /** The number of '|' symbols: one less than the bin, at least 0 and at most
      the width inside the brackets. */
  function Symbols(percentage: nat): (n: nat)
    ensures n <= BarLength - 2
    ensures Bins(percentage) >= 1 && Bins(percentage) - 1 <= BarLength - 2 ==> n == Bins(percentage) - 1
    ensures Bins(percentage) == 0 ==> n == 0
  {
    var progress := Bins(percentage);
    if progress == 0 then 0
    else if progress - 1 < BarLength - 2 then progress - 1
    else BarLength - 2
  }

  /** generateProgressBar: a space, the percentage right-aligned in three
      columns, "% ", then the bar between brackets with Symbols(percentage)
      '|' and spaces for the rest. */
  function GenerateProgressBar(percentage: nat): (s: string)
  {
    " " + PadLeft(NatToString(percentage), 3, ' ') + BarPart(Symbols(percentage))
  }

  /** Reads the percentage back from a bar line: the digits in columns 1-3
      after the padding. */
  function PercentageOfBar(s: string): (p: Option<nat>)
  {
    if |s| < 4 then None
    else
      var field := DropWhile(s[1..4], c => c == ' ');
      if field != [] && AllDigits(field) then Some(DigitsValue(field)) else None
  }

  /** Counts the '|' symbols at the start of the bar, after column 6. */
  function SymbolsOfBar(s: string): nat
  {
    if |s| < 7 then 0 else |TakeUntil(s[7..], c => c != '|')|
  }

  lemma {:induction false} ShortDigits(p: nat)
    requires p < 1000
    ensures |NatToString(p)| <= 3
    ensures p < 100 ==> |NatToString(p)| <= 2
    ensures p < 10 ==> |NatToString(p)| == 1
  {
    if p >= 10 {
      ShortDigits(p / 10);
    }
  }

  lemma PadDigits(p: nat)
    requires p < 1000
    ensures var f := PadLeft(NatToString(p), 3, ' ');
      |f| == 3 && DropWhile(f, c => c == ' ') == NatToString(p)
  {
    var d := NatToString(p);
    ShortDigits(p);
    var f := PadLeft(d, 3, ' ');
    DropPadding(f, |f| - |d|, d);
  }

  lemma {:induction false} DropPadding(f: string, k: nat, d: string)
    requires k <= |f| && f[k..] == d && d != [] && d[0] != ' '
    requires forall i :: 0 <= i < k ==> f[i] == ' '
    ensures DropWhile(f, c => c == ' ') == d
    decreases k
  {
    if k > 0 {
      assert f[1..][k - 1..] == d;
      DropPadding(f[1..], k - 1, d);
    }
  }

  /** The bar after the percentage field: "% [", the symbols, the spaces
      and the closing bracket. */
  function BarPart(n: nat): (b: string)
    requires n <= BarLength - 2
    ensures |b| == BarLength + 2 && b[..3] == "% [" && b[|b| - 1] == ']'
  {
    "% " + "[" + Repeat('|', n) + Repeat(' ', BarLength - 2 - n) + "]"
  }

  lemma BarPartSymbols(n: nat)
    requires n <= BarLength - 2
    ensures |TakeUntil(BarPart(n)[3..], c => c != '|')| == n
  {
    var rest := Repeat(' ', BarLength - 2 - n) + "]";
    assert BarPart(n)[3..] == Repeat('|', n) + rest;
    TakeUntilOfClean(Repeat('|', n), rest, c => c != '|');
  }

  lemma SplitBar(percentage: nat)
    requires percentage < 1000
    ensures var f := PadLeft(NatToString(percentage), 3, ' ');
      |f| == 3 && GenerateProgressBar(percentage) == " " + f + BarPart(Symbols(percentage))
  {
    PadDigits(percentage);
  }

  /** The bar line of a percentage up to 100 is 61 characters long, its
      percentage reads back, its brackets close it and it shows
      Symbols(percentage) symbols. */
  lemma BarLayout(percentage: nat)
    requires percentage <= 100
    ensures var s := GenerateProgressBar(percentage);
      && |s| == 6 + BarLength
      && s[4..6] == "% " && s[6] == '[' && s[|s| - 1] == ']'
      && PercentageOfBar(s) == Some(percentage)
      && SymbolsOfBar(s) == Symbols(percentage)
  {
    var f := PadLeft(NatToString(percentage), 3, ' ');
    var b := BarPart(Symbols(percentage));
    SplitBar(percentage);
    LineOf(f, b);
    PadDigits(percentage);
    DigitsValueOfNatToString(percentage);
    BarPartSymbols(Symbols(percentage));
  }

  lemma LineOf(f: string, b: string)
    requires |f| == 3 && |b| == BarLength + 2 && b[..3] == "% [" && b[|b| - 1] == ']'
    ensures var s := " " + f + b;
      && |s| == 6 + BarLength
      && s[4..6] == "% " && s[6] == '[' && s[|s| - 1] == ']'
      && s[1..4] == f && s[7..] == b[3..]
  {
    var s := " " + f + b;
    assert s[4..6] == b[..3][..2];
  }

  /** More progress never shows fewer symbols; 0 % shows none and 100 %
      fills the bar. */
  lemma SymbolsMonotone(p: nat, q: nat)
    requires p <= q
    ensures Symbols(p) <= Symbols(q)
    ensures Symbols(0) == 0 && Symbols(100) == BarLength - 2
  {
    assert p * BarLength <= q * BarLength;
  }

  /** The new tick count of operator++: ticks + 1 in 32-bit unsigned
      arithmetic, capped at the total. */
  function NextTicks(ticks: nat, total: nat): (r: nat)
    requires ticks <= total < UIntLimit
    ensures r <= total
    ensures ticks + 1 < UIntLimit ==> r == if ticks < total then ticks + 1 else total
    ensures ticks + 1 == UIntLimit ==> r == 0
  {
    var next := (ticks + 1) % UIntLimit;
    if next < total then next else total
  }

  /** The tick count after k calls of operator++ on a fresh bar. */
  function TicksAfter(k: nat, total: nat): (r: nat)
    requires total < UIntLimit
    ensures r <= total
  {
    if k == 0 then 0 else NextTicks(TicksAfter(k - 1, total), total)
  }

  /** Ticks count up one at a time and then stay at the total, as long as
      the total is below the largest unsigned int. */
  lemma {:induction false} TicksSaturate(k: nat, total: nat)
    requires total < UIntLimit - 1
    ensures TicksAfter(k, total) == if k < total then k else total
  {
    if k > 0 {
      TicksSaturate(k - 1, total);
    }
  }

  /** With the largest unsigned int as total, the count that reached it wraps
      to 0 on the next tick. */
  lemma TicksWrap()
    ensures NextTicks(UIntLimit - 1, UIntLimit - 1) == 0
  {
  }

  lemma DivBounds(a: nat, b: nat)
    requires b > 0
    ensures (a / b) * b <= a < (a / b + 1) * b
  {
    assert a == (a / b) * b + a % b;
  }

  /** mNumberOfTicks * 100.0 / mTotalIterations, truncated. The double
      quotient lies within 2^-32 of the exact one only if it is an integer,
      so the truncation is the integer quotient. */
  function Percent(ticks: nat, total: nat): (p: nat)
    requires ticks <= total && total > 0
    ensures p * total <= ticks * 100 < (p + 1) * total
    ensures p <= 100
    ensures ticks == total ==> p == 100
  {
    var p := ticks * 100 / total;
    DivBounds(ticks * 100, total);
    PercentAtMost(p, ticks, total);
    p
  }

  lemma PercentAtMost(p: nat, ticks: nat, total: nat)
    requires ticks <= total && total > 0
    requires p * total <= ticks * 100 < (p + 1) * total
    ensures p <= 100
    ensures ticks == total ==> p == 100
  {
    ScaleLe(ticks, total, 100);
    assert p * total <= 100 * total;
    CancelLe(p, 100, total);
    if ticks == total {
      assert 100 * total < (p + 1) * total;
      CancelLt(100, p + 1, total);
    }
  }

  lemma PercentMonotone(a: nat, b: nat, total: nat)
    requires a <= b <= total && total > 0
    ensures Percent(a, total) <= Percent(b, total)
  {
    var pa, pb := Percent(a, total), Percent(b, total);
    ScaleLe(a, b, 100);
    assert pa * total < (pb + 1) * total;
    CancelLt(pa, pb + 1, total);
  }

  lemma ScaleLe(x: nat, y: nat, t: nat)
    requires x <= y
    ensures x * t <= y * t
  {
    assert y * t == x * t + (y - x) * t;
  }

  lemma CancelLe(x: nat, y: nat, t: nat)
    requires t > 0 && x * t <= y * t
    ensures x <= y
  {
    if x > y {
      ScaleLe(y + 1, x, t);
    }
  }

  lemma CancelLt(x: nat, y: nat, t: nat)
    requires x * t < y * t
    ensures x < y
  {
    if x >= y {
      ScaleLe(y, x, t);
    }
  }

  /** The percentage operator++ and printNewMessage show: ticks * 100.0 /
      total, truncated. With a total of 0 the quotient is NaN, whose
      conversion to unsigned int is undefined; the model shows 0 then. */
  function ShownPercentage(ticks: nat, total: nat): (p: nat)
    requires ticks <= total
    ensures p <= 100
    ensures total > 0 ==> p == Percent(ticks, total)
  {
    if total == 0 then 0 else Percent(ticks, total)
  }

  /** The bar line followed by a carriage return, so the next write
      overwrites it. */
  function BarOutput(percentage: nat): string
  {
    GenerateProgressBar(percentage) + "\r"
  }

  /** What the constructor writes: the initial message on its own line, then
      the bar at 0%. */
  function OpeningOutput(initialMessage: string): string
  {
    initialMessage + "\n" + BarOutput(0)
  }

  /** The width printNewMessage pads a message to with std::left. */
  const MessageWidth: nat := BarLength + 6

  /** What printNewMessage writes: back to the start of the line, the message
      left-aligned in MessageWidth columns on a line of its own, then the bar
      again. */
  function NewMessageOutput(message: string, percentage: nat): string
  {
    "\r" + PadRight(message, MessageWidth, ' ') + "\n" + BarOutput(percentage)
  }

  /** What updateLastPrintedMessage writes: back to the start of the line,
      up one line (ESC [F), the message left-aligned in the width of the last
      message, and a newline back to the bar's line. */
  function UpdateOutput(message: string, lastLength: nat): string
  {
    "\r" + "\U{1B}[F" + PadRight(message, lastLength, ' ') + "\n"
  }

  /** A new message covers the whole bar line it is written over: padded to
      MessageWidth, it is at least as long as every bar line. */
  lemma MessageCoversBar(message: string, percentage: nat)
    requires percentage <= 100
    ensures |PadRight(message, MessageWidth, ' ')| >= |GenerateProgressBar(percentage)|
  {
    BarLayout(percentage);
  }

  /** printNewMessage writes the message right after the carriage return. */
  lemma NewMessageFirst(message: string, percentage: nat)
    ensures NewMessageOutput(message, percentage)[1..1 + |message|] == message
  {
    var padded := PadRight(message, MessageWidth, ' ');
    var bar := BarOutput(percentage);
    Middle("\r", padded, "\n", bar, |message|);
  }

  /** A prefix of the second of four joined texts, read back at its offset. */
  lemma Middle(x: string, y: string, z: string, w: string, k: nat)
    requires k <= |y|
    ensures (x + y + z + w)[|x|..|x| + k] == y[..k]
  {
    assert (x + y + z + w)[..|x| + |y|] == x + y;
  }

  /** An update overwrites the whole previous message: it is padded to that
      message's length and keeps its own text first. */
  lemma UpdateCoversLast(message: string, lastLength: nat)
    ensures |UpdateOutput(message, lastLength)| >= 5 + lastLength
    ensures UpdateOutput(message, lastLength)[4..4 + |message|] == message
  {
    var padded := PadRight(message, lastLength, ' ');
    Middle("\r" + "\U{1B}[F", padded, "\n", "", |message|);
    assert UpdateOutput(message, lastLength) == "\r" + "\U{1B}[F" + padded + "\n" + "";
  }

  /** The ProgressBar object. */
  class ProgressBar {
    const total: nat
    var ticks: nat
    var ended: bool
    var lastMessageLength: nat
    /** Everything the bar has written to std::cout. */
    var console: string

    /** The counters fit their unsigned ints and the ticks never pass the
        total. */
    predicate Valid()
      reads this
    {
      total < UIntLimit && ticks <= total
    }

    /** No ticks yet, not ended, the initial message as the last one printed,
        and the message and the empty bar written. */
    constructor (expectedIterations: nat, initialMessage: string)
      requires expectedIterations < UIntLimit
      ensures Valid()
      ensures total == expectedIterations && ticks == 0 && !ended && lastMessageLength == |initialMessage|
      ensures console == OpeningOutput(initialMessage)
    {
      total := expectedIterations;
      ticks := 0;
      ended := false;
      lastMessageLength := |initialMessage|;
      console := OpeningOutput(initialMessage);
    }

    /** The percentage the bar shows. */
    function Percentage(): (p: nat)
      requires Valid()
      reads this
      ensures p <= 100
      ensures total > 0 ==> p == Percent(ticks, total)
    {
      ShownPercentage(ticks, total)
    }

    /** operator++: an error after the end, otherwise one more tick up to the
        total and the bar of the new percentage written. */
    method Tick() returns (r: Outcome<Exception>)
      requires Valid()
      modifies this
      ensures Valid()
      ensures old(ended) ==> r == Fail(RuntimeError(UseAfterEnd)) && unchanged(this)
      ensures !old(ended) ==>
        && r == Pass && ticks == NextTicks(old(ticks), total)
        && ended == old(ended) && lastMessageLength == old(lastMessageLength)
        && console == old(console) + BarOutput(Percentage())
    {
      if ended {
        return Fail(RuntimeError(UseAfterEnd));
      }
      ticks := NextTicks(ticks, total);
      console := console + BarOutput(ShownPercentage(ticks, total));
      r := Pass;
    }

    /** printNewMessage: an error after the end, otherwise the message is
        written above the bar and becomes the last one printed. */
    method PrintNewMessage(message: string) returns (r: Outcome<Exception>)
      requires Valid()
      modifies this
      ensures Valid()
      ensures old(ended) ==> r == Fail(RuntimeError(UseAfterEnd)) && unchanged(this)
      ensures !old(ended) ==>
        && r == Pass && lastMessageLength == |message| && ticks == old(ticks) && ended == old(ended)
        && console == old(console) + NewMessageOutput(message, Percentage())
    {
      if ended {
        return Fail(RuntimeError(UseAfterEnd));
      }
      console := console + NewMessageOutput(message, ShownPercentage(ticks, total));
      lastMessageLength := |message|;
      r := Pass;
    }

    /** updateLastPrintedMessage: an error after the end, otherwise the
        message overwrites the last one printed and takes its place. */
    method UpdateLastPrintedMessage(message: string) returns (r: Outcome<Exception>)
      requires Valid()
      modifies this
      ensures Valid()
      ensures old(ended) ==> r == Fail(RuntimeError(UseAfterEnd)) && unchanged(this)
      ensures !old(ended) ==>
        && r == Pass && lastMessageLength == |message| && ticks == old(ticks) && ended == old(ended)
        && console == old(console) + UpdateOutput(message, old(lastMessageLength))
    {
      if ended {
        return Fail(RuntimeError(UseAfterEnd));
      }
      console := console + UpdateOutput(message, lastMessageLength);
      lastMessageLength := |message|;
      r := Pass;
    }

    /** endProgressBar: ends the bar; only the first call writes the two
        newlines, so a second call changes nothing and writes nothing. */
    method EndProgressBar() returns (output: string)
      requires Valid()
      modifies this
      ensures Valid() && ended
      ensures output == if old(ended) then "" else "\n\n"
      ensures console == old(console) + output
      ensures old(ended) ==> unchanged(this)
      ensures ticks == old(ticks) && lastMessageLength == old(lastMessageLength)
    {
      if ended {
        return "";
      }
      output := "\n\n";
      console := console + output;
      ended := true;
    }
  }
}
