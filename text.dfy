/** Character-level helpers shared by the model: decimal formatting, padding,
    trimming, splitting, joining and integer parsing. Each formatting function
    comes with the parser or the lemma that inverts it. */
module Text {
  import opened Wrappers

  predicate IsDigit(c: char) { '0' <= c <= '9' }

  predicate AllDigits(s: string) { forall i :: 0 <= i < |s| ==> IsDigit(s[i]) }

  function DigitChar(d: nat): (c: char)
    requires d < 10
    ensures IsDigit(c)
  {
    (48 + d) as char
  }

  function DigitValue(c: char): (d: nat)
    requires IsDigit(c)
    ensures d < 10 && DigitChar(d) == c
  {
    c as int - 48
  }

  /** Decimal representation without sign or leading zeros, as written by
      operator<< and by boost::format's "%i" for a non-negative integer. */
  function NatToString(n: nat): (s: string)
    ensures |s| >= 1 && AllDigits(s)
    ensures (s[0] == '0') == (n == 0)
    decreases n
  {
    if n < 10 then [DigitChar(n)] else NatToString(n / 10) + [DigitChar(n % 10)]
  }

  /** The value of a string of decimal digits (the inverse of NatToString). */
  function DigitsValue(s: string): nat
    requires AllDigits(s)
  {
    if s == [] then 0 else 10 * DigitsValue(s[..|s| - 1]) + DigitValue(s[|s| - 1])
  }

  lemma {:induction false} DigitsValueOfNatToString(n: nat)
    ensures DigitsValue(NatToString(n)) == n
    decreases n
  {
    if n >= 10 {
      var s := NatToString(n);
      assert s[..|s| - 1] == NatToString(n / 10);
      DigitsValueOfNatToString(n / 10);
    }
  }

  /** Different numbers are printed differently. */
  lemma NatToStringInjective(a: nat, b: nat)
    ensures NatToString(a) == NatToString(b) ==> a == b
  {
    DigitsValueOfNatToString(a);
    DigitsValueOfNatToString(b);
  }

  function Repeat(c: char, n: nat): (s: string)
    ensures |s| == n && forall i :: 0 <= i < n ==> s[i] == c
  {
    seq(n, _ => c)
  }

  /** std::setw(width) with std::right: fills on the left, never truncates. */
  function PadLeft(s: string, width: nat, fill: char): (r: string)
    ensures |r| == if |s| >= width then |s| else width
    ensures r[|r| - |s|..] == s
    ensures forall i :: 0 <= i < |r| - |s| ==> r[i] == fill
  {
    if |s| >= width then s else Repeat(fill, width - |s|) + s
  }

  /** std::setw(width) with std::left: fills on the right, never truncates. */
  function PadRight(s: string, width: nat, fill: char): (r: string)
    ensures |r| == if |s| >= width then |s| else width
    ensures r[..|s|] == s
    ensures forall i :: |s| <= i < |r| ==> r[i] == fill
  {
    if |s| >= width then s else s + Repeat(fill, width - |s|)
  }

  /** isspace in the "C" locale: used by boost's trim, trim_all and the regex class \s. */
  predicate IsCSpace(c: char) { c == ' ' || '\t' <= c <= '\r' }

  /** The characters Python's str.split() without argument separates on. */
  predicate IsPySpace(c: char)
  {
    var k := c as int;
    k == 32 || 9 <= k <= 13 || 28 <= k <= 31 || k == 0x85 || k == 0xA0 || k == 0x1680
    || 0x2000 <= k <= 0x200A || k == 0x2028 || k == 0x2029 || k == 0x202F || k == 0x205F
    || k == 0x3000
  }

  /** Drops the longest prefix whose characters all satisfy p. */
  function DropWhile(s: string, p: char -> bool): (r: string)
    ensures |r| <= |s| && r == s[|s| - |r|..]
    ensures r != [] ==> !p(r[0])
    ensures forall i :: 0 <= i < |s| - |r| ==> p(s[i])
  {
    if s != [] && p(s[0]) then DropWhile(s[1..], p) else s
  }

  /** No character of w satisfies sep. */
  predicate Clean(w: string, sep: char -> bool)
  {
    forall i :: 0 <= i < |w| ==> !sep(w[i])
  }

  /** The longest prefix that contains no character satisfying p. */
  function TakeUntil(s: string, p: char -> bool): (r: string)
    ensures |r| <= |s| && r == s[..|r|]
    ensures Clean(r, p)
    ensures |r| < |s| ==> p(s[|r|])
  {
    if s != [] && !p(s[0]) then [s[0]] + TakeUntil(s[1..], p) else []
  }

  /** Drops the longest suffix whose characters all satisfy p. */
  function DropWhileRight(s: string, p: char -> bool): (r: string)
    ensures |r| <= |s| && r == s[..|r|]
    ensures r != [] ==> !p(r[|r| - 1])
    ensures forall i :: |r| <= i < |s| ==> p(s[i])
  {
    if s != [] && p(s[|s| - 1]) then DropWhileRight(s[..|s| - 1], p) else s
  }

  /** boost::algorithm::trim: removes leading and trailing whitespace. */
  function Trim(s: string): (r: string)
    ensures r == [] || (!IsCSpace(r[0]) && !IsCSpace(r[|r| - 1]))
  {
    DropWhileRight(DropWhile(s, IsCSpace), IsCSpace)
  }

  /** Replaces every run of whitespace by its first character. */
  function CompressRuns(s: string): string
    decreases |s|
  {
    if s == [] then []
    else if IsCSpace(s[0]) then [s[0]] + CompressRuns(DropWhile(s[1..], IsCSpace))
    else [s[0]] + CompressRuns(s[1..])
  }

  /** boost::algorithm::trim_all: trims both ends and replaces every inner run of
      whitespace by the run's first character. */
  function TrimAll(s: string): string
  {
    CompressRuns(Trim(s))
  }

  /** std::replace(begin, end, from, to) on a whole string. */
  function ReplaceChar(s: string, from: char, to: char): (r: string)
    ensures |r| == |s|
    ensures forall i :: 0 <= i < |s| ==> r[i] == if s[i] == from then to else s[i]
  {
    seq(|s|, i requires 0 <= i < |s| => if s[i] == from then to else s[i])
  }

  /** Maximal runs of characters outside sep. This is Python's str.split() when
      sep is IsPySpace, and boost::split with token_compress_on on a non-empty
      string that has no separator at either end. */
  function Words(s: string, sep: char -> bool): (ws: seq<string>)
    decreases |s|
  {
    var t := DropWhile(s, sep);
    if t == [] then []
    else
      var w := TakeUntil(t, sep);
      [w] + Words(t[|w|..], sep)
  }

  /** Every word is non-empty and holds no separator. */
  lemma {:induction false} WordsClean(s: string, sep: char -> bool)
    ensures forall k :: 0 <= k < |Words(s, sep)| ==> Words(s, sep)[k] != [] && Clean(Words(s, sep)[k], sep)
    decreases |s|
  {
    var t := DropWhile(s, sep);
    if t != [] {
      var w := TakeUntil(t, sep);
      var rest := Words(t[|w|..], sep);
      WordsClean(t[|w|..], sep);
      var ws := Words(s, sep);
      assert ws == [w] + rest;
      assert w != [] by { assert !sep(t[0]); }
      forall k | 0 <= k < |ws|
        ensures ws[k] != [] && Clean(ws[k], sep)
      {
        if k == 0 {
          assert ws[0] == w;
        } else {
          assert ws[k] == rest[k - 1];
        }
      }
    }
  }

  /** Concatenation with glue between consecutive pieces (Python's str.join). */
  function Join(ws: seq<string>, glue: string): string
  {
    if ws == [] then "" else if |ws| == 1 then ws[0] else ws[0] + glue + Join(ws[1..], glue)
  }

  /** boost::split without token compression on one separator character: every
      separator ends a piece, so empty pieces are kept. */
  function SplitOn(s: string, c: char): (pieces: seq<string>)
    ensures |pieces| >= 1
    ensures forall k, i :: 0 <= k < |pieces| && 0 <= i < |pieces[k]| ==> pieces[k][i] != c
    decreases |s|
  {
    var w := TakeUntil(s, Is(c));
    if |w| == |s| then [s] else [w] + SplitOn(s[|w| + 1..], c)
  }

  /** The test for one separator character. */
  function Is(c: char): char -> bool
  {
    x => x == c
  }

  lemma {:induction false} JoinSplitOn(s: string, c: char)
    ensures Join(SplitOn(s, c), [c]) == s
    decreases |s|
  {
    var w := TakeUntil(s, Is(c));
    if |w| < |s| {
      var rest := s[|w| + 1..];
      var tail := SplitOn(rest, c);
      assert SplitOn(s, c) == [w] + tail;
      JoinSplitOn(rest, c);
      assert ([w] + tail)[1..] == tail;
      assert Join([w] + tail, [c]) == w + [c] + Join(tail, [c]);
      assert s == w + [c] + rest;
    }
  }

  lemma {:induction false} TakeUntilOfClean(w: string, rest: string, p: char -> bool)
    requires Clean(w, p)
    requires rest == [] || p(rest[0])
    ensures TakeUntil(w + rest, p) == w
    decreases |w|
  {
    if w != [] {
      assert (w + rest)[1..] == w[1..] + rest;
      TakeUntilOfClean(w[1..], rest, p);
    }
  }

  lemma WordsSkipSeparator(c: char, j: string, sep: char -> bool)
    requires sep(c)
    ensures Words([c] + j, sep) == Words(j, sep)
  {
    assert ([c] + j)[1..] == j;
  }

  lemma WordsCons(w: string, rest: string, sep: char -> bool)
    requires w != [] && Clean(w, sep)
    requires rest == [] || sep(rest[0])
    ensures Words(w + rest, sep) == [w] + Words(rest, sep)
  {
    var s := w + rest;
    assert DropWhile(s, sep) == s;
    TakeUntilOfClean(w, rest, sep);
    assert s[|w|..] == rest;
  }

  /** Splitting what was joined with a separator gives back the pieces. */
  lemma {:induction false} WordsOfJoin(ws: seq<string>, c: char, sep: char -> bool)
    requires sep(c)
    requires forall k :: 0 <= k < |ws| ==> ws[k] != [] && Clean(ws[k], sep)
    ensures Words(Join(ws, [c]), sep) == ws
    decreases |ws|
  {
    if ws == [] {
      WordsEmpty(sep);
    } else if |ws| == 1 {
      WordsSingle(ws[0], sep);
      assert [ws[0]] == ws;
    } else {
      var tail := ws[1..];
      assert ws == [ws[0]] + tail;
      assert forall k :: 0 <= k < |tail| ==> tail[k] == ws[k + 1];
      var j := Join(tail, [c]);
      JoinCons(ws, c);
      WordsCons(ws[0], [c] + j, sep);
      WordsSkipSeparator(c, j, sep);
      WordsOfJoin(tail, c, sep);
    }
  }

  lemma {:induction false} WordsSingle(w: string, sep: char -> bool)
    requires w != [] && Clean(w, sep)
    ensures Words(w, sep) == [w]
  {
    var e: string := [];
    WordsEmpty(sep);
    WordsCons(w, e, sep);
    assert w + e == w;
  }

  lemma WordsEmpty(sep: char -> bool)
    ensures Words([], sep) == []
  {
  }

  lemma JoinCons(ws: seq<string>, c: char)
    requires |ws| >= 2
    ensures Join(ws, [c]) == ws[0] + ([c] + Join(ws[1..], [c]))
  {
  }

  predicate NotDigit(c: char) { !IsDigit(c) }

  /** std::stoi: skips leading whitespace, reads an optional sign and the longest
      run of digits after it; invalid_argument when there is no digit,
      out_of_range when the value does not fit a 32-bit int. */
  function Stoi(s: string): (r: Result<int, Exception>)
    ensures r.Ok? ==> -0x8000_0000 <= r.value < 0x8000_0000
  {
    var t := DropWhile(s, IsCSpace);
    var signed := t != [] && (t[0] == '-' || t[0] == '+');
    var u := if signed then t[1..] else t;
    var d := TakeUntil(u, NotDigit);
    var v: int := if signed && t[0] == '-' then -(DigitsValue(d) as int) else DigitsValue(d);
    if d == [] then Err(InvalidArgument)
    else if v < -0x8000_0000 || v >= 0x8000_0000 then Err(OutOfRange)
    else Ok(v)
  }

  lemma StoiOfNatToString(n: nat)
    requires n < 0x8000_0000
    ensures Stoi(NatToString(n)) == Ok(n)
  {
    var s := NatToString(n);
    assert IsDigit(s[0]);
    assert DropWhile(s, IsCSpace) == s;
    assert Clean(s, NotDigit);
    TakeUntilOfClean(s, [], NotDigit);
    assert s + [] == s;
    assert TakeUntil(s, NotDigit) == s;
    DigitsValueOfNatToString(n);
  }

  /** Python's int() on a token that holds no whitespace: an optional sign, then
      one or more ASCII digits. */
  function PyInt(tok: string): (r: Option<int>)
  {
    if tok != [] && (tok[0] == '-' || tok[0] == '+') then
      if |tok| > 1 && AllDigits(tok[1..]) then
        var v: int := if tok[0] == '-' then -(DigitsValue(tok[1..]) as int) else DigitsValue(tok[1..]);
        Some(v)
      else None
    else if tok != [] && AllDigits(tok) then Some(DigitsValue(tok))
    else None
  }

  lemma PyIntOfNatToString(n: nat)
    ensures PyInt(NatToString(n)) == Some(n)
    ensures PyInt("-" + NatToString(n)) == Some(0 - n)
  {
    DigitsValueOfNatToString(n);
    assert ("-" + NatToString(n))[1..] == NatToString(n);
  }

  /** std::string's operator<: lexicographic order on characters, a proper
      prefix before the longer string. */
  predicate Less(a: string, b: string)
    decreases |a|
  {
    b != [] && (a == [] || a[0] < b[0] || (a[0] == b[0] && Less(a[1..], b[1..])))
  }

  lemma {:induction false} LessIrreflexive(a: string)
    ensures !Less(a, a)
    decreases |a|
  {
    if a != [] { LessIrreflexive(a[1..]); }
  }

  lemma {:induction false} LessTransitive(a: string, b: string, c: string)
    requires Less(a, b) && Less(b, c)
    ensures Less(a, c)
    decreases |a|
  {
    if a != [] && a[0] == b[0] && b[0] == c[0] {
      LessTransitive(a[1..], b[1..], c[1..]);
    }
  }

  lemma {:induction false} LessTotal(a: string, b: string)
    ensures a == b || Less(a, b) || Less(b, a)
    decreases |a|
  {
    if a != [] && b != [] && a[0] == b[0] {
      LessTotal(a[1..], b[1..]);
      if a[1..] == b[1..] {
        assert a == [a[0]] + a[1..] && b == [b[0]] + b[1..];
      }
    }
  }
}
