/** The three input validators of the pattern library
    (src/pattern_library.cpp:254-285). Each regular expression is stated as an
    explicit predicate; the fingerprint expression is recognised by a
    deterministic scanner that is proved to accept exactly the concatenations
    of well-formed groups. */
module Validators {
  import opened Wrappers
  import opened Text

  /** [1-9] */
  predicate IsCountDigit(c: char) { '1' <= c <= '9' }

  predicate NotCountDigit(c: char) { !IsCountDigit(c) }

  /** [A-Za-z0-9_-] */
  predicate IsKeyChar(c: char)
  {
    'A' <= c <= 'Z' || 'a' <= c <= 'z' || IsDigit(c) || c == '_' || c == '-'
  }

  /** [A-Fa-f0-9] */
  predicate IsHexDigit(c: char) { 'A' <= c <= 'F' || 'a' <= c <= 'f' || IsDigit(c) }

  /** ^[A-Za-z0-9_-]+$ */
  predicate IsValidKey(key: string)
  {
    key != [] && forall i :: 0 <= i < |key| ==> IsKeyChar(key[i])
  }

  /** ^[A-Fa-f0-9]{6}$ */
  predicate IsValidColorCode(color: string)
  {
    |color| == 6 && forall i :: 0 <= i < |color| ==> IsHexDigit(color[i])
  }

  /** One group "count(n,e,l)" of a fingerprint, as its four digit strings. */
  datatype Group = Group(count: string, n: string, e: string, l: string)

  function GroupText(g: Group): string
  {
    g.count + (['('] + (g.n + ([','] + (g.e + ([','] + (g.l + [')']))))))
  }

  /** The text of a sequence of groups, written one after the other. */
  function Render(gs: seq<Group>): string
  {
    if gs == [] then "" else GroupText(gs[0]) + Render(gs[1..])
  }

  /** Shipped is the expression in the source, whose count is [1-9]+ (no zero
      digit anywhere); Intended is [1-9][0-9]*, a decimal number without a
      leading zero, which is what a fingerprint's counts are. */
  datatype Grammar = Shipped | Intended

  function CountStop(grammar: Grammar): char -> bool
  {
    if grammar == Shipped then NotCountDigit else NotDigit
  }

  predicate WellFormed(grammar: Grammar, g: Group)
  {
    && g.count != [] && Clean(g.count, CountStop(grammar))
    && (grammar == Intended ==> g.count[0] != '0')
    && g.n != [] && Clean(g.n, NotDigit)
    && g.e != [] && Clean(g.e, NotDigit)
    && g.l != [] && Clean(g.l, NotDigit)
  }

  predicate AllWellFormed(grammar: Grammar, gs: seq<Group>)
  {
    forall k :: 0 <= k < |gs| ==> WellFormed(grammar, gs[k])
  }

  /** A non-empty run of characters outside stop, directly followed by term:
      returns the run and the text after term. */
  function Field(s: string, stop: char -> bool, term: char): (r: Option<(string, string)>)
    ensures r.Some? ==> r.value.0 != [] && |r.value.1| < |s|
  {
    var w := TakeUntil(s, stop);
    if w != [] && |w| < |s| && s[|w|] == term then Some((w, s[|w| + 1..])) else None
  }

  lemma FieldSound(s: string, stop: char -> bool, term: char)
    requires Field(s, stop, term).Some?
    ensures var (w, rest) := Field(s, stop, term).value;
      s == w + ([term] + rest) && w != [] && Clean(w, stop)
  {
    var w := TakeUntil(s, stop);
    assert s == s[..|w|] + ([s[|w|]] + s[|w| + 1..]);
  }

  lemma FieldOf(w: string, term: char, rest: string, stop: char -> bool)
    requires w != [] && Clean(w, stop) && stop(term)
    ensures Field(w + ([term] + rest), stop, term) == Some((w, rest))
  {
    var s := w + ([term] + rest);
    TakeUntilOfClean(w, [term] + rest, stop);
    assert s[|w| + 1..] == rest;
  }

  /** Reads one group at the front of s, and returns it with the text after it. */
  function ParseGroup(grammar: Grammar, s: string): (r: Option<(Group, string)>)
    ensures r.Some? ==> |r.value.1| < |s|
  {
    var f1 := Field(s, CountStop(grammar), '(');
    if f1.None? then None else
    var f2 := Field(f1.value.1, NotDigit, ',');
    if f2.None? then None else
    var f3 := Field(f2.value.1, NotDigit, ',');
    if f3.None? then None else
    var f4 := Field(f3.value.1, NotDigit, ')');
    if f4.None? then None else
    if grammar == Intended && f1.value.0[0] == '0' then None
    else Some((Group(f1.value.0, f2.value.0, f3.value.0, f4.value.0), f4.value.1))
  }

  /** Splits a whole fingerprint into groups; None when it does not match. */
  function ParseFingerprint(grammar: Grammar, s: string): (r: Option<seq<Group>>)
    decreases |s|
  {
    if s == [] then Some([])
    else
      var g := ParseGroup(grammar, s);
      if g.None? then None
      else
        var rest := ParseFingerprint(grammar, g.value.1);
        if rest.None? then None else Some([g.value.0] + rest.value)
  }

  /** is_valid_pattern: ^([1-9]+\([0-9]+,[0-9]+,[0-9]+\))*$ */
  predicate IsValidPattern(pattern: string)
  {
    ParseFingerprint(Shipped, pattern).Some?
  }

  /** The fingerprint check with the count written [1-9][0-9]*. */
  predicate IsValidPatternIntended(pattern: string)
  {
    ParseFingerprint(Intended, pattern).Some?
  }

  lemma SeqAssoc(a: string, b: string, c: string, d: string, e: string, f: string, g: string, h: string, rest: string)
    ensures (a + (b + (c + (d + (e + (f + (g + h))))))) + rest
         == a + (b + (c + (d + (e + (f + (g + (h + rest)))))))
  {
  }

  lemma ParseGroupSound(grammar: Grammar, s: string)
    requires ParseGroup(grammar, s).Some?
    ensures var (g, rest) := ParseGroup(grammar, s).value;
      WellFormed(grammar, g) && s == GroupText(g) + rest
  {
    var (w1, r1) := Field(s, CountStop(grammar), '(').value;
    FieldSound(s, CountStop(grammar), '(');
    var (w2, r2) := Field(r1, NotDigit, ',').value;
    FieldSound(r1, NotDigit, ',');
    var (w3, r3) := Field(r2, NotDigit, ',').value;
    FieldSound(r2, NotDigit, ',');
    var (w4, rest) := Field(r3, NotDigit, ')').value;
    FieldSound(r3, NotDigit, ')');
    assert ParseGroup(grammar, s).value == (Group(w1, w2, w3, w4), rest);
    assert s == w1 + (['('] + (w2 + ([','] + (w3 + ([','] + (w4 + ([')'] + rest)))))));
    SeqAssoc(w1, ['('], w2, [','], w3, [','], w4, [')'], rest);
  }

  lemma ParseGroupOf(grammar: Grammar, g: Group, rest: string)
    requires WellFormed(grammar, g)
    ensures ParseGroup(grammar, GroupText(g) + rest) == Some((g, rest))
  {
    var r3 := g.l + ([')'] + rest);
    var r2 := g.e + ([','] + r3);
    var r1 := g.n + ([','] + r2);
    var s := g.count + (['('] + r1);
    SeqAssoc(g.count, ['('], g.n, [','], g.e, [','], g.l, [')'], rest);
    FieldOf(g.count, '(', r1, CountStop(grammar));
    FieldOf(g.n, ',', r2, NotDigit);
    FieldOf(g.e, ',', r3, NotDigit);
    FieldOf(g.l, ')', rest, NotDigit);
  }

  /** Whatever the scanner accepts is a concatenation of well-formed groups. */
  lemma {:induction false} ParseFingerprintSound(grammar: Grammar, s: string)
    requires ParseFingerprint(grammar, s).Some?
    ensures AllWellFormed(grammar, ParseFingerprint(grammar, s).value)
    ensures Render(ParseFingerprint(grammar, s).value) == s
    decreases |s|
  {
    if s != [] {
      var g := ParseGroup(grammar, s).value;
      ParseGroupSound(grammar, s);
      ParseFingerprintSound(grammar, g.1);
      var gs := ParseFingerprint(grammar, s).value;
      assert gs[1..] == ParseFingerprint(grammar, g.1).value;
    }
  }

  /** Every concatenation of well-formed groups is accepted, and split back
      into the same groups. */
  lemma {:induction false} ParseFingerprintComplete(grammar: Grammar, gs: seq<Group>)
    requires AllWellFormed(grammar, gs)
    ensures ParseFingerprint(grammar, Render(gs)) == Some(gs)
    decreases |gs|
  {
    if gs != [] {
      var tail := gs[1..];
      assert gs == [gs[0]] + tail;
      assert forall k :: 0 <= k < |tail| ==> tail[k] == gs[k + 1];
      var rest := Render(tail);
      assert Render(gs) == GroupText(gs[0]) + rest;
      assert GroupText(gs[0]) != [];
      ParseGroupOf(grammar, gs[0], rest);
      ParseFingerprintComplete(grammar, tail);
    }
  }

  /** The two directions together: a fingerprint is valid exactly when it is
      the text of a sequence of well-formed groups. */
  lemma ValidPatternIff(grammar: Grammar, s: string, gs: seq<Group>)
    ensures (ParseFingerprint(grammar, s).Some? && ParseFingerprint(grammar, s).value == gs)
        <==> (AllWellFormed(grammar, gs) && Render(gs) == s)
  {
    if ParseFingerprint(grammar, s).Some? && ParseFingerprint(grammar, s).value == gs {
      ParseFingerprintSound(grammar, s);
    }
    if AllWellFormed(grammar, gs) && Render(gs) == s {
      ParseFingerprintComplete(grammar, gs);
    }
  }

  /** The shipped expression accepts nothing the intended one refuses: a
      count made of the digits 1-9 has no zero, so it has no leading zero. */
  lemma ShippedWithinIntended(s: string)
    requires IsValidPattern(s)
    ensures IsValidPatternIntended(s)
  {
    ParseFingerprintSound(Shipped, s);
    var gs := ParseFingerprint(Shipped, s).value;
    forall k | 0 <= k < |gs|
      ensures WellFormed(Intended, gs[k])
    {
      assert WellFormed(Shipped, gs[k]);
      assert forall i :: 0 <= i < |gs[k].count| ==> IsCountDigit(gs[k].count[i]);
    }
    ParseFingerprintComplete(Intended, gs);
  }

  /** The empty fingerprint (the unknown pattern's) and one group are accepted. */
  lemma SamplesAccepted()
    ensures IsValidPattern("")
    ensures IsValidPattern("12(4,2,1)")
  {
    var g := Group("12", "4", "2", "1");
    assert Render([g]) == "12(4,2,1)" by {
      assert Render([g]) == GroupText(g) + Render([]);
      assert Render([]) == "";
      assert GroupText(g) == "12(4,2,1)";
    }
    ParseFingerprintComplete(Shipped, [g]);
  }

  /** A text that does not start with a count digit 1-9 is rejected, also
      after a valid group. */
  lemma {:induction false} NoCountRejected(g: Group, rest: string)
    requires WellFormed(Shipped, g)
    requires rest != [] && !IsCountDigit(rest[0])
    ensures !IsValidPattern(rest)
    ensures !IsValidPattern(GroupText(g) + rest)
  {
    assert TakeUntil(rest, NotCountDigit) == [];
    GroupPrefix(Shipped, g, rest);
  }

  lemma SampleGroupText()
    ensures GroupText(Group("12", "1", "2", "0")) == "12(1,2,0)"
    ensures WellFormed(Shipped, Group("12", "1", "2", "0"))
  {
  }

  /** A well-formed group in front of a text does not change whether it is accepted. */
  lemma GroupPrefix(grammar: Grammar, g: Group, rest: string)
    requires WellFormed(grammar, g)
    ensures ParseFingerprint(grammar, GroupText(g) + rest).Some? == ParseFingerprint(grammar, rest).Some?
  {
    ParseGroupOf(grammar, g, rest);
  }

  /** Rejected: a word, and a zero count. */
  lemma SamplesRejectedAtStart()
    ensures !IsValidPattern("invalid")
    ensures !IsValidPattern("0(1,2,3)")
  {
    var g := Group("12", "1", "2", "0");
    SampleGroupText();
    NoCountRejected(g, "invalid");
    NoCountRejected(g, "0(1,2,3)");
  }

  /** A text that goes on after the group "12(1,2,0)" with anything but a
      count digit is rejected. */
  lemma RejectedAfterSampleGroup(s: string, rest: string)
    requires s == "12(1,2,0)" + rest && rest != [] && !IsCountDigit(rest[0])
    ensures !IsValidPattern(s)
  {
    var g := Group("12", "1", "2", "0");
    SampleGroupText();
    NoCountRejected(g, rest);
  }

  /** Rejected: a group without a count, and a trailing digit. */
  lemma SamplesRejectedAfterGroup()
    ensures !IsValidPattern("12(1,2,0)(1,2,0)")
    ensures !IsValidPattern("12(1,2,0)0")
  {
    RejectedAfterSampleGroup("12(1,2,0)(1,2,0)", "(1,2,0)");
    RejectedAfterSampleGroup("12(1,2,0)0", "0");
  }

  /** Rejected: a letter between two groups. */
  lemma SampleLetterBetweenGroups()
    ensures !IsValidPattern("12(1,2,0)a12(1,2,0)")
  {
    RejectedAfterSampleGroup("12(1,2,0)a12(1,2,0)", "a12(1,2,0)");
  }

  /** Rejected: a blank between two groups. */
  lemma SampleBlankBetweenGroups()
    ensures !IsValidPattern("12(1,2,0) 12(1,2,0)")
  {
    RejectedAfterSampleGroup("12(1,2,0) 12(1,2,0)", " 12(1,2,0)");
  }

  /** A count of ten, which a fingerprint of an atom with ten equivalent
      neighbourhoods contains, is rejected by the expression as shipped and
      accepted by the intended one. */
  lemma CountTenRejected()
    ensures !IsValidPattern("10(0,0,0)")
  {
    assert TakeUntil("0(0,0,0)", NotCountDigit) == [];
    assert TakeUntil("10(0,0,0)", NotCountDigit) == "1";
  }

  /** The same fingerprint is accepted by the intended expression. */
  lemma CountTenAcceptedIntended()
    ensures IsValidPatternIntended("10(0,0,0)")
  {
    var g := Group("10", "0", "0", "0");
    assert Render([g]) == "10(0,0,0)" by {
      assert Render([g]) == GroupText(g) + Render([]);
      assert Render([]) == "";
    }
    ParseFingerprintComplete(Intended, [g]);
  }

  /** A fingerprint of one well-formed group is accepted. */
  lemma SingleGroupAccepted(grammar: Grammar, g: Group, s: string)
    requires WellFormed(grammar, g) && s == GroupText(g)
    ensures ParseFingerprint(grammar, s) == Some([g])
  {
    var gs := [g];
    assert gs[1..] == [];
    assert Render(gs[1..]) == [];
    assert Render(gs) == GroupText(g) + [];
    assert Render(gs) == s;
    assert AllWellFormed(grammar, gs);
    ParseFingerprintComplete(grammar, gs);
  }

  /** The fingerprints of the library test, under both expressions: the
      two single groups are accepted, and a letter after a group is not. */
  lemma LibraryTestFingerprints()
    ensures IsValidPattern("12(4,2,1)") && IsValidPattern("12(4,2,2)")
    ensures !IsValidPattern("12(4,2,1)a")
    ensures IsValidPatternIntended("12(4,2,1)") && IsValidPatternIntended("12(4,2,2)")
    ensures !IsValidPatternIntended("12(4,2,1)a")
  {
    var g := Group("12", "4", "2", "1");
    assert GroupText(g) == "12(4,2,1)";
    SingleGroupAccepted(Shipped, g, "12(4,2,1)");
    SingleGroupAccepted(Intended, g, "12(4,2,1)");
    LetterAfterGroupRejected(Shipped, g);
    LetterAfterGroupRejected(Intended, g);
    EditedFingerprintAccepted(Shipped);
    EditedFingerprintAccepted(Intended);
  }

  lemma EditedFingerprintAccepted(grammar: Grammar)
    ensures ParseFingerprint(grammar, "12(4,2,2)").Some?
  {
    var h := Group("12", "4", "2", "2");
    assert GroupText(h) == "12(4,2,2)";
    SingleGroupAccepted(grammar, h, "12(4,2,2)");
  }

  /** A letter after a well-formed group is rejected. */
  lemma LetterAfterGroupRejected(grammar: Grammar, g: Group)
    requires WellFormed(grammar, g) && GroupText(g) == "12(4,2,1)"
    ensures ParseFingerprint(grammar, "12(4,2,1)a").None?
  {
    LetterRejected(grammar);
    assert GroupText(g) + "a" == "12(4,2,1)a";
    GroupPrefix(grammar, g, "a");
  }

  /** A fingerprint that starts with a letter is rejected. */
  lemma LetterRejected(grammar: Grammar)
    ensures ParseFingerprint(grammar, "a").None?
  {
    assert TakeUntil("a", CountStop(grammar)) == [];
  }

  lemma KeyAndColorExamples()
    ensures IsValidKey("fcc_bulk") && IsValidKey("unknown") && IsValidKey("valid_key")
    ensures !IsValidKey("invalid key") && !IsValidKey("")
    ensures IsValidColorCode("0b3d05") && IsValidColorCode("0b3d08") && IsValidColorCode("000000")
    ensures !IsValidColorCode("40b3d05") && !IsValidColorCode("0b305")
  {
    assert !IsKeyChar("invalid key"[7]);
  }
}
