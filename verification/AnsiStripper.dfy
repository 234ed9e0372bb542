/** Removing ANSI colour sequences from terminal output that arrives in pieces. */
module AnsiStripper {
  import opened Wrappers

  const ESC: char := 27 as char

  datatype Stripped = Stripped(pure: string, residual: string)
  {
    /** Something handed out before. */
    function Behind(earlier: string): Stripped {
      Stripped(earlier + pure, residual)
    }
  }

  /** What to do at a position of the text: hand out or drop everything up to another position, or
      wait for more text. */
  datatype Token = Emit(to: nat) | Drop(to: nat) | Hold

  /** How far into a sequence the scanner is: `more` tells that a second number may follow. */
  datatype Progress = Start | Escape | Number(value: nat, more: bool)

  predicate IsDigit(c: char) {
    '0' <= c <= '9'
  }

  function DigitValue(c: char): nat
    requires IsDigit(c)
  {
    (c - '0') as nat
  }

  /** The scanner as an automaton over single characters; numbers stop once they exceed 108. */
  function Scan(t: string, j: nat, at: Progress): (token: Token)
    requires j <= |t| && (at == Escape ==> j > 0)
    ensures !token.Hold? ==> j <= token.to <= |t| && (at != Escape ==> j < token.to)
    decreases |t| - j
  {
    if j == |t| then Hold
    else
      match at
      case Start => if t[j] == ESC then Scan(t, j + 1, Escape) else Emit(j + 1)
      case Escape => if t[j] == '[' then Scan(t, j + 1, Number(0, true)) else Emit(j)
      case Number(value, more) =>
        if IsDigit(t[j]) && value <= 108 then Scan(t, j + 1, Number(value * 10 + DigitValue(t[j]), more))
        else if t[j] == 'm' then Drop(j + 1)
        else if t[j] == ';' && more then Scan(t, j + 1, Number(0, false))
        else Emit(j + 1)
  }

  /** What a round hands out, given what the later rounds make of the rest. */
  function Round(t: string, i: nat, token: Token, later: Stripped): Stripped
    requires i <= |t| && (!token.Hold? ==> i <= token.to <= |t|)
  {
    match token
    case Hold => Stripped([], t[i..])
    case Drop(_) => later
    case Emit(to) => Stripped(t[i..to] + later.pure, later.residual)
  }

  function StripFrom(t: string, i: nat): Stripped
    requires i <= |t|
    decreases |t| - i
  {
    if i == |t| then Stripped([], [])
    else
      var token := Scan(t, i, Start);
      Round(t, i, token, if token.Hold? then Stripped([], []) else StripFrom(t, token.to))
  }

  /** remove_ANSI_escape_code: the text without colour sequences, and an unfinished one at its end. */
  function Strip(t: string): Stripped {
    StripFrom(t, 0)
  }

  // ----- Position does not matter

  function Shifted(token: Token, n: nat): Token {
    match token
    case Hold => Hold
    case Drop(to) => Drop(n + to)
    case Emit(to) => Emit(n + to)
  }

  lemma {:induction false} ScanShift(s: string, t: string, j: nat, at: Progress)
    requires j <= |t| && (at == Escape ==> j > 0)
    ensures Scan(s + t, |s| + j, at) == Shifted(Scan(t, j, at), |s|)
    decreases |t| - j
  {
    if j < |t| {
      assert (s + t)[|s| + j] == t[j] && |s + t| == |s| + |t|;
      match at
      case Start => if t[j] == ESC { ScanShift(s, t, j + 1, Escape); }
      case Escape => if t[j] == '[' { ScanShift(s, t, j + 1, Number(0, true)); }
      case Number(value, more) =>
        if IsDigit(t[j]) && value <= 108 {
          ScanShift(s, t, j + 1, Number(value * 10 + DigitValue(t[j]), more));
        } else if t[j] == ';' && more {
          ScanShift(s, t, j + 1, Number(0, false));
        }
    }
  }

  lemma RoundShift(s: string, t: string, i: nat, token: Token, later: Stripped)
    requires i <= |t| && (!token.Hold? ==> i <= token.to <= |t|)
    ensures Round(s + t, |s| + i, Shifted(token, |s|), later) == Round(t, i, token, later)
  {}

  lemma {:induction false} StripShift(s: string, t: string, i: nat)
    requires i <= |t|
    ensures StripFrom(s + t, |s| + i) == StripFrom(t, i)
    decreases |t| - i
  {
    if i < |t| {
      var token := Scan(t, i, Start);
      ScanShift(s, t, i, Start);
      if token.Hold? {
        RoundShift(s, t, i, token, Stripped([], []));
      } else {
        StripShift(s, t, token.to);
        RoundShift(s, t, i, token, StripFrom(t, token.to));
      }
    }
  }

  /** Text without escape characters passes unchanged. */
  lemma {:induction false} PlainTextPasses(t: string, i: nat)
    requires i <= |t| && ESC !in t
    ensures StripFrom(t, i) == Stripped(t[i..], "")
    decreases |t| - i
  {
    if i < |t| {
      PlainTextPasses(t, i + 1);
      assert t[i..] == t[i..i + 1] + t[i + 1..];
    }
  }

  // ----- What counts as a colour sequence

  /** A number the scanner takes in completely: nothing follows its first value above 108. */
  predicate IsNumber(s: string, value: nat) {
    s == [] || (IsDigit(s[0]) && value <= 108 && IsNumber(s[1..], value * 10 + DigitValue(s[0])))
  }

  /** A digit may follow 108 but not 109. */
  lemma NumberLimit()
    ensures IsNumber("1080", 0) && IsNumber("109", 0) && !IsNumber("1090", 0)
  {
    assert "1080"[1..] == "080" && "080"[1..] == "80" && "80"[1..] == "0" && "0"[1..] == "";
    assert "109"[1..] == "09" && "09"[1..] == "9" && "9"[1..] == "";
    assert "1090"[1..] == "090" && "090"[1..] == "90" && "90"[1..] == "0";
  }

  /** A number is skipped up to the character after it. */
  lemma {:induction false} SkipNumber(t: string, j: nat, number: string, value: nat, more: bool)
    requires IsNumber(number, value) && j + |number| < |t| && t[j..j + |number|] == number
    requires !IsDigit(t[j + |number|])
    ensures Scan(t, j, Number(value, more)) == AfterNumber(t, j + |number|, more)
    decreases |number|
  {
    if number != [] {
      assert t[j] == number[0] && t[j + 1..j + |number|] == number[1..];
      SkipNumber(t, j + 1, number[1..], value * 10 + DigitValue(t[j]), more);
    }
  }

  /** The decision at the character after a number. */
  function AfterNumber(t: string, j: nat, more: bool): Token
    requires j <= |t|
  {
    if j == |t| then Hold
    else if t[j] == 'm' then Drop(j + 1)
    else if t[j] == ';' && more then Scan(t, j + 1, Number(0, false))
    else Emit(j + 1)
  }

  /** A sequence that is dropped at the front of a text leaves what follows it. */
  lemma DroppedFront(head: string, rest: string)
    requires head != [] && Scan(head + rest, 0, Start) == Drop(|head|)
    ensures Strip(head + rest) == Strip(rest)
  {
    StripShift(head, rest, 0);
  }

  /** `ESC [ number m` vanishes. */
  lemma ShortSequenceVanishes(p: string, rest: string)
    requires IsNumber(p, 0)
    ensures Strip([ESC, '['] + p + "m" + rest) == Strip(rest)
  {
    var head := [ESC, '['] + p + "m";
    var t := head + rest;
    assert t[2..2 + |p|] == p && t[2 + |p|] == 'm';
    SkipNumber(t, 2, p, 0, true);
    OpensSequence(t);
    DroppedFront(head, rest);
  }

  /** So does `ESC [ number ; number m`. */
  lemma LongSequenceVanishes(p: string, q: string, rest: string)
    requires IsNumber(p, 0) && IsNumber(q, 0)
    ensures Strip([ESC, '['] + p + ";" + q + "m" + rest) == Strip(rest)
  {
    var head := [ESC, '['] + p + ";" + q + "m";
    var t := head + rest;
    assert t[2..2 + |p|] == p && t[2 + |p|] == ';';
    SkipNumber(t, 2, p, 0, true);
    assert t[3 + |p|..3 + |p| + |q|] == q && t[3 + |p| + |q|] == 'm';
    SkipNumber(t, 3 + |p|, q, 0, false);
    OpensSequence(t);
    DroppedFront(head, rest);
  }

  lemma OpensSequence(t: string)
    requires |t| > 2 && t[0] == ESC && t[1] == '['
    ensures Scan(t, 0, Start) == Scan(t, 2, Number(0, true))
  {}

  /** Where a number that leads to a drop comes to its end. */
  lemma {:induction false} NumberEnds(t: string, j: nat, value: nat, more: bool) returns (number: string)
    requires j <= |t| && Scan(t, j, Number(value, more)).Drop?
    ensures IsNumber(number, value) && j + |number| < |t| && t[j..j + |number|] == number
    ensures var end := j + |number|;
      if t[end] == ';' then more && Scan(t, j, Number(value, more)) == Scan(t, end + 1, Number(0, false))
      else t[end] == 'm' && Scan(t, j, Number(value, more)) == Drop(end + 1)
    decreases |t| - j
  {
    if IsDigit(t[j]) && value <= 108 {
      var rest := NumberEnds(t, j + 1, value * 10 + DigitValue(t[j]), more);
      number := [t[j]] + rest;
      assert number[1..] == rest;
      assert t[j..j + |number|] == [t[j]] + t[j + 1..j + 1 + |rest|];
    } else {
      number := "";
    }
  }

  /** `ESC [ number m` or `ESC [ number ; number m`. */
  function Sequence(p: string, q: Option<string>): string {
    match q
    case None => [ESC, '['] + p + "m"
    case Some(second) => [ESC, '['] + p + ";" + second + "m"
  }

  lemma DropOpens(t: string, i: nat)
    requires i < |t| && Scan(t, i, Start).Drop?
    ensures i + 2 <= |t| && t[i] == ESC && t[i + 1] == '['
    ensures Scan(t, i, Start) == Scan(t, i + 2, Number(0, true))
  {
    assert Scan(t, i, Start) == Scan(t, i + 1, Escape);
  }

  /** Nothing but such sequences is dropped. */
  lemma DropsOnlySequences(t: string, i: nat) returns (p: string, q: Option<string>)
    requires i < |t| && Scan(t, i, Start).Drop?
    ensures IsNumber(p, 0) && (q.Some? ==> IsNumber(q.value, 0))
    ensures t[i..Scan(t, i, Start).to] == Sequence(p, q)
  {
    DropOpens(t, i);
    p := NumberEnds(t, i + 2, 0, true);
    q := None;
    var k := i + 2 + |p|;
    if t[k] == ';' {
      var second := NumberEnds(t, k + 1, 0, false);
      q := Some(second);
      LongSpan(t, i, p, second);
    } else {
      ShortSpan(t, i, p);
    }
  }

  lemma ShortSpan(t: string, i: nat, p: string)
    requires i + 2 + |p| < |t| && t[i] == ESC && t[i + 1] == '[' && t[i + 2..i + 2 + |p|] == p && t[i + 2 + |p|] == 'm'
    ensures t[i..i + 3 + |p|] == Sequence(p, None)
  {}

  lemma LongSpan(t: string, i: nat, p: string, q: string)
    requires i + 3 + |p| + |q| < |t| && t[i] == ESC && t[i + 1] == '[' && t[i + 2..i + 2 + |p|] == p
    requires t[i + 2 + |p|] == ';' && t[i + 3 + |p|..i + 3 + |p| + |q|] == q && t[i + 3 + |p| + |q|] == 'm'
    ensures t[i..i + 4 + |p| + |q|] == Sequence(p, Some(q))
  {
    var k, end := i + 2 + |p|, i + 4 + |p| + |q|;
    assert t[i..k + 1] == [ESC, '['] + p + ";";
    assert t[k + 1..end] == q + "m";
    assert t[i..end] == t[i..k + 1] + t[k + 1..end];
    assert [ESC, '['] + p + ";" + (q + "m") == Sequence(p, Some(q));
  }

  // ----- What is not dropped

  /** A number comes to its end at `c`, which is no digit or is one too many, and is no terminator. */
  ghost predicate Spoils(number: string, c: char) {
    IsNumber(number, 0) && !IsNumber(number + [c], 0) && c != 'm'
  }

  lemma DigitIsNumber(c: char, value: nat)
    ensures IsNumber([c], value) <==> IsDigit(c) && value <= 108
  {
    assert [c][1..] == [];
  }

  /** The scanner is at the end of the text or at `c` when a number has been read. */
  lemma {:induction false} ReadNumber(t: string, j: nat, number: string, value: nat, more: bool)
    requires IsNumber(number, value) && j + |number| <= |t| && t[j..j + |number|] == number
    requires j + |number| < |t| ==> !IsNumber(number + [t[j + |number|]], value)
    ensures Scan(t, j, Number(value, more)) == AfterNumber(t, j + |number|, more)
    decreases |number|
  {
    if number == [] {
      if j < |t| {
        DigitIsNumber(t[j], value);
        assert number + [t[j]] == [t[j]];
      }
    } else {
      assert t[j] == number[0] && t[j + 1..j + |number|] == number[1..];
      if j + |number| < |t| {
        var c := t[j + |number|];
        assert (number + [c])[1..] == number[1..] + [c];
      }
      ReadNumber(t, j + 1, number[1..], value * 10 + DigitValue(t[j]), more);
    }
  }

  /** What is handed out at the front of a text comes before what the rest gives. */
  lemma EmittedFront(head: string, rest: string)
    requires head != [] && Scan(head + rest, 0, Start) == Emit(|head|)
    ensures Strip(head + rest) == Stripped(head + Strip(rest).pure, Strip(rest).residual)
  {
    StripShift(head, rest, 0);
    assert (head + rest)[0..|head|] == head;
  }

  /** An ordinary character passes. */
  lemma CharacterPasses(c: char, rest: string)
    requires c != ESC
    ensures Strip([c] + rest) == Stripped([c] + Strip(rest).pure, Strip(rest).residual)
  {
    EmittedFront([c], rest);
  }

  /** So does an escape character that opens nothing. */
  lemma LoneEscapePasses(c: char, rest: string)
    requires c != '['
    ensures var later := Strip([c] + rest);
      Strip([ESC, c] + rest) == Stripped([ESC] + later.pure, later.residual)
  {
    var t := [ESC] + ([c] + rest);
    assert [ESC, c] + rest == t;
    assert Scan(t, 0, Start) == Scan(t, 1, Escape) == Emit(1);
    EmittedFront([ESC], [c] + rest);
  }

  /** A sequence that goes wrong passes, together with the character at which it does. */
  lemma SpoiltSequencePasses(p: string, c: char, rest: string)
    requires Spoils(p, c) && c != ';'
    ensures var head := [ESC, '['] + p + [c];
      Strip(head + rest) == Stripped(head + Strip(rest).pure, Strip(rest).residual)
  {
    var head := [ESC, '['] + p + [c];
    var t := head + rest;
    assert t[2..2 + |p|] == p && t[2 + |p|] == c;
    ReadNumber(t, 2, p, 0, true);
    OpensSequence(t);
    EmittedFront(head, rest);
  }

  lemma SpoiltSecondPasses(p: string, q: string, c: char, rest: string)
    requires IsNumber(p, 0) && Spoils(q, c)
    ensures var head := [ESC, '['] + p + ";" + q + [c];
      Strip(head + rest) == Stripped(head + Strip(rest).pure, Strip(rest).residual)
  {
    var head := [ESC, '['] + p + ";" + q + [c];
    var t := head + rest;
    assert t[2..2 + |p|] == p && t[2 + |p|] == ';';
    assert !IsNumber(p + [';'], 0) by { NotDigitEnds(p, ';', 0); }
    ReadNumber(t, 2, p, 0, true);
    assert t[3 + |p|..3 + |p| + |q|] == q && t[3 + |p| + |q|] == c;
    ReadNumber(t, 3 + |p|, q, 0, false);
    OpensSequence(t);
    EmittedFront(head, rest);
  }

  lemma {:induction false} NotDigitEnds(number: string, c: char, value: nat)
    requires IsNumber(number, value) && !IsDigit(c)
    ensures !IsNumber(number + [c], value)
  {
    if number != [] {
      assert (number + [c])[1..] == number[1..] + [c];
      NotDigitEnds(number[1..], c, value * 10 + DigitValue(number[0]));
    }
  }

  /** A sequence that may still be completed is held back. */
  lemma UnfinishedIsHeld(p: string)
    requires IsNumber(p, 0)
    ensures Strip([ESC]) == Stripped("", [ESC])
    ensures Strip([ESC, '['] + p) == Stripped("", [ESC, '['] + p)
  {
    assert Scan([ESC], 0, Start) == Scan([ESC], 1, Escape) == Hold;
    var t := [ESC, '['] + p;
    assert t[2..2 + |p|] == p;
    ReadNumber(t, 2, p, 0, true);
    assert Scan(t, 0, Start) == Scan(t, 1, Escape) == Scan(t, 2, Number(0, true));
  }

  lemma UnfinishedSecondIsHeld(p: string, q: string)
    requires IsNumber(p, 0) && IsNumber(q, 0)
    ensures Strip([ESC, '['] + p + ";" + q) == Stripped("", [ESC, '['] + p + ";" + q)
  {
    var t := [ESC, '['] + p + ";" + q;
    assert t[2..2 + |p|] == p && t[2 + |p|] == ';' && t[3 + |p|..3 + |p| + |q|] == q;
    NotDigitEnds(p, ';', 0);
    ReadNumber(t, 2, p, 0, true);
    ReadNumber(t, 3 + |p|, q, 0, false);
    OpensSequence(t);
  }

  // ----- Pieces

  /** Once the scanner has decided, more text does not change its mind. */
  lemma {:induction false} ScanStable(a: string, b: string, j: nat, at: Progress)
    requires j <= |a| && (at == Escape ==> j > 0) && !Scan(a, j, at).Hold?
    ensures Scan(a + b, j, at) == Scan(a, j, at)
    decreases |a| - j
  {
    match at
    case Start => if a[j] == ESC { ScanStable(a, b, j + 1, Escape); }
    case Escape => if a[j] == '[' { ScanStable(a, b, j + 1, Number(0, true)); }
    case Number(value, more) =>
      if IsDigit(a[j]) && value <= 108 {
        ScanStable(a, b, j + 1, Number(value * 10 + DigitValue(a[j]), more));
      } else if a[j] == ';' && more {
        ScanStable(a, b, j + 1, Number(0, false));
      }
  }

  lemma {:induction false} TwoPiecesFrom(a: string, b: string, i: nat)
    requires i <= |a|
    ensures var first := StripFrom(a, i); var second := Strip(first.residual + b);
      StripFrom(a + b, i) == second.Behind(first.pure)
    decreases |a| - i
  {
    if i == |a| || Scan(a, i, Start).Hold? {
      assert StripFrom(a, i) == Stripped([], a[i..]);
      Restart(a, b, i);
    } else {
      var token := Scan(a, i, Start);
      var later := StripFrom(a, token.to);
      TwoPiecesFrom(a, b, token.to);
      Advance(a, b, i);
      if token.Emit? {
        BehindBehind(a[i..token.to], later.pure, Strip(later.residual + b));
      }
    }
  }

  lemma BehindBehind(first: string, second: string, later: Stripped)
    ensures later.Behind(second).Behind(first) == later.Behind(first + second)
  {
    assert first + (second + later.pure) == first + second + later.pure;
  }

  /** Scanning may start afresh anywhere with the text from there on. */
  lemma Restart(a: string, b: string, i: nat)
    requires i <= |a|
    ensures StripFrom(a + b, i) == Strip(a[i..] + b)
    ensures Strip(a[i..] + b).Behind([]) == Strip(a[i..] + b)
  {
    assert a + b == a[..i] + (a[i..] + b);
    StripShift(a[..i], a[i..] + b, 0);
  }

  /** A decided round goes the same way whatever follows. */
  lemma Advance(a: string, b: string, i: nat)
    requires i < |a| && !Scan(a, i, Start).Hold?
    ensures var token := Scan(a, i, Start);
      && StripFrom(a + b, i) ==
           (if token.Drop? then StripFrom(a + b, token.to) else StripFrom(a + b, token.to).Behind(a[i..token.to]))
      && StripFrom(a, i) ==
           (if token.Drop? then StripFrom(a, token.to) else StripFrom(a, token.to).Behind(a[i..token.to]))
  {
    ScanStable(a, b, i, Start);
    var to := Scan(a, i, Start).to;
    assert (a + b)[i..to] == a[i..to];
  }

  /** Feeding a text in two pieces, carrying the residual over, is feeding it at once. */
  lemma TwoPieces(a: string, b: string)
    ensures var first := Strip(a); var second := Strip(first.residual + b);
      Strip(a + b) == Stripped(first.pure + second.pure, second.residual)
  {
    TwoPiecesFrom(a, b, 0);
  }

  function Joined(pieces: seq<string>): string {
    if pieces == [] then "" else Joined(pieces[..|pieces| - 1]) + pieces[|pieces| - 1]
  }

  // ----- The scanner as written

  /** parse_numeric: advances past the digits of a number. */
  method ParseNumeric(text: string, from: nat, ghost more: bool) returns (j: nat)
    requires from < |text|
    ensures from <= j <= |text|
    ensures Scan(text, from, Number(0, more)) == AfterNumber(text, j, more)
  {
    j := from;
    var num: nat := 0;
    while IsDigit(text[j]) && num <= 108
      invariant from <= j < |text|
      invariant Scan(text, from, Number(0, more)) == Scan(text, j, Number(num, more))
      decreases |text| - j
    {
      num := num * 10 + DigitValue(text[j]);
      j := j + 1;
      if j >= |text| { break; }
    }
  }

  /** The decision taken at position `i`. */
  method NextToken(text: string, i: nat) returns (token: Token)
    requires i < |text|
    ensures token == Scan(text, i, Start)
  {
    if i + 1 >= |text| { return if text[i] == ESC then Hold else Emit(i + 1); }
    if text[i] != ESC || text[i + 1] != '[' { return Emit(i + 1); }
    assert Scan(text, i, Start) == Scan(text, i + 1, Escape) == Scan(text, i + 2, Number(0, true));
    var j := i + 2;
    if j >= |text| { return Hold; }
    j := ParseNumeric(text, j, true);
    if j >= |text| { return Hold; }
    if text[j] == 'm' { return Drop(j + 1); }
    if text[j] == ';' {
      j := j + 1;
      if j >= |text| { return Hold; }
      j := ParseNumeric(text, j, false);
      if j >= |text| { return Hold; }
      if text[j] == 'm' { return Drop(j + 1); }
    }
    token := Emit(j + 1);
  }

  method Remove(text: string) returns (result: Stripped)
    ensures result == Strip(text)
  {
    var pure: string := "";
    var i := 0;
    while i < |text|
      invariant 0 <= i <= |text|
      invariant Strip(text).residual == StripFrom(text, i).residual
      invariant Strip(text).pure == pure + StripFrom(text, i).pure
    {
      var token := NextToken(text, i);
      match token
      case Hold => return Stripped(pure, text[i..]);
      case Drop(to) => i := to;
      case Emit(to) =>
        assert pure + (text[i..to] + StripFrom(text, to).pure) == pure + text[i..to] + StripFrom(text, to).pure;
        pure, i := pure + text[i..to], to;
    }
    result := Stripped(pure, "");
  }

  /** A program's output, stripped as it is read from its pipe. */
  class OutputFilter {
    var residualLog: string

    // everything read and everything handed on
    ghost var consumed: string
    ghost var produced: string

    ghost predicate Valid()
      reads this
    {
      Strip(consumed) == Stripped(produced, residualLog)
    }

    constructor ()
      ensures Valid() && consumed == "" && produced == ""
    {
      residualLog, consumed, produced := "", "", "";
    }

    method RemoveEscapes(text: string) returns (pure: string)
      requires Valid()
      modifies this
      ensures Valid() && consumed == old(consumed) + text && produced == old(produced) + pure
    {
      TwoPieces(consumed, text);
      var result := Remove(residualLog + text);
      residualLog, pure := result.residual, result.pure;
      consumed, produced := consumed + text, produced + pure;
    }
  }

  /** However the output is cut, the filter hands on what stripping the whole would. */
  method FilterPieces(pieces: seq<string>) returns (pure: string, residual: string)
    ensures Stripped(pure, residual) == Strip(Joined(pieces))
  {
    var filter := new OutputFilter();
    pure := "";
    for i := 0 to |pieces|
      invariant filter.Valid() && fresh(filter)
      invariant filter.consumed == Joined(pieces[..i]) && filter.produced == pure
    {
      assert pieces[..i + 1][..i] == pieces[..i];
      var more := filter.RemoveEscapes(pieces[i]);
      pure := pure + more;
    }
    assert pieces[..|pieces|] == pieces;
    residual := filter.residualLog;
  }
}
