/**
 The scanner of the semi-index: how the builder classifies the characters of a
 text, and the two bit strings it derives from them. `nav` marks the structural
 characters outside string literals; `bp` holds two parentheses for each of them.
 */
module Lexer {

  /** Where the scanner stands before a character. */
  datatype Lex = Outside | InString | Escaped

  predicate IsStructural(c: char) {
    c == '[' || c == ']' || c == '{' || c == '}' || c == ',' || c == ':'
  }

  function Next(st: Lex, c: char): Lex {
    match st
    case Outside => if c == '"' then InString else Outside
    case InString => if c == '\\' then Escaped else if c == '"' then Outside else InString
    case Escaped => InString
  }

  function Run(st: Lex, s: string): Lex
    decreases |s|
  {
    if s == "" then st else Run(Next(st, s[0]), s[1..])
  }

  /** Every literal that `s` opens is also terminated in `s`. */
  predicate Closed(s: string) {
    Run(Outside, s) == Outside
  }

  /** The two parentheses pushed for a structural character. */
  function Parens(c: char): (b: seq<bool>)
    requires IsStructural(c)
    ensures |b| == 2
  {
    if c == '[' || c == '{' then [true, true]
    else if c == ']' || c == '}' then [false, false]
    else [false, true]
  }

  /** What one character adds to either bit string. */
  function NavStep(st: Lex, c: char): seq<bool> { [st == Outside && IsStructural(c)] }

  function BpStep(st: Lex, c: char): seq<bool> { if st == Outside && IsStructural(c) then Parens(c) else [] }

  function NavFrom(st: Lex, s: string): seq<bool>
    decreases |s|
  {
    if s == "" then [] else NavStep(st, s[0]) + NavFrom(Next(st, s[0]), s[1..])
  }

  function BpFrom(st: Lex, s: string): seq<bool>
    decreases |s|
  {
    if s == "" then [] else BpStep(st, s[0]) + BpFrom(Next(st, s[0]), s[1..])
  }

  function Nav(s: string): seq<bool> { NavFrom(Outside, s) }

  function Bp(s: string): seq<bool> { BpFrom(Outside, s) }

  function Ones(b: seq<bool>): nat {
    if b == [] then 0 else (if b[0] then 1 else 0) + Ones(b[1..])
  }

  lemma {:induction false} OnesConcat(a: seq<bool>, b: seq<bool>)
    ensures Ones(a + b) == Ones(a) + Ones(b)
  {
    if a == [] {
      assert a + b == b;
    } else {
      assert (a + b)[1..] == a[1..] + b;
      OnesConcat(a[1..], b);
    }
  }

  /** The scanner is a left-to-right automaton: both bit strings split wherever the text splits. */
  lemma {:induction false} ScanConcat(st: Lex, a: string, b: string)
    ensures Run(st, a + b) == Run(Run(st, a), b)
    ensures NavFrom(st, a + b) == NavFrom(st, a) + NavFrom(Run(st, a), b)
    ensures BpFrom(st, a + b) == BpFrom(st, a) + BpFrom(Run(st, a), b)
    decreases |a|
  {
    hide Run, NavFrom, BpFrom;
    if a == "" {
      assert a + b == b;
      ScanEnd(st);
    } else {
      assert (a + b)[1..] == a[1..] + b;
      ScanStep(st, a);
      ScanStep(st, a + b);
      ScanConcat(Next(st, a[0]), a[1..], b);
      Associate(NavStep(st, a[0]), NavFrom(Next(st, a[0]), a[1..]), NavFrom(Run(st, a), b));
      Associate(BpStep(st, a[0]), BpFrom(Next(st, a[0]), a[1..]), BpFrom(Run(st, a), b));
    }
  }

  lemma ScanStep(st: Lex, s: string)
    requires s != ""
    ensures Run(st, s) == Run(Next(st, s[0]), s[1..])
    ensures NavFrom(st, s) == NavStep(st, s[0]) + NavFrom(Next(st, s[0]), s[1..])
    ensures BpFrom(st, s) == BpStep(st, s[0]) + BpFrom(Next(st, s[0]), s[1..])
  {
  }

  lemma ScanEnd(st: Lex)
    ensures Run(st, "") == st && NavFrom(st, "") == [] && BpFrom(st, "") == []
  {
  }

  lemma Associate(x: seq<bool>, y: seq<bool>, z: seq<bool>)
    ensures x + (y + z) == (x + y) + z
  {
  }

  lemma ClosedConcat(a: string, b: string)
    requires Closed(a)
    ensures Closed(a + b) <==> Closed(b)
    ensures Nav(a + b) == Nav(a) + Nav(b)
    ensures Bp(a + b) == Bp(a) + Bp(b)
  {
    ScanConcat(Outside, a, b);
  }

  /** `nav` has one bit per character, set exactly at the structural characters outside literals. */
  lemma {:induction false} NavMeaning(st: Lex, s: string)
    ensures |NavFrom(st, s)| == |s|
    ensures forall i | 0 <= i < |s| :: NavFrom(st, s)[i] <==> Run(st, s[..i]) == Outside && s[i] in "[]{},:"
    decreases |s|
  {
    if s != "" {
      NavMeaning(Next(st, s[0]), s[1..]);
      forall i | 0 <= i < |s|
        ensures NavFrom(st, s)[i] <==> Run(st, s[..i]) == Outside && s[i] in "[]{},:"
      {
        if i > 0 {
          assert s[..i][1..] == s[1..][..i-1];
        }
      }
    }
  }

  /** `bp` has two bits per set bit of `nav`. */
  lemma {:induction false} BpLength(st: Lex, s: string)
    ensures |BpFrom(st, s)| == 2 * Ones(NavFrom(st, s))
    decreases |s|
  {
    if s != "" {
      BpLength(Next(st, s[0]), s[1..]);
      assert NavFrom(st, s)[1..] == NavFrom(Next(st, s[0]), s[1..]);
    }
  }

  /** A text of characters that mean nothing to the scanner leaves no trace in `bp`. */
  lemma {:induction false} PlainText(s: string)
    requires forall c | c in s :: c != '"' && !IsStructural(c)
    ensures Closed(s) && Bp(s) == []
  {
    if s != "" {
      assert s[0] in s;
      assert forall c | c in s[1..] :: c in s;
      PlainText(s[1..]);
    }
  }
}
