/**
 The lexical side of the JSON reader as functions of the text: where tokens end,
 what a number or a literal decodes to.
 */
module ReaderSpec {
  import opened Basics
  import opened JsonValue
  import opened FastWriter

  /** Reading through the pointer: the document ends with NUL. */
  function Ch(doc: string, i: nat): char {
    if i < |doc| then doc[i] else '\0'
  }

  predicate IsDigit(c: char) { '0' <= c <= '9' }

  predicate InNumber(c: char) {
    IsDigit(c) || c == '.' || c == 'e' || c == 'E' || c == '+' || c == '-'
  }

  function SpaceEnd(doc: string, i: nat): (r: nat)
    requires i <= |doc|
    ensures i <= r <= |doc|
    decreases |doc| - i
  {
    if i < |doc| && IsSpace(doc[i]) then SpaceEnd(doc, i + 1) else i
  }

  function NumberEnd(doc: string, i: nat): (r: nat)
    requires i <= |doc|
    ensures i <= r <= |doc|
    decreases |doc| - i
  {
    if i < |doc| && InNumber(doc[i]) then NumberEnd(doc, i + 1) else i
  }

  /** The end of a literal whose opening quote has been read; a backslash shields one character. */
  function StringEnd(doc: string, i: nat): (r: Option<nat>)
    requires i <= |doc|
    ensures r.Some? ==> i < r.value <= |doc|
    decreases |doc| - i
  {
    if i == |doc| then None
    else if doc[i] == '\\' then StringEnd(doc, if i + 1 < |doc| then i + 2 else i + 1)
    else if doc[i] == '"' then Some(i + 1)
    else StringEnd(doc, i + 1)
  }

  datatype TokenType =
    | EndOfStream | ObjectBegin | ObjectEnd | ArrayBegin | ArrayEnd | StringToken | NumberToken
    | TrueToken | FalseToken | NullToken | ArraySeparator | MemberSeparator | CommentToken | ErrorToken

  datatype Token = Token(kind: TokenType, start: nat, end: nat)

  /** The complaints of the reader, one for each message text. */
  datatype Message =
    | IsNotANumber | FourDigitsExpected | HexadecimalDigitExpected | SixCharactersExpected | SecondHalfExpected
    | EmptyEscape | BadEscape | ValueExpected | MissingColon | MissingCommaOrBrace
    | MissingBraceOrName | RootNotContainer

  datatype ErrorInfo = ErrorInfo(message: Message, token: Token)

  predicate PrefixAt(doc: string, i: nat, pattern: string) {
    i + |pattern| <= |doc| && doc[i..i+|pattern|] == pattern
  }

  function Word(doc: string, start: nat, rest: string, kind: TokenType): Token {
    if PrefixAt(doc, start + 1, rest) then Token(kind, start, start + 1 + |rest|)
    else Token(ErrorToken, start, start + 1)
  }

  /** Behind the star of the first `*` that a slash follows, or the end of the text. */
  function StarEnd(doc: string, i: nat): (r: nat)
    requires i <= |doc|
    ensures i <= r <= |doc|
    decreases |doc| - i
  {
    if i == |doc| then i
    else if doc[i] == '*' && Ch(doc, i + 1) == '/' then i + 1
    else StarEnd(doc, i + 1)
  }

  /** Behind the first line end, or the end of the text. */
  function LineEnd(doc: string, i: nat): (r: nat)
    requires i <= |doc|
    ensures i <= r <= |doc|
    decreases |doc| - i
  {
    if i == |doc| then i
    else if doc[i] == '\r' || doc[i] == '\n' then i + 1
    else LineEnd(doc, i + 1)
  }

  function Behind(doc: string, i: nat): (r: nat)
    requires i <= |doc|
    ensures i <= r <= |doc|
  {
    if i < |doc| then i + 1 else i
  }

  /** The comment whose first slash has been read: whether it is one, and where it ends. */
  function CommentAt(doc: string, i: nat): (r: (bool, nat))
    requires i <= |doc|
    ensures i <= r.1 <= |doc|
  {
    var j := Behind(doc, i);
    if Ch(doc, i) == '*' then
      var k := StarEnd(doc, j);
      (Ch(doc, k) == '/', Behind(doc, k))
    else if Ch(doc, i) == '/' then (true, LineEnd(doc, j))
    else (false, j)
  }

  /** The token found when reading from `from`. */
  function TokenAt(doc: string, from: nat): (t: Token)
    requires from <= |doc|
    ensures from <= t.start <= t.end <= |doc|
    ensures t.kind == EndOfStream || t.start < t.end
    ensures t.kind == StringToken ==> t.start + 1 < t.end
  {
    var s := SpaceEnd(doc, from);
    if s == |doc| then Token(EndOfStream, s, s)
    else
      var c := doc[s];
      if c == '{' then Token(ObjectBegin, s, s + 1)
      else if c == '}' then Token(ObjectEnd, s, s + 1)
      else if c == '[' then Token(ArrayBegin, s, s + 1)
      else if c == ']' then Token(ArrayEnd, s, s + 1)
      else if c == ',' then Token(ArraySeparator, s, s + 1)
      else if c == ':' then Token(MemberSeparator, s, s + 1)
      else if c == '\0' then Token(EndOfStream, s, s + 1)
      else if c == '"' then
        (match StringEnd(doc, s + 1)
         case None => Token(ErrorToken, s, |doc|)
         case Some(e) => Token(StringToken, s, e))
      else if IsDigit(c) || c == '-' then Token(NumberToken, s, NumberEnd(doc, s + 1))
      else if c == 't' then Word(doc, s, "rue", TrueToken)
      else if c == 'f' then Word(doc, s, "alse", FalseToken)
      else if c == 'n' then Word(doc, s, "ull", NullToken)
      else if c == '/' then
        var (good, e) := CommentAt(doc, s + 1);
        Token(if good then CommentToken else ErrorToken, s, e)
      else Token(ErrorToken, s, s + 1)
  }

  predicate Lexed(doc: string, from: nat, t: Token)
    requires from <= |doc|
  {
    t == TokenAt(doc, from)
  }

  /** The first token that is not a comment, from `t` on. */
  function Uncommented(doc: string, t: Token): (r: Token)
    requires t.start <= t.end <= |doc| && (t.kind == EndOfStream || t.start < t.end)
    ensures t.start <= r.start <= r.end <= |doc| && t.end <= r.end && r.kind != CommentToken
    ensures r.kind == EndOfStream || r.start < r.end
    decreases |doc| - t.start
  {
    if t.kind == CommentToken then Uncommented(doc, TokenAt(doc, t.end)) else t
  }

  /** The first token from a position on that is not a comment. */
  function NextToken(doc: string, from: nat): (r: Token)
    requires from <= |doc|
    ensures from <= r.start <= r.end <= |doc| && r.kind != CommentToken
    ensures r.kind == EndOfStream || r.start < r.end
  {
    Uncommented(doc, TokenAt(doc, from))
  }

  /** Behind the first token of a kind, or behind the end of the stream. */
  function SkipEnd(doc: string, from: nat, until: TokenType): (r: nat)
    requires from <= |doc|
    ensures from <= r <= |doc|
    decreases |doc| - from
  {
    var t := TokenAt(doc, from);
    if t.kind == until || t.kind == EndOfStream then t.end else SkipEnd(doc, t.end, until)
  }

  /** The cursor has been moved behind such a token, from some place at or behind `from`. */
  ghost predicate SkippedTo(doc: string, from: nat, until: TokenType, to: nat) {
    exists at | from <= at <= |doc| :: SkipEnd(doc, at, until) == to
  }

  lemma SkipsHere(doc: string, from: nat, at: nat, until: TokenType)
    requires from <= at <= |doc|
    ensures SkippedTo(doc, from, until, SkipEnd(doc, at, until))
  {
    hide SkipEnd;
  }

  lemma SkipsFrom(doc: string, from: nat, mid: nat, until: TokenType, to: nat)
    requires from <= mid && SkippedTo(doc, mid, until, to)
    ensures SkippedTo(doc, from, until, to)
  {
    hide SkipEnd;
  }

  // ---- Numbers ----

  datatype Number = Exact(v: Value) | Double | NotANumber

  /** Anything but digits behind an optional sign is left to the floating-point routine. */
  predicate LooksDouble(s: string) {
    exists i | 0 <= i < |s| ::
      s[i] == '.' || s[i] == 'e' || s[i] == 'E' || s[i] == '+' || (s[i] == '-' && i > 0)
  }

  datatype Accumulated = Fits(value: nat) | TooBig | BadDigit

  /** Digits are accumulated as long as the value so far is below the threshold. */
  function Accumulate(s: string, value: nat, threshold: nat): Accumulated
    decreases |s|
  {
    if s == "" then Fits(value)
    else if !IsDigit(s[0]) then BadDigit
    else if value >= threshold then TooBig
    else Accumulate(s[1..], value * 10 + (s[0] as int - '0' as int), threshold)
  }

  function Threshold(negative: bool): nat {
    (if negative then -MIN_INT else MAX_UINT) / 10
  }

  function NumberOf(s: string): Number {
    if LooksDouble(s) then Double
    else
      var negative := s != "" && s[0] == '-';
      match Accumulate(if negative then s[1..] else s, 0, Threshold(negative))
      case BadDigit => NotANumber
      case TooBig => Double
      case Fits(n) => Exact(if negative then Int(0 - n) else if n <= MAX_INT then Int(n) else UInt(n))
  }

  // ---- Literals ----

  function SimpleEscape(c: char): Option<char> {
    match c
    case '"' => Some('"')
    case '/' => Some('/')
    case '\\' => Some('\\')
    case 'b' => Some(8 as char)
    case 'f' => Some(12 as char)
    case 'n' => Some('\n')
    case 'r' => Some('\r')
    case 't' => Some('\t')
    case _ => None
  }

  function HexValue(c: char): Option<nat> {
    if '0' <= c <= '9' then Some(c as int - '0' as int)
    else if 'a' <= c <= 'f' then Some(c as int - 'a' as int + 10)
    else if 'A' <= c <= 'F' then Some(c as int - 'A' as int + 10)
    else None
  }

  /** The value of the hexadecimal digits of `s`, on top of `acc`. */
  function Hex(s: string, acc: nat): Option<nat>
    decreases |s|
  {
    if s == "" then Some(acc)
    else match HexValue(s[0])
         case None => None
         case Some(d) => Hex(s[1..], acc * 16 + d)
  }

  function Hex4(s: string): (r: Option<nat>) {
    if |s| < 4 then None else Hex(s[..4], 0)
  }

  /** The code point of a unicode escape, surrogate pairs joined, and how much text it takes. */
  function Surrogates(u: nat, w: nat): nat { 0x10000 + (u % 0x400) * 0x400 + w % 0x400 }

  function CodePoint(s: string): (r: Option<(nat, nat)>)
    ensures r.Some? ==> r.value.1 <= |s|
  {
    match Hex4(s)
    case None => None
    case Some(u) =>
      if u < 0xD800 || u > 0xDBFF then Some((u, 4))
      else if |s| < 10 || s[4] != '\\' || s[5] != 'u' then None
      else match Hex4(s[6..])
           case None => None
           case Some(w) => Some((Surrogates(u, w), 10))
  }

  /** The same, read at an index of a longer text. */
  lemma CodePointAt(s: string, at: nat)
    requires at <= |s|
    ensures CodePoint(s[at..]) ==
            match Hex4(s[at..])
            case None => None
            case Some(u) =>
              if u < 0xD800 || u > 0xDBFF then Some((u, 4))
              else if |s| - at < 10 || s[at+4] != '\\' || s[at+5] != 'u' then None
              else match Hex4(s[at+6..])
                   case None => None
                   case Some(w) => Some((Surrogates(u, w), 10))
    ensures Hex4(s[at..]).Some? ==> at + 4 <= |s|
  {
    var t := s[at..];
    if |t| >= 10 {
      assert t[4] == s[at+4] && t[5] == s[at+5] && t[6..] == s[at+6..];
    }
  }

  function Byte(n: nat): char
    requires n < 256
  {
    n as char
  }

  function Utf8(cp: nat): string {
    if cp <= 0x7F then [Byte(cp)]
    else if cp <= 0x7FF then [Byte(0xC0 + cp / 0x40), Byte(0x80 + cp % 0x40)]
    else if cp <= 0xFFFF then [Byte(0xE0 + cp / 0x1000), Byte(0x80 + cp / 0x40 % 0x40), Byte(0x80 + cp % 0x40)]
    else if cp <= 0x10FFFF then
      [Byte(0xF0 + cp / 0x40000), Byte(0x80 + cp / 0x1000 % 0x40), Byte(0x80 + cp / 0x40 % 0x40),
        Byte(0x80 + cp % 0x40)]
    else ""
  }

  function Prepend(a: string, r: Option<string>): Option<string> {
    match r
    case None => None
    case Some(b) => Some(a + b)
  }

  /** The text between the quotes of a literal token, decoded. */
  function Unescape(s: string): Option<string>
    decreases |s|
  {
    if s == "" || s[0] == '"' then Some("")
    else if s[0] != '\\' then Prepend([s[0]], Unescape(s[1..]))
    else if |s| == 1 then None
    else if s[1] == 'u' then
      match CodePoint(s[2..])
      case None => None
      case Some(r) => Prepend(Utf8(r.0), Unescape(s[2 + r.1..]))
    else match SimpleEscape(s[1])
         case None => None
         case Some(c) => Prepend([c], Unescape(s[2..]))
  }

  /** The same, read at an index of a longer text. */
  lemma UnescapeAt(s: string, at: nat)
    requires at < |s|
    ensures Unescape(s[at..]) ==
            if s[at] == '"' then Some("")
            else if s[at] != '\\' then Prepend([s[at]], Unescape(s[at+1..]))
            else if at + 1 == |s| then None
            else if s[at+1] == 'u' then
              match CodePoint(s[at+2..])
              case None => None
              case Some(r) => Prepend(Utf8(r.0), Unescape(s[at + 2 + r.1..]))
            else match SimpleEscape(s[at+1])
                 case None => None
                 case Some(c) => Prepend([c], Unescape(s[at+2..]))
  {
    hide CodePoint, Utf8, Prepend, SimpleEscape;
    var rest := s[at..];
    assert rest[0] == s[at] && rest[1..] == s[at+1..];
    if |rest| > 1 {
      assert rest[1] == s[at+1] && rest[2..] == s[at+2..];
      var r := CodePoint(s[at+2..]);
      if r.Some? {
        assert rest[2 + r.value.1..] == s[at + 2 + r.value.1..];
      }
    }
  }

  // ---- What is said of a literal that cannot be decoded ----

  function HexMessage(s: string): Message {
    if |s| < 4 then FourDigitsExpected else HexadecimalDigitExpected
  }

  /** What is wrong with a unicode escape. */
  function CodePointMessage(s: string): Message {
    match Hex4(s)
    case None => HexMessage(s)
    case Some(_) =>
      if |s| < 10 then SixCharactersExpected
      else if s[4] != '\\' || s[5] != 'u' then SecondHalfExpected
      else HexMessage(s[6..])
  }

  /** What is wrong with the first escape that cannot be decoded. */
  function LiteralMessage(s: string): Message
    decreases |s|
  {
    if s == "" || s[0] == '"' then EmptyEscape
    else if s[0] != '\\' then LiteralMessage(s[1..])
    else if |s| == 1 then EmptyEscape
    else if s[1] == 'u' then
      match CodePoint(s[2..])
      case None => CodePointMessage(s[2..])
      case Some(r) => LiteralMessage(s[2 + r.1..])
    else if SimpleEscape(s[1]) == None then BadEscape
    else LiteralMessage(s[2..])
  }

  /** The same, read at an index of a longer text. */
  lemma LiteralMessageAt(s: string, at: nat)
    requires at < |s|
    ensures s[at] != '\\' && s[at] != '"' ==> LiteralMessage(s[at..]) == LiteralMessage(s[at+1..])
    ensures s[at] == '\\' && at + 1 == |s| ==> LiteralMessage(s[at..]) == EmptyEscape
    ensures s[at] == '\\' && at + 1 < |s| && s[at+1] == 'u' ==>
              LiteralMessage(s[at..]) == (match CodePoint(s[at+2..])
                                          case None => CodePointMessage(s[at+2..])
                                          case Some(r) => LiteralMessage(s[at + 2 + r.1..]))
    ensures s[at] == '\\' && at + 1 < |s| && s[at+1] != 'u' ==>
              LiteralMessage(s[at..]) == if SimpleEscape(s[at+1]) == None then BadEscape else LiteralMessage(s[at+2..])
  {
    hide CodePoint, CodePointMessage, SimpleEscape;
    var rest := s[at..];
    assert rest[0] == s[at] && rest[1..] == s[at+1..];
    if |rest| > 1 {
      assert rest[1] == s[at+1] && rest[2..] == s[at+2..];
      var r := CodePoint(s[at+2..]);
      if r.Some? {
        assert rest[2 + r.value.1..] == s[at + 2 + r.value.1..];
      }
    }
  }

  // ---- What the writer's text decodes to ----

  /** The integers that survive a round trip. */
  predicate IntSurvives(v: Value) {
    match v
    case Int(i) => -2147483639 <= i <= 2147483647
    case UInt(u) => 2147483647 < u <= 4294967289
    case _ => false
  }

  lemma {:induction false} DigitsAreDigits(n: nat)
    ensures Digits(n) != "" && forall c | c in Digits(n) :: IsDigit(c)
  {
    if n >= 10 {
      DigitsAreDigits(n / 10);
    }
  }

  lemma {:induction false} AccumulateConcat(a: string, b: string, value: nat, threshold: nat)
    ensures Accumulate(a + b, value, threshold) ==
            match Accumulate(a, value, threshold)
            case Fits(n) => Accumulate(b, n, threshold)
            case other => other
    decreases |a|
  {
    if a == "" {
      assert a + b == b;
    } else if IsDigit(a[0]) && value < threshold {
      assert (a + b)[1..] == a[1..] + b;
      AccumulateConcat(a[1..], b, value * 10 + (a[0] as int - '0' as int), threshold);
    }
  }

  /** Accumulating the digits of a number succeeds exactly when all but its last digit stay below the threshold. */
  lemma {:induction false} AccumulateDigits(n: nat, threshold: nat)
    requires threshold > 0
    ensures Accumulate(Digits(n), 0, threshold) == if n / 10 < threshold then Fits(n) else TooBig
  {
    var last := [Digit(n % 10)];
    assert last[1..] == "";
    if n < 10 {
      assert Digits(n) == last;
    } else {
      AccumulateDigits(n / 10, threshold);
      AccumulateConcat(Digits(n / 10), last, 0, threshold);
    }
  }

  lemma NotDouble(s: string)
    requires forall i | 0 <= i < |s| :: IsDigit(s[i]) || (i == 0 && s[i] == '-')
    ensures !LooksDouble(s)
  {
  }

  lemma NumberOfDigits(n: nat)
    ensures NumberOf(Digits(n)) ==
            if n / 10 < Threshold(false) then Exact(if n <= MAX_INT then Int(n) else UInt(n)) else Double
  {
    var s := Digits(n);
    DigitsAreDigits(n);
    assert forall i | 0 <= i < |s| :: s[i] in s;
    NotDouble(s);
    assert s[0] in s;
    AccumulateDigits(n, Threshold(false));
  }

  lemma NumberOfNegative(n: nat)
    ensures NumberOf("-" + Digits(n)) == if n / 10 < Threshold(true) then Exact(Int(0 - n)) else Double
  {
    var d := Digits(n);
    var s := "-" + d;
    DigitsAreDigits(n);
    forall i | 0 <= i < |s|
      ensures IsDigit(s[i]) || (i == 0 && s[i] == '-')
    {
      if i > 0 {
        assert s[i] == d[i-1] && d[i-1] in d;
      }
    }
    NotDouble(s);
    assert s[1..] == d;
    AccumulateDigits(n, Threshold(true));
  }

  function NumberText(v: Value): string
    requires v.Int? || (v.UInt? && v.u >= 0)
  {
    if v.Int? then IntText(v.i) else Digits(v.u)
  }

  /** A written integer reads back as the same value exactly in the surviving range. */
  lemma IntegerExact(v: Value)
    requires (v.Int? || v.UInt?) && Representable(v)
    ensures NumberOf(NumberText(v)) == Exact(v) <==> IntSurvives(v)
  {
    if v.Int? && v.i < 0 {
      NumberOfNegative(-v.i);
    } else {
      NumberOfDigits(if v.Int? then v.i else v.u);
    }
  }

  lemma UnescapeChar(c: char, rest: string)
    requires c != '\0'
    ensures Unescape(EscapeChar(c) + rest) == Prepend([c], Unescape(rest))
  {
    var e := EscapeChar(c);
    var s := e + rest;
    if |e| == 1 {
      assert s[0] == c && s[1..] == rest;
    } else if |e| == 2 {
      assert s[0] == e[0] == '\\' && s[1] == e[1] && s[2..] == rest;
    } else {
      assert s[0] == '\\' && s[1] == 'u';
      var t := s[2..];
      assert t == e[2..] + rest;
      HexOfControl(c, t);
      assert t[4..] == rest;
      assert s[2 + 4..] == rest;
    }
  }

  lemma HexOfControl(c: char, t: string)
    requires IsControl(c) && |t| >= 4
    requires t[..4] == "00" + [HexDigit(c as int / 16), HexDigit(c as int % 16)]
    ensures CodePoint(t) == Some((c as int, 4))
  {
    var h := t[..4];
    var hi, lo := c as int / 16, c as int % 16;
    assert HexValue(HexDigit(hi)) == Some(hi) && HexValue(HexDigit(lo)) == Some(lo);
    assert h[0] == '0' && h[1] == '0' && h[2] == HexDigit(hi) && h[3] == HexDigit(lo);
    calc {
      Hex(h, 0);
      Hex(h[1..], 0);
      { assert h[1..][0] == '0'; }
      Hex(h[1..][1..], 0);
      { assert h[1..][1..] == h[2..]; }
      Hex(h[2..], 0);
      { assert h[2..][0] == HexDigit(hi) && h[2..][1..] == h[3..]; }
      Hex(h[3..], hi);
      { assert h[3..][0] == HexDigit(lo) && h[3..][1..] == ""; }
      Hex("", hi * 16 + lo);
    }
  }

  /** Decoding undoes escaping. */
  lemma {:induction false} UnescapeEscape(s: string)
    requires '\0' !in s
    ensures Unescape(Escape(s)) == Some(s)
  {
    if s != "" {
      assert s[0] in s;
      UnescapeChar(s[0], Escape(s[1..]));
      UnescapeEscape(s[1..]);
      assert s == [s[0]] + s[1..];
    }
  }

  /** A written string decodes to the same string exactly when it holds no NUL. */
  lemma StringExact(s: string)
    ensures Unescape(Escape(CString(s))) == Some(s) <==> '\0' !in s
  {
    CStringWhole(s);
    UnescapeEscape(CString(s));
  }

  lemma StringEndChar(doc: string, i: nat, c: char)
    requires c != '\0' && PrefixAt(doc, i, EscapeChar(c))
    ensures i < |doc| && StringEnd(doc, i) == StringEnd(doc, i + |EscapeChar(c)|)
  {
    var e := EscapeChar(c);
    forall k | 0 <= k < |e|
      ensures doc[i+k] == e[k]
    {
      assert doc[i..i+|e|][k] == doc[i+k];
    }
    if |e| == 6 {
      assert doc[i] == '\\' && doc[i+2] == e[2] && doc[i+3] == e[3] && doc[i+4] == e[4] && doc[i+5] == e[5];
      assert StringEnd(doc, i) == StringEnd(doc, i + 2);
      assert StringEnd(doc, i + 2) == StringEnd(doc, i + 3) == StringEnd(doc, i + 4);
      assert StringEnd(doc, i + 4) == StringEnd(doc, i + 5) == StringEnd(doc, i + 6);
    }
  }

  /** The token of a written literal ends at its closing quote. */
  lemma {:induction false} StringEndEscape(doc: string, i: nat, s: string)
    requires '\0' !in s && PrefixAt(doc, i, Escape(s) + "\"")
    ensures StringEnd(doc, i) == Some(i + |Escape(s)| + 1)
    decreases |s|
  {
    hide StringEnd, EscapeChar, Escape;
    if s == "" {
      StringEndQuote(doc, i);
    } else {
      EscapeHead(doc, i, s);
      StringEndChar(doc, i, s[0]);
      StringEndEscape(doc, i + |EscapeChar(s[0])|, s[1..]);
    }
  }

  lemma StringEndQuote(doc: string, i: nat)
    requires PrefixAt(doc, i, Escape("") + "\"")
    ensures StringEnd(doc, i) == Some(i + |Escape("")| + 1)
  {
    assert Escape("") + "\"" == "\"";
    assert doc[i..i+1][0] == doc[i];
  }

  lemma EscapeHead(doc: string, i: nat, s: string)
    requires s != "" && '\0' !in s && PrefixAt(doc, i, Escape(s) + "\"")
    ensures s[0] != '\0' && '\0' !in s[1..] && |Escape(s)| == |EscapeChar(s[0])| + |Escape(s[1..])|
    ensures PrefixAt(doc, i, EscapeChar(s[0])) && PrefixAt(doc, i + |EscapeChar(s[0])|, Escape(s[1..]) + "\"")
  {
    hide EscapeChar, PrefixAt;
    assert s[0] in s;
    assert Escape(s) + "\"" == EscapeChar(s[0]) + (Escape(s[1..]) + "\"");
    PrefixSplit(doc, i, EscapeChar(s[0]), Escape(s[1..]) + "\"");
  }

  lemma PrefixSplit(doc: string, i: nat, a: string, b: string)
    ensures PrefixAt(doc, i, a + b) <==> PrefixAt(doc, i, a) && PrefixAt(doc, i + |a|, b)
  {
    var w := a + b;
    if i + |w| <= |doc| {
      assert doc[i..i+|w|] == doc[i..i+|a|] + doc[i+|a|..i+|w|];
      if doc[i..i+|w|] == w {
        assert w[..|a|] == a && w[|a|..] == b;
        SliceOf(doc, i, w, 0, |a|);
        SliceOf(doc, i, w, |a|, |w|);
      }
    }
  }

  lemma PrependConcat(a: string, b: string, r: Option<string>)
    ensures Prepend(a, Prepend(b, r)) == Prepend(a + b, r)
    ensures Prepend("", r) == r
    ensures Prepend(a, Some("")) == Some(a)
  {
    if r.Some? {
      assert a + (b + r.value) == (a + b) + r.value;
      assert "" + r.value == r.value;
    }
    assert a + "" == a;
  }

  lemma PrependNone(a: string)
    ensures Prepend(a, None) == None && Prepend(a, Some("")) == Some(a) && Unescape("") == Some("")
  {
    assert a + "" == a;
  }

  lemma SliceOf(doc: string, i: nat, w: string, a: nat, b: nat)
    requires i + |w| <= |doc| && doc[i..i+|w|] == w && a <= b <= |w|
    ensures doc[i+a..i+b] == w[a..b]
  {
    forall k | 0 <= k < b - a
      ensures doc[i+a..i+b][k] == w[a..b][k]
    {
      assert doc[i..i+|w|][a+k] == w[a+k];
    }
  }

  lemma {:induction false} NumberEndAt(doc: string, i: nat, s: string)
    requires PrefixAt(doc, i, s) && forall c | c in s :: InNumber(c)
    requires i + |s| == |doc| || !InNumber(doc[i+|s|])
    ensures NumberEnd(doc, i) == i + |s|
    decreases |s|
  {
    if s != "" {
      assert doc[i..i+|s|][0] == doc[i] == s[0];
      assert s[0] in s;
      SliceOf(doc, i, s, 1, |s|);
      NumberEndAt(doc, i + 1, s[1..]);
    }
  }
}
