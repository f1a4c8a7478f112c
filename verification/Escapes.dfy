/**
 The escapes of string literals, told apart from the code: what the index, the reader and the
 writer each make of them, and how the three fit together.
 */
module Escapes {
  import opened Basics
  import opened Keys
  import opened FastWriter
  import opened ReaderSpec

  // ---- The short escapes ----

  /** The characters that have a short escape, section 7 of RFC 8259, written by it; all others as they are. */
  function ShortForm(c: char): string {
    if c == '"' then "\\\""
    else if c == '\\' then "\\\\"
    else if c == '/' then "\\/"
    else if c as int == 8 then "\\b"
    else if c as int == 12 then "\\f"
    else if c as int == 10 then "\\n"
    else if c as int == 13 then "\\r"
    else if c as int == 9 then "\\t"
    else [c]
  }

  function Shortened(s: string): string {
    if s == "" then "" else ShortForm(s[0]) + Shortened(s[1..])
  }

  /** The index and the reader both undo the short escapes, in every string. */
  lemma {:induction false} ShortUndone(s: string)
    ensures ValidRaw(Shortened(s)) && Decode(Shortened(s)) == s
    ensures Unescape(Shortened(s)) == Some(s)
  {
    if s != "" {
      var f, rest := ShortForm(s[0]), Shortened(s[1..]);
      ShortUndone(s[1..]);
      assert (f + rest)[|f|..] == rest && (f + rest)[0] == f[0];
      assert |f| == 2 ==> (f + rest)[1] == f[1];
      assert s == [s[0]] + s[1..];
    }
  }

  predicate IsShort(written: char) { written in "\"\\/bfnrt" }

  /** Every escape in the literal is one of the eight short ones. */
  predicate ShortOnly(raw: string)
    requires ValidRaw(raw)
  {
    || raw == ""
    || if raw[0] == '\\' then IsShort(raw[1]) && ShortOnly(raw[2..]) else ShortOnly(raw[1..])
  }

  /** Four hexadecimal digits are four plain characters of a literal. */
  lemma HexIsPlain(raw: string)
    requires ValidRaw(raw) && Hex4(raw).Some?
    ensures |raw| >= 4 && ValidRaw(raw[4..]) && |Decode(raw)| == 4 + |Decode(raw[4..])|
  {
    hide Hex, HexValue, ValidRaw, Decode;
    HexDigitsOnly(raw[..4], 0);
    NoHexValue();
    var rest := raw;
    for i := 0 to 4
      invariant rest == raw[i..] && ValidRaw(rest) && |Decode(raw)| == i + |Decode(rest)|
    {
      assert raw[..4][i] == rest[0];
      RawStep(rest);
      rest := rest[1..];
    }
  }

  lemma NoHexValue()
    ensures HexValue('\\') == None
  {
  }

  lemma {:induction false} HexDigitsOnly(s: string, acc: nat)
    requires Hex(s, acc).Some?
    ensures forall i | 0 <= i < |s| :: HexValue(s[i]).Some?
    decreases |s|
  {
    if s != "" {
      HexDigitsOnly(s[1..], acc * 16 + HexValue(s[0]).value);
      forall i | 0 <= i < |s|
        ensures HexValue(s[i]).Some?
      {
        assert i > 0 ==> s[i] == s[1..][i-1];
      }
    }
  }

  /** The reader's text is no longer than that of the index, and as long only if there are short escapes only. */
  lemma {:induction false} ReaderShorter(raw: string)
    requires ValidRaw(raw) && Unescape(raw).Some?
    ensures |Unescape(raw).value| <= |Decode(raw)|
    ensures if ShortOnly(raw) then Unescape(raw).value == Decode(raw) else |Unescape(raw).value| < |Decode(raw)|
    decreases |raw|
  {
    hide CodePoint, Utf8, ValidRaw, Decode, Unescape, ShortOnly, IsShort;
    RawEnd();
    if raw != "" {
      RawStep(raw);
      UnescapeStep(raw);
      ShortStep(raw);
      SameTables('u');
      if raw[0] != '\\' {
        ReaderShorter(raw[1..]);
      } else if raw[1] == 'u' {
        UnicodeShorter(raw);
        ReaderShorter(raw[2 + CodePoint(raw[2..]).value.1..]);
      } else {
        ReaderShorter(raw[2..]);
      }
    }
  }

  lemma RawEnd()
    ensures ValidRaw("") && Decode("") == "" && ShortOnly("") && Unescape("") == Some("")
  {
  }

  lemma SameTables(c: char)
    ensures SimpleEscape(c) == if IsShort(c) then Some(EscapeTable(c)) else None
    ensures !IsShort('u')
  {
  }

  /** One step of the reader in a complete literal. */
  lemma UnescapeStep(raw: string)
    requires ValidRaw(raw) && raw != ""
    ensures raw[0] != '\\' ==> Unescape(raw) == Prepend([raw[0]], Unescape(raw[1..]))
    ensures raw[0] == '\\' ==> |raw| >= 2
    ensures raw[0] == '\\' && raw[1] == 'u' ==> Unescape(raw) == UnicodeStep(raw)
    ensures raw[0] == '\\' && IsShort(raw[1]) ==>
              Unescape(raw) == Prepend([EscapeTable(raw[1])], Unescape(raw[2..]))
    ensures raw[0] == '\\' && raw[1] != 'u' && !IsShort(raw[1]) ==> Unescape(raw) == None
  {
    hide CodePoint, Utf8, ValidRaw, SimpleEscape, EscapeTable, IsShort, Unescape;
    RawStep(raw);
    UnescapeAt(raw, 0);
    assert raw[0..] == raw;
    if raw[0] == '\\' {
      SameTables(raw[1]);
    }
  }

  function UnicodeStep(raw: string): Option<string>
    requires |raw| >= 2
  {
    match CodePoint(raw[2..])
    case None => None
    case Some(r) => Prepend(Utf8(r.0), Unescape(raw[2 + r.1..]))
  }

  lemma ShortStep(raw: string)
    requires ValidRaw(raw) && raw != ""
    ensures ShortOnly(raw) <==>
            && (raw[0] == '\\' ==> IsShort(raw[1]))
            && ValidRaw(raw[Width(raw)..]) && ShortOnly(raw[Width(raw)..])
  {
    hide IsShort;
  }

  /** A unicode escape decodes to less than the characters it is written with. */
  lemma UnicodeShorter(raw: string)
    requires ValidRaw(raw) && |raw| >= 2 && raw[0] == '\\' && raw[1] == 'u' && CodePoint(raw[2..]).Some?
    ensures var (cp, n) := CodePoint(raw[2..]).value;
            && 2 + n <= |raw| && ValidRaw(raw[2+n..]) && |Utf8(cp)| + |Decode(raw[2+n..])| < |Decode(raw)|
  {
    hide Utf8, Decode, ValidRaw, Hex4;
    RawStep(raw);
    var s := raw[2..];
    HexIsPlain(s);
    var (cp, n) := CodePoint(s).value;
    Utf8Short(cp);
    assert s[4..] == raw[6..];
    if n == 10 {
      var t := s[4..];
      RawStep(t);
      assert t[2..] == s[6..];
      HexIsPlain(s[6..]);
      assert s[6..][4..] == raw[12..];
    }
  }

  lemma Utf8Short(cp: nat)
    ensures |Utf8(cp)| <= 4
  {
  }

  /** The index and the reader decode a literal to the same text exactly if it has short escapes only. */
  lemma DecodersAgree(raw: string)
    requires ValidRaw(raw)
    ensures Unescape(raw) == Some(Decode(raw)) <==> ShortOnly(raw)
  {
    if ShortOnly(raw) {
      ShortDecodes(raw);
    }
    if Unescape(raw).Some? {
      ReaderShorter(raw);
    }
  }

  lemma {:induction false} ShortDecodes(raw: string)
    requires ValidRaw(raw) && ShortOnly(raw)
    ensures Unescape(raw).Some?
    decreases |raw|
  {
    if raw != "" {
      UnescapeStep(raw);
      ShortStep(raw);
      ShortDecodes(if raw[0] == '\\' then raw[2..] else raw[1..]);
    }
  }

  /** Any other escape stands for NUL in the index, and nothing else does but NUL itself. */
  lemma {:induction false} NulDecoded(raw: string)
    requires ValidRaw(raw)
    ensures '\0' in Decode(raw) <==> '\0' in raw || !ShortOnly(raw)
    decreases |raw|
  {
    hide ValidRaw, ShortOnly, Decode, EscapeTable;
    RawEnd();
    if raw != "" {
      var w := Width(raw);
      RawStep(raw);
      ShortStep(raw);
      NulDecoded(raw[w..]);
      assert raw == raw[..w] + raw[w..];
      if w == 2 {
        OtherEscape(raw[1]);
        assert raw[..2] == [raw[0], raw[1]];
      } else {
        assert raw[..1] == [raw[0]];
      }
    }
  }

  lemma OtherEscape(c: char)
    ensures EscapeTable(c) == '\0' <==> !IsShort(c)
    ensures !IsShort('\0')
  {
  }

  // ---- Unicode escapes ----

  /** `c` is the hexadecimal digit `d`, in either case. */
  predicate IsHex(c: char, d: nat) {
    d < 16 && (c == "0123456789abcdef"[d] || c == "0123456789ABCDEF"[d])
  }

  lemma HexValueExact(c: char, d: nat)
    ensures HexValue(c) == Some(d) <==> IsHex(c, d)
  {
    if d < 16 {
      var lower, upper := "0123456789abcdef"[d], "0123456789ABCDEF"[d];
      assert lower as int == if d < 10 then 0x30 + d else 0x61 + (d - 10);
      assert upper as int == if d < 10 then 0x30 + d else 0x41 + (d - 10);
    }
  }

  /** The text begins with four hexadecimal digits for `u`. */
  predicate FourHex(s: string, u: nat) {
    && |s| >= 4 && u < 0x10000
    && IsHex(s[0], u / 0x1000) && IsHex(s[1], u / 0x100 % 0x10) && IsHex(s[2], u / 0x10 % 0x10) && IsHex(s[3], u % 0x10)
  }

  lemma HexStep(s: string, i: nat, acc: nat)
    requires i < |s|
    ensures Hex(s[i..], acc) == match HexValue(s[i])
                                case None => None
                                case Some(d) => Hex(s[i+1..], acc * 16 + d)
    ensures Hex(s[|s|..], acc) == Some(acc)
  {
    assert s[i..][0] == s[i] && s[i..][1..] == s[i+1..];
  }

  lemma Hex4Steps(s: string)
    requires |s| >= 4
    ensures forall i | 0 <= i < 4 && HexValue(s[i]).None? :: Hex4(s) == None
    ensures (forall i | 0 <= i < 4 :: HexValue(s[i]).Some?) ==>
              Hex4(s) == Some(((HexValue(s[0]).value * 16 + HexValue(s[1]).value) * 16 + HexValue(s[2]).value) * 16
                              + HexValue(s[3]).value)
  {
    hide Hex, HexValue;
    var h := s[..4];
    assert forall i | 0 <= i < 4 :: h[i] == s[i];
    if Hex4(s).Some? {
      HexDigitsOnly(h, 0);
    }
    assert h[0..] == h && h[4..] == h[|h|..];
    if forall i | 0 <= i < 4 :: HexValue(s[i]).Some? {
      var a := HexValue(h[0]).value;
      var b := a * 16 + HexValue(h[1]).value;
      var c := b * 16 + HexValue(h[2]).value;
      HexStep(h, 0, 0);
      HexStep(h, 1, a);
      HexStep(h, 2, b);
      HexStep(h, 3, c);
      HexStep(h, 0, c * 16 + HexValue(h[3]).value);
    }
  }

  /** Four digits are read as a number exactly if they spell it, in whatever case. */
  lemma Hex4Exact(s: string, u: nat)
    ensures Hex4(s) == Some(u) <==> FourHex(s, u)
  {
    hide HexValue, IsHex, Hex4;
    if |s| >= 4 {
      Hex4Steps(s);
      HexValueExact(s[0], u / 0x1000);
      HexValueExact(s[1], u / 0x100 % 0x10);
      HexValueExact(s[2], u / 0x10 % 0x10);
      HexValueExact(s[3], u % 0x10);
      if forall i | 0 <= i < 4 :: HexValue(s[i]).Some? {
        FourDigits(HexValue(s[0]).value, HexValue(s[1]).value, HexValue(s[2]).value, HexValue(s[3]).value, u);
        HexBounded(s[0]);
        HexBounded(s[1]);
        HexBounded(s[2]);
        HexBounded(s[3]);
      }
    } else {
      TooShort(s);
    }
  }

  lemma TooShort(s: string)
    ensures |s| < 4 ==> Hex4(s) == None
  {
  }

  lemma FourDigits(a: nat, b: nat, c: nat, d: nat, u: nat)
    ensures a < 16 && b < 16 && c < 16 && d < 16 ==>
              (u == ((a * 16 + b) * 16 + c) * 16 + d <==>
               u < 0x10000 && a == u / 0x1000 && b == u / 0x100 % 0x10 && c == u / 0x10 % 0x10 && d == u % 0x10)
  {
    var q, r, t := u / 0x10, u / 0x100, u / 0x1000;
    assert r == q / 0x10 && t == r / 0x10;
    LastDigit(a * 16 + b, c, q);
    LastDigit((a * 16 + b) * 16 + c, d, u);
    LastDigit(a, b, r);
  }

  lemma LastDigit(q: nat, d: nat, u: nat)
    ensures d < 16 ==> (u == q * 16 + d <==> u / 16 == q && u % 16 == d)
  {
  }

  lemma HexBounded(c: char)
    ensures HexValue(c).Some? ==> HexValue(c).value < 16
  {
  }

  /** The surrogate halves of a code point beyond the basic plane, section 7 of RFC 8259. */
  function High(cp: nat): nat
    requires cp >= 0x10000
  {
    0xD800 + (cp - 0x10000) / 0x400
  }

  function Low(cp: nat): nat
    requires cp >= 0x10000
  {
    0xDC00 + (cp - 0x10000) % 0x400
  }

  /** Joining the two halves of a code point gives it back. */
  lemma SurrogatesJoin(cp: nat)
    requires 0x10000 <= cp <= 0x10FFFF
    ensures 0xD800 <= High(cp) <= 0xDBFF && 0xDC00 <= Low(cp) <= 0xDFFF
    ensures Surrogates(High(cp), Low(cp)) == cp
  {
    var a, b := (cp - 0x10000) / 0x400, (cp - 0x10000) % 0x400;
    assert High(cp) == 0xD800 + a && Low(cp) == 0xDC00 + b;
    assert High(cp) % 0x400 == a && Low(cp) % 0x400 == b;
  }

  /** The text begins with a backslash, a `u` and four digits for `u`. */
  predicate EscapeOf(s: string, u: nat) {
    |s| >= 6 && s[0] == '\\' && s[1] == 'u' && FourHex(s[2..], u)
  }

  /** The text is a unicode escape for the code point: one of six characters, or a surrogate pair. */
  predicate UnicodeFor(s: string, cp: nat) {
    if cp < 0x10000 then |s| == 6 && EscapeOf(s, cp)
    else cp <= 0x10FFFF && |s| == 12 && EscapeOf(s, High(cp)) && EscapeOf(s[6..], Low(cp))
  }

  /** A unicode escape for a code point decodes to its UTF-8 form, whatever follows. */
  lemma UnicodeUndone(s: string, cp: nat, rest: string)
    requires UnicodeFor(s, cp) && !(0xD800 <= cp <= 0xDBFF)
    ensures Unescape(s + rest) == Prepend(Utf8(cp), Unescape(rest))
  {
    hide FourHex, Utf8, Hex4, Surrogates, CodePoint, Unescape, High, Low;
    var t := s + rest;
    UnescapeAt(t, 0);
    assert t[0..] == t;
    CodePointAt(t, 2);
    if cp < 0x10000 {
      FourHexMore(s, 2, t);
      Hex4Exact(t[2..], cp);
      assert t[6..] == rest;
    } else {
      FourHexMore(s, 2, t);
      assert s[6..][2..] == s[8..];
      FourHexMore(s, 8, t);
      Hex4Exact(t[2..], High(cp));
      Hex4Exact(t[8..], Low(cp));
      SurrogatesJoin(cp);
      assert t[6] == s[6..][0] && t[7] == s[6..][1];
      assert t[12..] == rest;
    }
  }

  lemma FourHexMore(s: string, at: nat, t: string)
    requires at + 4 <= |s| <= |t| && t[..|s|] == s
    ensures forall u: nat :: FourHex(t[at..], u) <==> FourHex(s[at..], u)
  {
    assert forall i | 0 <= i < 4 :: t[at..][i] == t[..|s|][at+i] == s[at..][i];
  }

  /** The first half of a pair is decoded only if another escape of four digits follows. */
  lemma LoneHalf(s: string, u: nat, rest: string)
    requires |s| == 6 && EscapeOf(s, u) && 0xD800 <= u <= 0xDBFF
    ensures Unescape(s + rest) == None <==>
            (forall w: nat :: !EscapeOf(rest, w)) || Unescape(rest[6..]) == None
  {
    hide FourHex, Utf8, Hex4, Surrogates, CodePoint, Unescape;
    var t := s + rest;
    UnescapeAt(t, 0);
    assert t[0..] == t;
    CodePointAt(t, 2);
    FourHexMore(s, 2, t);
    Hex4Exact(t[2..], u);
    assert t[6..] == rest;
    if |rest| >= 6 && rest[0] == '\\' && rest[1] == 'u' {
      assert t[6] == rest[0] && t[7] == rest[1] && t[8..] == rest[2..] && t[12..] == rest[6..];
      var w := Hex4(rest[2..]);
      forall x: nat
        ensures EscapeOf(rest, x) <==> w == Some(x)
      {
        Hex4Exact(rest[2..], x);
      }
      if w.Some? {
        assert EscapeOf(rest, w.value);
      }
    } else if |rest| >= 6 {
      assert t[6] == rest[0] && t[7] == rest[1];
    }
  }

  // ---- UTF-8 ----

  /** A byte that continues a sequence. */
  predicate Continues(c: char) { 0x80 <= c as int < 0xC0 }

  function SixBits(c: char): nat
    requires Continues(c)
  {
    c as int - 0x80
  }

  /** The first code point of a UTF-8 text, in its shortest form as section 3 of RFC 3629 has it, and the rest. */
  function FromUtf8(s: string): Option<(nat, string)> {
    if s == "" then None
    else
      var b := s[0] as int;
      if b < 0x80 then Some((b, s[1..]))
      else if 0xC2 <= b < 0xE0 && |s| >= 2 && Continues(s[1]) then
        Some(((b - 0xC0) * 0x40 + SixBits(s[1]), s[2..]))
      else if 0xE0 <= b < 0xF0 && |s| >= 3 && Continues(s[1]) && Continues(s[2]) then
        var cp := ((b - 0xE0) * 0x40 + SixBits(s[1])) * 0x40 + SixBits(s[2]);
        if cp >= 0x800 then Some((cp, s[3..])) else None
      else if 0xF0 <= b < 0xF5 && |s| >= 4 && Continues(s[1]) && Continues(s[2]) && Continues(s[3]) then
        var cp := (((b - 0xF0) * 0x40 + SixBits(s[1])) * 0x40 + SixBits(s[2])) * 0x40 + SixBits(s[3]);
        if 0x10000 <= cp <= 0x10FFFF then Some((cp, s[4..])) else None
      else None
  }

  /** A code point is written as UTF-8, whatever text follows. */
  lemma Utf8Undone(cp: nat, rest: string)
    requires cp <= 0x10FFFF
    ensures FromUtf8(Utf8(cp) + rest) == Some((cp, rest))
  {
    hide Utf8, FromUtf8;
    if cp <= 0x7FF {
      Utf8Low(cp, rest);
    } else if cp <= 0xFFFF {
      Utf8Three(cp, rest);
    } else {
      Utf8Four(cp, rest);
    }
  }

  lemma Utf8Low(cp: nat, rest: string)
    requires cp <= 0x7FF
    ensures FromUtf8(Utf8(cp) + rest) == Some((cp, rest))
  {
    Sixes(cp);
    var u := Utf8(cp);
    var s := u + rest;
    assert s[|u|..] == rest && s[0] == u[0] && (|u| == 2 ==> s[1] == u[1]);
  }

  lemma Utf8Three(cp: nat, rest: string)
    requires 0x800 <= cp <= 0xFFFF
    ensures FromUtf8(Utf8(cp) + rest) == Some((cp, rest))
  {
    Sixes(cp);
    var u := Utf8(cp);
    var s := u + rest;
    assert s[3..] == rest && s[0] == u[0] && s[1] == u[1] && s[2] == u[2];
  }

  lemma Utf8Four(cp: nat, rest: string)
    requires 0x10000 <= cp <= 0x10FFFF
    ensures FromUtf8(Utf8(cp) + rest) == Some((cp, rest))
  {
    Sixes(cp);
    var u := Utf8(cp);
    var s := u + rest;
    assert s[4..] == rest && s[0] == u[0] && s[1] == u[1] && s[2] == u[2] && s[3] == u[3];
  }

  /** A number in groups of six bits. */
  lemma Sixes(cp: nat)
    ensures cp == cp / 0x40 * 0x40 + cp % 0x40
    ensures cp == (cp / 0x1000 * 0x40 + cp / 0x40 % 0x40) * 0x40 + cp % 0x40
    ensures cp == ((cp / 0x40000 * 0x40 + cp / 0x1000 % 0x40) * 0x40 + cp / 0x40 % 0x40) * 0x40 + cp % 0x40
  {
    var a, b := cp / 0x40, cp / 0x1000;
    assert b == a / 0x40 && cp / 0x40000 == b / 0x40;
  }

  function AllUtf8(cps: seq<nat>): string {
    if cps == [] then "" else Utf8(cps[0]) + AllUtf8(cps[1..])
  }

  function AllFromUtf8(s: string): Option<seq<nat>>
    decreases |s|
  {
    if s == "" then Some([])
    else match FromUtf8(s)
         case None => None
         case Some((cp, rest)) =>
           FromUtf8Shorter(s);
           (match AllFromUtf8(rest) case None => None case Some(more) => Some([cp] + more))
  }

  lemma FromUtf8Shorter(s: string)
    requires FromUtf8(s).Some?
    ensures |FromUtf8(s).value.1| < |s|
  {
  }

  function Concat(parts: seq<string>): string {
    if parts == [] then "" else parts[0] + Concat(parts[1..])
  }

  /** A text of unicode escapes is decoded to the UTF-8 text of their code points. */
  lemma {:induction false} EscapedCodePoints(parts: seq<string>, cps: seq<nat>)
    requires |parts| == |cps|
    requires forall i | 0 <= i < |cps| :: UnicodeFor(parts[i], cps[i]) && !(0xD800 <= cps[i] <= 0xDBFF)
    ensures Unescape(Concat(parts)).Some? && AllFromUtf8(Unescape(Concat(parts)).value) == Some(cps)
    decreases |parts|
  {
    hide UnicodeFor, Utf8, FromUtf8, Unescape;
    if parts == [] {
      RawEnd();
    } else {
      EscapedCodePoints(parts[1..], cps[1..]);
      UnicodeUndone(parts[0], cps[0], Concat(parts[1..]));
      var rest := Unescape(Concat(parts[1..])).value;
      UnicodeBound(parts[0], cps[0]);
      Utf8Undone(cps[0], rest);
      assert cps == [cps[0]] + cps[1..];
    }
  }

  lemma UnicodeBound(s: string, cp: nat)
    requires UnicodeFor(s, cp)
    ensures cp <= 0x10FFFF && |Utf8(cp)| > 0
  {
  }

  // ---- What the writer writes ----

  predicate HasShort(c: char) {
    c as int == 8 || c as int == 9 || c as int == 10 || c as int == 12 || c as int == 13
  }

  lemma EscapeCharClean(c: char, rest: string)
    requires c != '\0' && ValidRaw(rest)
    ensures ValidRaw(EscapeChar(c) + rest) && forall x | x in EscapeChar(c) :: 0x20 <= x as int
    ensures ShortOnly(EscapeChar(c) + rest) <==> (c as int >= 0x20 || HasShort(c)) && ShortOnly(rest)
  {
    hide ValidRaw, ShortOnly;
    var e := EscapeChar(c);
    var s := e + rest;
    RawCons(e, rest);
    if |e| == 6 {
      var t := e[2..] + rest;
      assert s == e[..2] + t;
      RawCons(e[..2], t);
      FourPlain(e[2..], rest);
    }
    SameTables('u');
  }

  /** A character or an escape in front of a literal. */
  lemma RawCons(e: string, rest: string)
    ensures |e| == 1 && e[0] != '\\' && e[0] != '"' ==>
              && (ValidRaw(e + rest) <==> ValidRaw(rest))
              && (ValidRaw(rest) ==> (ShortOnly(e + rest) <==> ShortOnly(rest)))
    ensures |e| == 2 && e[0] == '\\' ==>
              && (ValidRaw(e + rest) <==> ValidRaw(rest))
              && (ValidRaw(rest) ==> (ShortOnly(e + rest) <==> IsShort(e[1]) && ShortOnly(rest)))
  {
    hide IsShort;
    var s := e + rest;
    assert s[|e|..] == rest && forall i | 0 <= i < |e| :: s[i] == e[i];
  }

  lemma FourPlain(e: string, rest: string)
    requires |e| == 4 && ValidRaw(rest) && forall i | 0 <= i < 4 :: e[i] != '\\' && e[i] != '"'
    ensures ValidRaw(e + rest)
  {
    hide ValidRaw;
    RawCons([e[3]], rest);
    RawCons([e[2]], [e[3]] + rest);
    RawCons([e[1]], [e[2]] + ([e[3]] + rest));
    RawCons([e[0]], [e[1]] + ([e[2]] + ([e[3]] + rest)));
    assert e + rest == [e[0]] + ([e[1]] + ([e[2]] + ([e[3]] + rest)));
  }

  /** A written string is JSON: no bare control character, no bare quote, no lone backslash. */
  lemma {:induction false} EscapeClean(s: string)
    requires '\0' !in s
    ensures ValidRaw(Escape(s)) && forall x | x in Escape(s) :: 0x20 <= x as int
    ensures ShortOnly(Escape(s)) <==> forall c | c in s :: c as int >= 0x20 || HasShort(c)
  {
    hide EscapeChar, ValidRaw, ShortOnly, HasShort;
    RawEnd();
    if s != "" {
      assert s[0] in s;
      EscapeClean(s[1..]);
      EscapeCharClean(s[0], Escape(s[1..]));
      assert forall c :: c in s <==> c == s[0] || c in s[1..];
    }
  }

  /** The index decodes a written string to the string exactly if its control characters all have short escapes. */
  lemma WrittenForIndex(s: string)
    requires '\0' !in s
    ensures ValidRaw(Escape(s))
    ensures Decode(Escape(s)) == s <==> forall c | c in s :: c as int >= 0x20 || HasShort(c)
  {
    hide ValidRaw, Escape, Decode, ShortOnly, HasShort, Unescape;
    EscapeClean(s);
    UnescapeEscape(s);
    DecodersAgree(Escape(s));
  }

  /** The escapes the writer uses, spelled out; everything else is written as it is. */
  lemma EscapeCharIs(c: char)
    ensures '\0' < c && c as int < 0x20 && !HasShort(c) ==>
              EscapeChar(c) == "\\u00" + ["01"[c as int / 16], "0123456789ABCDEF"[c as int % 16]]
    ensures HasShort(c) || c == '"' || c == '\\' ==> EscapeChar(c) == ShortForm(c)
    ensures c as int >= 0x20 && c != '"' && c != '\\' ==> EscapeChar(c) == [c]
  {
    var d := c as int % 16;
    assert "0123456789ABCDEF"[d] as int == if d < 10 then 0x30 + d else 0x41 + (d - 10);
  }
}
