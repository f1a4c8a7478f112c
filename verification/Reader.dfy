/**
 The recursive-descent JSON reader with its error recovery. Every read method moves
 the cursor and records errors; the node being filled in is passed in and handed back.
 */
module Reader {
  import opened Basics
  import opened JsonValue
  import opened FastWriter
  import opened ReaderSpec
  import opened Written
  import opened Grammar

  datatype Features = Features(allowComments: bool, strictRoot: bool)

  class Reader {
    const doc: string
    const features: Features
    const scan: Scan
    var current: nat
    var errors: seq<ErrorInfo>

    constructor (doc: string, features: Features, scan: Scan)
      ensures this.doc == doc && this.features == features && this.scan == scan
      ensures current == 0 && errors == []
    {
      this.doc, this.features, this.scan := doc, features, scan;
      current, errors := 0, [];
    }

    method GetNextChar() returns (c: char)
      requires current <= |doc|
      modifies this`current
      ensures c == Ch(doc, old(current))
      ensures current == if old(current) < |doc| then old(current) + 1 else old(current)
    {
      if current == |doc| {
        return '\0';
      }
      c := doc[current];
      current := current + 1;
    }

    method SkipSpaces()
      requires current <= |doc|
      modifies this`current
      ensures current == SpaceEnd(doc, old(current))
    {
      while current != |doc|
        invariant current <= |doc| && SpaceEnd(doc, current) == SpaceEnd(doc, old(current))
        decreases |doc| - current
      {
        var c := doc[current];
        if c == ' ' || c == '\t' || c == '\r' || c == '\n' {
          current := current + 1;
        } else {
          break;
        }
      }
    }

    method Match(pattern: string) returns (ok: bool)
      requires current <= |doc|
      modifies this`current
      ensures ok <==> PrefixAt(doc, old(current), pattern)
      ensures current == old(current) + if ok then |pattern| else 0
    {
      if |doc| - current < |pattern| {
        return false;
      }
      var index := |pattern|;
      while index > 0
        invariant 0 <= index <= |pattern|
        invariant doc[current+index..current+|pattern|] == pattern[index..]
      {
        index := index - 1;
        if doc[current+index] != pattern[index] {
          assert doc[current..current+|pattern|][index] != pattern[index];
          return false;
        }
        assert doc[current+index..current+|pattern|] == [doc[current+index]] + doc[current+index+1..current+|pattern|];
      }
      current := current + |pattern|;
      return true;
    }

    method ReadCStyleComment() returns (ok: bool)
      requires current <= |doc|
      modifies this`current
      ensures var k := StarEnd(doc, old(current));
              current == Behind(doc, k) && (ok <==> Ch(doc, k) == '/')
    {
      while current != |doc|
        invariant old(current) <= current <= |doc| && StarEnd(doc, current) == StarEnd(doc, old(current))
        decreases |doc| - current
      {
        var c := GetNextChar();
        if c == '*' && Ch(doc, current) == '/' {
          assert StarEnd(doc, old(current)) == current;
          break;
        }
      }
      assert current == StarEnd(doc, old(current));
      var last := GetNextChar();
      return last == '/';
    }

    method ReadCppStyleComment()
      requires current <= |doc|
      modifies this`current
      ensures current == LineEnd(doc, old(current))
    {
      while current != |doc|
        invariant old(current) <= current <= |doc| && LineEnd(doc, current) == LineEnd(doc, old(current))
        decreases |doc| - current
      {
        var c := GetNextChar();
        if c == '\r' || c == '\n' {
          return;
        }
      }
    }

    method ReadComment() returns (ok: bool)
      requires current <= |doc|
      modifies this`current
      ensures (ok, current) == CommentAt(doc, old(current))
    {
      var c := GetNextChar();
      ok := false;
      if c == '*' {
        ok := ReadCStyleComment();
      } else if c == '/' {
        ReadCppStyleComment();
        ok := true;
      }
    }

    method ReadNumber()
      requires current <= |doc|
      modifies this`current
      ensures current == NumberEnd(doc, old(current))
    {
      while current != |doc|
        invariant current <= |doc| && NumberEnd(doc, current) == NumberEnd(doc, old(current))
        decreases |doc| - current
      {
        var c := doc[current];
        if !('0' <= c <= '9') && c != '.' && c != 'e' && c != 'E' && c != '+' && c != '-' {
          break;
        }
        current := current + 1;
      }
    }

    method ReadString() returns (ok: bool)
      requires current <= |doc|
      modifies this`current
      ensures old(current) <= current <= |doc|
      ensures ok <==> StringEnd(doc, old(current)).Some?
      ensures current == if ok then StringEnd(doc, old(current)).value else |doc|
    {
      var c := '\0';
      while current != |doc|
        invariant old(current) <= current <= |doc| && c != '"'
        invariant StringEnd(doc, current) == StringEnd(doc, old(current))
        decreases |doc| - current
      {
        c := GetNextChar();
        if c == '\\' {
          var _ := GetNextChar();
        } else if c == '"' {
          break;
        }
      }
      return c == '"';
    }

    /** Reads one token. It always succeeds: an unreadable token has the error kind. */
    method ReadToken() returns (token: Token)
      requires current <= |doc|
      modifies this`current
      ensures current == token.end && Lexed(doc, old(current), token)
    {
      hide SpaceEnd, NumberEnd, StringEnd, CommentAt;
      SkipSpaces();
      var start := current;
      var c := GetNextChar();
      var good := true;
      var kind := ErrorToken;
      if c == '{' {
        kind := ObjectBegin;
      } else if c == '}' {
        kind := ObjectEnd;
      } else if c == '[' {
        kind := ArrayBegin;
      } else if c == ']' {
        kind := ArrayEnd;
      } else if c == '"' {
        kind := StringToken;
        good := ReadString();
      } else if c == '/' {
        kind := CommentToken;
        good := ReadComment();
      } else if '0' <= c <= '9' || c == '-' {
        kind := NumberToken;
        ReadNumber();
      } else if c == 't' {
        kind := TrueToken;
        good := Match("rue");
      } else if c == 'f' {
        kind := FalseToken;
        good := Match("alse");
      } else if c == 'n' {
        kind := NullToken;
        good := Match("ull");
      } else if c == ',' {
        kind := ArraySeparator;
      } else if c == ':' {
        kind := MemberSeparator;
      } else if c == '\0' {
        kind := EndOfStream;
      } else {
        good := false;
      }
      if !good {
        kind := ErrorToken;
      }
      token := Token(kind, start, current);
    }

    /** Replaces a comment token by the first one behind it that is not a comment. */
    method SkipComments(first: Token) returns (token: Token)
      requires first.end == current && TokenOk(doc, first)
      modifies this`current
      ensures token == Uncommented(doc, first) && token.end == current && TokenOk(doc, token)
    {
      hide TokenAt;
      token := first;
      while token.kind == CommentToken
        invariant token.end == current && TokenOk(doc, token) && Uncommented(doc, token) == Uncommented(doc, first)
        decreases |doc| - current, token.kind == CommentToken
      {
        ghost var from := current;
        token := ReadToken();
        LexedOk(doc, from, token);
      }
    }

    method SkipCommentTokens() returns (token: Token)
      requires current <= |doc|
      modifies this`current
      ensures old(current) <= token.start && token.end == current && TokenOk(doc, token)
      ensures token == if features.allowComments then NextToken(doc, old(current)) else TokenAt(doc, old(current))
      ensures SpaceEnd(doc, old(current)) < |doc| && doc[SpaceEnd(doc, old(current))] != '/' ==>
                Lexed(doc, old(current), token)
    {
      token := ReadToken();
      LexedOk(doc, old(current), token);
      if features.allowComments {
        token := SkipComments(token);
      }
    }

    method AddError(message: Message, token: Token) returns (ok: bool)
      modifies this`errors
      ensures !ok && errors == old(errors) + [ErrorInfo(message, token)]
    {
      errors := errors + [ErrorInfo(message, token)];
      return false;
    }

    /** Skips tokens up to and including the first of the given kind or the end, and adds no error. */
    method RecoverFromError(until: TokenType) returns (ok: bool)
      requires current <= |doc|
      modifies this
      ensures !ok && errors == old(errors) && old(current) <= current <= |doc|
      ensures current == SkipEnd(doc, old(current), until)
    {
      hide TokenAt;
      var errorCount := |errors|;
      while true
        invariant errors == old(errors) && old(current) <= current <= |doc|
        invariant SkipEnd(doc, current, until) == SkipEnd(doc, old(current), until)
        decreases |doc| - current
      {
        var skip := ReadToken();
        if skip.kind == until || skip.kind == EndOfStream {
          break;
        }
      }
      errors := errors[..errorCount];
      return false;
    }

    method AddErrorAndRecover(message: Message, token: Token, until: TokenType) returns (ok: bool)
      requires current <= |doc|
      modifies this
      ensures !ok && errors == old(errors) + [ErrorInfo(message, token)] && old(current) <= current <= |doc|
      ensures current == SkipEnd(doc, old(current), until)
    {
      var _ := AddError(message, token);
      ok := RecoverFromError(until);
    }

    // ---- Decoding ----

    method DecodeDouble(token: Token) returns (ok: bool, v: Value)
      requires token.start <= token.end <= |doc|
      modifies this`errors
      ensures var r := scan(doc[token.start..token.end]);
              if r.Some? then ok && v == Real(r.value) && errors == old(errors)
              else !ok && errors == old(errors) + [ErrorInfo(IsNotANumber, token)]
    {
      var r := scan(doc[token.start..token.end]);
      v := Null;
      if r.None? {
        ok := AddError(IsNotANumber, token);
        return;
      }
      return true, Real(r.value);
    }

    method DecodeNumber(token: Token) returns (ok: bool, v: Value)
      requires token.start < token.end <= |doc|
      modifies this`errors
      ensures match NumberOf(doc[token.start..token.end])
              case Exact(n) => ok && v == n
              case NotANumber => !ok
              case Double => var r := scan(doc[token.start..token.end]); if r.Some? then ok
                && v == Real(r.value) else !ok
      ensures errors == old(errors) + if ok then [] else [ErrorInfo(IsNotANumber, token)]
    {
      var s := doc[token.start..token.end];
      var isDouble := false;
      for inspect := 0 to |s|
        invariant isDouble <==> exists i | 0 <= i < inspect ::
          s[i] == '.' || s[i] == 'e' || s[i] == 'E' || s[i] == '+' || (s[i] == '-' && i > 0)
      {
        isDouble := isDouble || s[inspect] == '.' || s[inspect] == 'e' || s[inspect] == 'E' || s[inspect] == '+'
                    || (s[inspect] == '-' && inspect != 0);
      }
      if isDouble {
        ok, v := DecodeDouble(token);
        return;
      }
      assert !LooksDouble(s);
      var isNegative := s[0] == '-';
      var at := if isNegative then 1 else 0;
      var threshold: nat := (if isNegative then -MIN_INT else MAX_UINT) / 10;
      var value: nat := 0;
      ghost var digits := s[at..];
      while at < |s|
        invariant 0 <= at <= |s|
        invariant Accumulate(s[at..], value, threshold) == Accumulate(digits, 0, threshold)
      {
        var c := s[at];
        assert s[at..][0] == c && s[at..][1..] == s[at+1..];
        at := at + 1;
        if c < '0' || c > '9' {
          v := Null;
          ok := AddError(IsNotANumber, token);
          return;
        }
        if value >= threshold {
          ok, v := DecodeDouble(token);
          return;
        }
        value := value * 10 + (c as int - '0' as int);
      }
      assert s[0..] == s;
      if isNegative {
        v := Int(0 - value);
      } else if value <= MAX_INT {
        v := Int(value);
      } else {
        v := UInt(value);
      }
      ok := true;
    }

    /** Four hexadecimal digits of `s` from `at` on. */
    method DecodeHex4(s: string, at: nat, token: Token) returns (ok: bool, unicode: nat)
      requires at <= |s|
      modifies this`errors
      ensures errors == old(errors) + if ok then [] else [ErrorInfo(HexMessage(s[at..]), token)]
      ensures ok <==> Hex4(s[at..]).Some?
      ensures ok ==> unicode == Hex4(s[at..]).value
    {
      unicode := 0;
      if |s| - at < 4 {
        ok := AddError(FourDigitsExpected, token);
        return;
      }
      ghost var h := s[at..][..4];
      for index := 0 to 4
        invariant errors == old(errors) && Hex(h[index..], unicode) == Hex(h, 0)
      {
        var c := s[at+index];
        assert h[index..][0] == c && h[index..][1..] == h[index+1..];
        unicode := unicode * 16;
        if '0' <= c <= '9' {
          unicode := unicode + (c as int - '0' as int);
        } else if 'a' <= c <= 'f' {
          unicode := unicode + (c as int - 'a' as int) + 10;
        } else if 'A' <= c <= 'F' {
          unicode := unicode + (c as int - 'A' as int) + 10;
        } else {
          ok := AddError(HexadecimalDigitExpected, token);
          return;
        }
      }
      assert h[4..] == "";
      ok := true;
    }

    method DecodeCodePoint(s: string, at: nat, token: Token) returns (ok: bool, unicode: nat, next: nat)
      requires at <= |s|
      modifies this`errors
      ensures errors == old(errors) + if ok then [] else [ErrorInfo(CodePointMessage(s[at..]), token)]
      ensures ok <==> CodePoint(s[at..]).Some?
      ensures ok ==> CodePoint(s[at..]) == Some((unicode, next - at)) && at <= next <= |s|
    {
      hide Hex, Hex4, CodePoint, HexMessage;
      CodePointAt(s, at);
      assert |s[at..]| >= 10 ==> s[at..][4] == s[at+4] && s[at..][5] == s[at+5] && s[at..][6..] == s[at+6..];
      next := at;
      ok, unicode := DecodeHex4(s, at, token);
      if !ok {
        return;
      }
      next := at + 4;
      if 0xD800 <= unicode <= 0xDBFF {
        if |s| - next < 6 {
          ok := AddError(SixCharactersExpected, token);
          return;
        }
        if s[next] == '\\' && s[next+1] == 'u' {
          var pair;
          ok, pair := DecodeHex4(s, next + 2, token);
          if !ok {
            return;
          }
          unicode := 0x10000 + unicode % 0x400 * 0x400 + pair % 0x400;
          next := next + 6;
        } else {
          ok := AddError(SecondHalfExpected, token);
          return;
        }
      }
      ok := true;
    }

    /** The bytes are filled in from the last one; a code point out of range has none. */
    static method CodePointToUtf8(cp: nat) returns (s: string)
      ensures s == Utf8(cp)
    {
      var result: array<char>;
      if cp <= 0x7F {
        result := new char[1];
        result[0] := cp as char;
      } else if cp <= 0x7FF {
        result := new char[2];
        result[1] := (0x80 + cp % 0x40) as char;
        result[0] := (0xC0 + cp / 0x40) as char;
      } else if cp <= 0xFFFF {
        result := new char[3];
        result[2] := (0x80 + cp % 0x40) as char;
        result[1] := (0x80 + cp / 0x40 % 0x40) as char;
        result[0] := (0xE0 + cp / 0x1000) as char;
      } else if cp <= 0x10FFFF {
        result := new char[4];
        result[3] := (0x80 + cp % 0x40) as char;
        result[2] := (0x80 + cp / 0x40 % 0x40) as char;
        result[1] := (0x80 + cp / 0x1000 % 0x40) as char;
        result[0] := (0xF0 + cp / 0x40000) as char;
      } else {
        result := new char[0];
      }
      s := result[..];
    }

    method DecodeString(token: Token) returns (ok: bool, decoded: string)
      requires token.start + 1 < token.end <= |doc|
      modifies this`errors
      ensures errors == old(errors) +
              if ok then [] else [ErrorInfo(LiteralMessage(doc[token.start+1..token.end-1]), token)]
      ensures ok <==> Unescape(doc[token.start+1..token.end-1]).Some?
      ensures ok ==> Unescape(doc[token.start+1..token.end-1]) == Some(decoded)
    {
      hide CodePoint, Utf8, Unescape, Prepend, LiteralMessage, CodePointMessage;
      var s := doc[token.start+1..token.end-1];
      decoded := "";
      var at := 0;
      assert s[0..] == s;
      PrependConcat("", "", Unescape(s));
      while at != |s|
        invariant 0 <= at <= |s| && errors == old(errors)
        invariant Unescape(s) == Prepend(decoded, Unescape(s[at..])) && LiteralMessage(s) == LiteralMessage(s[at..])
        decreases |s| - at
      {
        UnescapeAt(s, at);
        LiteralMessageAt(s, at);
        PrependNone(decoded);
        var c := s[at];
        at := at + 1;
        if c == '"' {
          return true, decoded;
        } else if c == '\\' {
          if at == |s| {
            ok := AddError(EmptyEscape, token);
            return;
          }
          var escape := s[at];
          at := at + 1;
          if escape == 'u' {
            var unicode, next;
            ok, unicode, next := DecodeCodePoint(s, at, token);
            if !ok {
              return;
            }
            PrependConcat(decoded, Utf8(unicode), Unescape(s[next..]));
            var bytes := CodePointToUtf8(unicode);
            decoded := decoded + bytes;
            at := next;
          } else {
            var d: char;
            match escape {
              case '"' => d := '"';
              case '/' => d := '/';
              case '\\' => d := '\\';
              case 'b' => d := 8 as char;
              case 'f' => d := 12 as char;
              case 'n' => d := '\n';
              case 'r' => d := '\r';
              case 't' => d := '\t';
              case _ =>
                ok := AddError(BadEscape, token);
                return;
            }
            PrependConcat(decoded, [d], Unescape(s[at..]));
            decoded := decoded + [d];
          }
        } else {
          PrependConcat(decoded, [c], Unescape(s[at..]));
          decoded := decoded + [c];
        }
      }
      PrependNone(decoded);
      assert s[at..] == "";
      ok := true;
    }

    // ---- The mutually recursive readers ----

    /** Reads one value into a node that holds `node`. */
    method ReadValue(node: Value) returns (ok: bool, v: Value)
      requires current <= |doc|
      modifies this
      ensures old(current) <= current <= |doc|
      ensures errors == old(errors) +
              if ok then [] else [ValueComplaint(doc, old(current), features.allowComments, scan)]
      ensures match ValueAt(doc, old(current), features.allowComments, scan)
              case None => !ok
              case Some((w, end)) => ok && v == w && current == end
      ensures var t := FirstToken(doc, old(current), features.allowComments);
              !ok && t.kind != ArrayBegin && t.kind != ObjectBegin ==> v == node
      decreases |doc| - current, 0
    {
      hide NumberOf, Unescape, SpaceEnd, TokenAt, NextToken, ArrayFrom, MembersFrom, ItemsComplaint, MembersComplaint,
           LiteralMessage;
      var token := SkipCommentTokens();
      TokenBounds(doc, token);
      v := node;
      match token.kind {
        case ObjectBegin =>
          ok, v := ReadObject(token);
        case ArrayBegin =>
          ghost var separators, ends;
          ok, v, separators, ends := ReadArray(token);
        case NumberToken =>
          ok, v := DecodeNumber(token);
          v := if ok then v else node;
        case StringToken =>
          var decoded;
          ok, decoded := DecodeString(token);
          v := if ok then String(decoded) else node;
        case TrueToken =>
          ok, v := true, Boolean(true);
        case FalseToken =>
          ok, v := true, Boolean(false);
        case NullToken =>
          ok, v := true, Null;
        case _ =>
          ok := AddError(ValueExpected, token);
      }
    }

    /** The token behind an element, with the comments before it skipped. */
    method ReadSeparator() returns (token: Token)
      requires current <= |doc|
      modifies this`current
      ensures token == NextToken(doc, old(current)) && current == token.end && token.kind != CommentToken
      ensures old(current) <= current <= |doc|
    {
      hide TokenAt;
      ghost var i := current;
      var first := ReadToken();
      LexedOk(doc, i, first);
      token := SkipComments(first);
    }

    /**
     Reads an array. Element `k` ends at `ends[k]`, and the first token behind it that is no
     comment is `separators[k]`. Whatever that token is, it leads on to the next element,
     unless it is the closing bracket, which ends the array.
     */
    method ReadArray(tokenStart: Token) returns (ok: bool, v: Value, ghost separators: seq<Token>, ghost ends: seq<nat>)
      requires current <= |doc|
      modifies this
      ensures old(current) <= current <= |doc|
      ensures errors == old(errors) +
              if ok then [] else [ItemsComplaint(doc, old(current), features.allowComments, scan)]
      ensures match ArrayFrom(doc, old(current), features.allowComments, scan)
              case None => !ok
              case Some((w, end)) => ok && v == w && current == end
      ensures !ok ==> SkippedTo(doc, old(current), ArrayEnd, current)
      ensures ok ==> v.Array? && Separated(doc, old(current), separators, ends, |v.items|, current)
      decreases |doc| - current, 1
    {
      hide SpaceEnd, TokenAt, Uncommented, NextToken, Underway, Separated, ValueAt, ValueComplaint, SkippedTo, SkipEnd,
           ItemsFrom, ItemsComplaint;
      var items := [];
      separators, ends := [], [];
      ghost var from := current;
      SpaceEndTwice(doc, current);
      SkipSpaces();
      EmptyOrNot(doc, current);
      if Ch(doc, current) == ']' {
        ghost var i := current;
        var endArray := ReadToken();
        LexedOk(doc, i, endArray);
        NoneFound(doc, from, endArray);
        return true, Array(items), [], [];
      }
      NothingUnderway(doc, from, current);
      ItemsShift(doc, from, features.allowComments, scan);
      while true
        invariant from <= current <= |doc| && errors == old(errors)
        invariant |separators| == |ends| == |items|
        invariant Underway(doc, from, separators, ends, |items|, current)
        invariant ItemsFrom(doc, current, items, features.allowComments, scan) ==
                  ArrayFrom(doc, from, features.allowComments, scan)
        invariant ItemsComplaint(doc, current, features.allowComments, scan) ==
                  ItemsComplaint(doc, from, features.allowComments, scan)
        decreases |doc| - current
      {
        ghost var at := current;
        ItemsStep(doc, at, items, features.allowComments, scan);
        var good, element := ReadValue(Null);
        items := items + [element];
        if !good {
          SkipsHere(doc, old(current), current, ArrayEnd);
          ok := RecoverFromError(ArrayEnd);
          return ok, Array(items), separators, ends;
        }
        ghost var end := current;
        var token := ReadSeparator();
        OneMore(doc, from, separators, ends, |items| - 1, at, end, token);
        separators, ends := separators + [token], ends + [end];
        if token.kind == ArrayEnd {
          break;
        }
      }
      return true, Array(items), separators, ends;
    }

    /**
     One turn of the object loop, after its name token: the name, the colon, the value
     and the separator. On failure the rest of the object has been skipped.
     */
    method ReadMember(tokenName: Token, members0: seq<(string, Value)>)
      returns (ok: bool, ended: bool, name: string, members: seq<(string, Value)>)
      requires tokenName.kind == StringToken && TokenOk(doc, tokenName) && tokenName.end == current
      modifies this
      ensures old(current) <= current <= |doc|
      ensures errors == old(errors) +
              if ok then [] else [MemberComplaint(doc, tokenName, features.allowComments, scan)]
      ensures !ok ==> SkippedTo(doc, old(current), ObjectEnd, current)
      ensures match MemberFrom(doc, tokenName, features.allowComments, scan)
              case None => !ok
              case Some((s, w, t)) =>
                && ok && name == s && members == Put(members0, CString(s), w)
                && ended == (t.kind == ObjectEnd) && current == t.end
      decreases |doc| - current, 1
    {
      hide Unescape, Put, Get, TokenAt, CString, ValueAt, Uncommented, SkippedTo, SkipEnd, MemberFrom, ValueComplaint,
           LiteralMessage;
      MemberStages(doc, tokenName, features.allowComments, scan);
      ended, members := false, members0;
      ok, name := DecodeString(tokenName);
      if !ok {
        SkipsHere(doc, old(current), current, ObjectEnd);
        ok := RecoverFromError(ObjectEnd);
        return;
      }
      ghost var c := current;
      var colon := ReadToken();
      LexedOk(doc, c, colon);
      if colon.kind != MemberSeparator {
        SkipsHere(doc, old(current), current, ObjectEnd);
        ok := AddErrorAndRecover(MissingColon, colon, ObjectEnd);
        return;
      }
      var element;
      ok, element := ReadValue(Get(members, CString(name)));
      members := Put(members, CString(name), element);
      if !ok {
        SkipsHere(doc, old(current), current, ObjectEnd);
        ok := RecoverFromError(ObjectEnd);
        return;
      }
      ghost var j := current;
      ok, ended := ReadMemberEnd();
      if !ok {
        SkipsFrom(doc, old(current), j, ObjectEnd, current);
      }
    }

    /** The token behind a member, with comments skipped if it is one. */
    method ReadMemberEnd() returns (ok: bool, ended: bool)
      requires current <= |doc|
      modifies this
      ensures old(current) <= current <= |doc|
      ensures errors == old(errors) + if ok then [] else [ErrorInfo(MissingCommaOrBrace, TokenAt(doc, old(current)))]
      ensures !ok ==> SkippedTo(doc, old(current), ObjectEnd, current)
      ensures var comma := TokenAt(doc, old(current));
              && (ok <==> comma.kind == ObjectEnd || comma.kind == ArraySeparator || comma.kind == CommentToken)
              && (ok ==> ended == (Uncommented(doc, comma).kind == ObjectEnd) && current == Uncommented(doc, comma).end)
    {
      hide TokenAt, Uncommented, SkippedTo, SkipEnd;
      var comma := ReadToken();
      LexedOk(doc, old(current), comma);
      if comma.kind != ObjectEnd && comma.kind != ArraySeparator && comma.kind != CommentToken {
        SkipsHere(doc, old(current), current, ObjectEnd);
        ok := AddErrorAndRecover(MissingCommaOrBrace, comma, ObjectEnd);
        return ok, false;
      }
      comma := SkipComments(comma);
      return true, comma.kind == ObjectEnd;
    }

    /** Reads an object. The name of the last member read decides whether a closing brace may follow a separator. */
    method ReadObject(tokenStart: Token) returns (ok: bool, v: Value)
      requires current <= |doc|
      modifies this
      ensures old(current) <= current <= |doc|
      ensures errors == old(errors) +
              if ok then [] else [MembersComplaint(doc, old(current), "", features.allowComments, scan)]
      ensures !ok ==> SkippedTo(doc, old(current), ObjectEnd, current)
      ensures match MembersFrom(doc, old(current), [], "", features.allowComments, scan)
              case None => !ok
              case Some((w, end)) => ok && v == w && current == end
      decreases |doc| - current, 1
    {
      hide Unescape, Put, Get, TokenAt, CString, MemberFrom, MemberComplaint, SkipEnd;
      var name := "";
      var members: seq<(string, Value)> := [];
      var tokenName;
      while true
        invariant old(current) <= current <= |doc| && errors == old(errors)
        invariant MembersFrom(doc, current, members, name, features.allowComments, scan) ==
                  MembersFrom(doc, old(current), [], "", features.allowComments, scan)
        invariant MembersComplaint(doc, current, name, features.allowComments, scan) ==
                  MembersComplaint(doc, old(current), "", features.allowComments, scan)
        decreases |doc| - current
      {
        ghost var i := current;
        tokenName := ReadToken();
        LexedOk(doc, i, tokenName);
        tokenName := SkipComments(tokenName);
        if tokenName.kind == ObjectEnd && name == "" {
          return true, Object(members);
        }
        if tokenName.kind != StringToken {
          break;
        }
        var good, ended;
        good, ended, name, members := ReadMember(tokenName, members);
        if !good || ended {
          return good, Object(members);
        }
      }
      SkipsHere(doc, old(current), current, ObjectEnd);
      ok := AddErrorAndRecover(MissingBraceOrName, tokenName, ObjectEnd);
      return ok, Object(members);
    }

    /** Parses the document. The result is success exactly when no error was recorded. */
    method Parse() returns (ok: bool, root: Value)
      modifies this
      ensures current <= |doc|
      ensures ok <==> errors == []
      ensures match ValueAt(doc, 0, features.allowComments, scan)
              case None => !ok
              case Some((w, _)) => root == w && (ok <==> (features.strictRoot ==> w.Array? || w.Object?))
      ensures errors ==
              (if ValueAt(doc, 0, features.allowComments, scan).None?
               then [ValueComplaint(doc, 0, features.allowComments, scan)] else [])
              + (if features.strictRoot && !root.Array? && !root.Object?
                 then [ErrorInfo(RootNotContainer, Token(ErrorToken, 0, |doc|))] else [])
    {
      hide ValueAt, ValueComplaint;
      current, errors := 0, [];
      ok, root := ReadValue(Null);
      var token := SkipCommentTokens();
      if features.strictRoot {
        if !root.Array? && !root.Object? {
          token := Token(ErrorToken, 0, |doc|);
          ok := AddError(RootNotContainer, token);
        }
      }
    }
  }

  /** A token between two elements that is not the closing bracket. */
  predicate Separator(t: Token) { t.kind != ArrayEnd && t.kind != CommentToken }

  /** Element `k` of an array that begins at `from` ends at `ends[k]`, and `tokens[k]` is found behind it. */
  predicate Found(doc: string, from: nat, tokens: seq<Token>, ends: seq<nat>, k: nat)
    requires k < |tokens| == |ends|
  {
    && from < ends[k] <= |doc| && tokens[k] == NextToken(doc, ends[k])
    && (k > 0 ==> tokens[k-1].end < ends[k])
  }

  /** So far `n` elements and separators have been read, up to `at`. */
  predicate Underway(doc: string, from: nat, tokens: seq<Token>, ends: seq<nat>, n: nat, at: nat) {
    && |tokens| == |ends| == n && from <= at
    && (forall k | 0 <= k < n :: Found(doc, from, tokens, ends, k) && Separator(tokens[k]))
    && (n > 0 ==> at == tokens[n-1].end)
  }

  /** The tokens found behind the elements of an array: separators, and at last the closing bracket, up to `at`. */
  predicate Separated(doc: string, from: nat, tokens: seq<Token>, ends: seq<nat>, n: nat, at: nat) {
    && |tokens| == |ends| == n
    && (forall k | 0 <= k < n ::
          && Found(doc, from, tokens, ends, k)
          && if k + 1 == n then tokens[k].kind == ArrayEnd else Separator(tokens[k]))
    && (if n == 0 then from <= |doc| && TokenAt(doc, from).kind == ArrayEnd && at == TokenAt(doc, from).end
        else at == tokens[n-1].end)
  }

  lemma NothingUnderway(doc: string, from: nat, at: nat)
    requires from <= at
    ensures Underway(doc, from, [], [], 0, at)
  {
  }

  lemma NoneFound(doc: string, from: nat, t: Token)
    requires from <= |doc| && t == TokenAt(doc, SpaceEnd(doc, from)) && t.kind == ArrayEnd
    ensures Separated(doc, from, [], [], 0, t.end)
  {
    hide TokenAt, SpaceEnd;
    SpaceEndTwice(doc, from);
  }

  lemma OneMore(doc: string, from: nat, tokens: seq<Token>, ends: seq<nat>, n: nat, at: nat, end: nat, t: Token)
    requires Underway(doc, from, tokens, ends, n, at) && at < end <= |doc| && t == NextToken(doc, end)
    ensures t.kind != ArrayEnd ==> Underway(doc, from, tokens + [t], ends + [end], n + 1, t.end)
    ensures t.kind == ArrayEnd ==> Separated(doc, from, tokens + [t], ends + [end], n + 1, t.end)
  {
    hide TokenAt, Uncommented, NextToken;
    var tokens', ends' := tokens + [t], ends + [end];
    forall k | 0 <= k < n
      ensures Found(doc, from, tokens', ends', k) && Separator(tokens'[k])
    {
      assert Found(doc, from, tokens, ends, k);
    }
    if n > 0 {
      assert Found(doc, from, tokens, ends, n - 1);
    }
    assert Found(doc, from, tokens', ends', n);
  }

  /** Where an array is empty, told by its first character that is no blank. */
  lemma EmptyOrNot(doc: string, i: nat)
    requires i <= |doc| && SpaceEnd(doc, i) == i
    ensures TokenAt(doc, i).kind == ArrayEnd <==> Ch(doc, i) == ']'
  {
    hide StringEnd, NumberEnd, CommentAt;
  }

  /** Blanks before the first element do not matter. */
  lemma ItemsShift(doc: string, from: nat, comments: bool, scan: Scan)
    requires from <= |doc| && TokenAt(doc, from).kind != ArrayEnd
    ensures ItemsFrom(doc, SpaceEnd(doc, from), [], comments, scan) == ArrayFrom(doc, from, comments, scan)
    ensures ItemsComplaint(doc, SpaceEnd(doc, from), comments, scan) == ItemsComplaint(doc, from, comments, scan)
  {
    hide SpaceEnd, TokenAt, Uncommented, ArrayFrom, ValueComplaint;
    SpaceEndTwice(doc, from);
    ValueShift(doc, from, comments, scan);
    assert ArrayFrom(doc, from, comments, scan) == ItemsFrom(doc, from, [], comments, scan) by {
      NotEmptyArray(doc, from, comments, scan);
    }
  }

  /** One element more, or the end. */
  lemma ItemsStep(doc: string, at: nat, items: seq<Value>, comments: bool, scan: Scan)
    requires at <= |doc|
    ensures ValueAt(doc, at, comments, scan) == None ==>
              && ItemsFrom(doc, at, items, comments, scan) == None
              && ItemsComplaint(doc, at, comments, scan) == ValueComplaint(doc, at, comments, scan)
    ensures ValueAt(doc, at, comments, scan).Some? ==>
              var v := ValueAt(doc, at, comments, scan).value.0;
              var t := NextToken(doc, ValueAt(doc, at, comments, scan).value.1);
              && (t.kind == ArrayEnd ==>
                    ItemsFrom(doc, at, items, comments, scan) == Some((Array(items + [v]), t.end)))
              && (t.kind != ArrayEnd ==>
                    && ItemsFrom(doc, at, items, comments, scan) == ItemsFrom(doc, t.end, items + [v], comments, scan)
                    && ItemsComplaint(doc, at, comments, scan) == ItemsComplaint(doc, t.end, comments, scan))
  {
    hide ValueAt, ValueComplaint, NextToken;
  }

  lemma NotEmptyArray(doc: string, from: nat, comments: bool, scan: Scan)
    requires from <= |doc| && TokenAt(doc, from).kind != ArrayEnd
    ensures ArrayFrom(doc, from, comments, scan) == ItemsFrom(doc, from, [], comments, scan)
  {
    hide TokenAt, ItemsFrom;
  }

  lemma ValueShift(doc: string, from: nat, comments: bool, scan: Scan)
    requires from <= |doc|
    ensures ValueAt(doc, SpaceEnd(doc, from), comments, scan) == ValueAt(doc, from, comments, scan)
    ensures ValueComplaint(doc, SpaceEnd(doc, from), comments, scan) == ValueComplaint(doc, from, comments, scan)
  {
    hide SpaceEnd, TokenAt, Uncommented, ArrayFrom, MembersFrom, ReadBackNumber, LiteralText, ItemsComplaint,
         MembersComplaint, LiteralComplaint;
    SpaceEndTwice(doc, from);
  }

  /** Writing a value and parsing the text gives the value back exactly when it survives. */
  method RoundTrip(v: Value, features: Features, fmt: real -> string, scan: Scan) returns (ok: bool, back: Value)
    requires Writable(v) && (features.strictRoot ==> v.Array? || v.Object?)
    ensures ok && back == v <==> Survives(v)
  {
    hide ValueAt, ValueComplaint, Holds, ReadBack, Survives, Writable, Representable, Render;
    WritableRepresentable(v);
    ReadBackExact(v, scan);
    var writer := new Writer(fmt);
    var text := writer.Write(v);
    WrittenHolds(v, text, fmt);
    WrittenValue(text, 0, v, fmt, features.allowComments, scan);
    ReadBackKind(v, scan);
    var reader := new Reader(text, features, scan);
    ok, back := reader.Parse();
  }

  lemma WrittenHolds(v: Value, text: string, fmt: real -> string)
    requires Writable(v) && text == Render(v, fmt) + "\n"
    ensures SpaceEnd(text, 0) == 0 && Holds(text, 0, v, fmt)
  {
    hide Render;
    assert text[0..|Render(v, fmt)|] == Render(v, fmt);
    FirstOfValue(text, 0, v, fmt);
    SpaceEndHere(text, 0);
  }

  lemma ReadBackKind(v: Value, scan: Scan)
    ensures match ReadBack(v, scan)
            case None => true
            case Some(w) => (v.Array? ==> w.Array?) && (v.Object? ==> w.Object?)
  {
  }
}
