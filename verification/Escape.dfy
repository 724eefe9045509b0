module Escape {
  // String literals: a pass that counts the bytes, a pass that fills them, and the escapes they recognise.

  type Byte = b: nat | b < 256

  const BACKSLASH: Byte := 0x5C

  // ---- one escape ----

  /** The byte a one-letter escape stands for. */
  function Named(c: Byte): (r: int)
    ensures -1 <= r < 128
  {
    if c == 'a' as int then 0x07
    else if c == 'b' as int then 0x08
    else if c == 'e' as int then 0x1B
    else if c == 'f' as int then 0x0C
    else if c == 'n' as int then 0x0A
    else if c == 'r' as int then 0x0D
    else if c == 't' as int then 0x09
    else if c == 'v' as int then 0x0B
    else if c == BACKSLASH then 0x5C
    else if c == '\'' as int then 0x27
    else if c == '"' as int then 0x22
    else if c == '0' as int then 0x00
    else -1
  }

  predicate IsHex(c: Byte) {
    ('0' as int <= c <= '9' as int) || ('a' as int <= c <= 'f' as int) || ('A' as int <= c <= 'F' as int)
  }

  function HexValue(c: Byte): (v: nat)
    ensures v < 16
  {
    if '0' as int <= c <= '9' as int then c - '0' as int
    else if 'a' as int <= c <= 'f' as int then c - 'a' as int + 10
    else if 'A' as int <= c <= 'F' as int then c - 'A' as int + 10
    else 0
  }

  datatype Token = Token(value: Byte, consumed: nat)

  /** A backslash that starts nothing known stands for itself, and what follows is read on its own. */
  function Parse(s: seq<Byte>, i: nat): (t: Token)
    requires i < |s|
    ensures 0 < t.consumed <= |s| - i
  {
    if i + 1 >= |s| then Token(BACKSLASH, 1)
    else if Named(s[i + 1]) >= 0 then Token(Named(s[i + 1]), 2)
    else if s[i + 1] == 'x' as int && i + 3 < |s| && IsHex(s[i + 2]) && IsHex(s[i + 3]) then
      Token(HexValue(s[i + 2]) * 16 + HexValue(s[i + 3]), 4)
    else Token(BACKSLASH, 1)
  }

  function Next(s: seq<Byte>, i: nat): (t: Token)
    requires i < |s|
    ensures 0 < t.consumed <= |s| - i
  {
    if s[i] == BACKSLASH then Parse(s, i) else Token(s[i], 1)
  }

  /** The bytes from position i on. */
  function DecodeFrom(s: seq<Byte>, i: nat): (r: seq<Byte>)
    requires i <= |s|
    ensures |r| <= |s| - i
    decreases |s| - i
  {
    if i == |s| then [] else [Next(s, i).value] + DecodeFrom(s, i + Next(s, i).consumed)
  }

  function Decode(s: seq<Byte>): seq<Byte> { DecodeFrom(s, 0) }

  lemma DecodeStep(s: seq<Byte>, i: nat)
    requires i < |s|
    ensures DecodeFrom(s, i) == [Next(s, i).value] + DecodeFrom(s, i + Next(s, i).consumed)
  {
  }

  lemma DecodeEnd(s: seq<Byte>)
    ensures DecodeFrom(s, |s|) == []
  {
  }

  // ---- the two passes ----

  method CountBytes(content: array<Byte>) returns (n: nat)
    ensures n == |Decode(content[..])|
  {
    n := 0;
    var i: nat := 0;
    while i < content.Length
      invariant i <= content.Length && n + |DecodeFrom(content[..], i)| == |Decode(content[..])|
    {
      if content[i] == BACKSLASH {
        var consumed := Parse(content[..], i).consumed;
        n := n + 1;
        i := i + consumed;
      } else {
        n := n + 1;
        i := i + 1;
      }
    }
  }

  /** The second pass writes exactly as many bytes as the first counted. */
  method DecodeLiteral(content: array<Byte>) returns (buf: array<Byte>)
    ensures fresh(buf) && buf[..] == Decode(content[..])
  {
    hide Parse, DecodeFrom;
    var n := CountBytes(content);
    DecodeEnd(content[..]);
    buf := new Byte[n](_ => 0);
    ghost var s := content[..];
    var out: nat := 0;
    var i: nat := 0;
    while i < content.Length
      invariant i <= content.Length && content[..] == s && fresh(buf)
      invariant out + |DecodeFrom(s, i)| == n == buf.Length
      invariant buf[..out] + DecodeFrom(s, i) == Decode(s)
    {
      ghost var before := buf[..out];
      DecodeStep(s, i);
      if content[i] == BACKSLASH {
        var t := Parse(content[..], i);
        buf[out] := t.value;
        assert buf[..out + 1] == before + [t.value];
        i := i + t.consumed;
      } else {
        buf[out] := content[i];
        assert buf[..out + 1] == before + [content[i]];
        i := i + 1;
      }
      out := out + 1;
    }
    assert buf[..out] == buf[..];
  }

  /** Quoted text loses its first and last character; raw strings keep their content as it is. */
  function Content(text: seq<Byte>): seq<Byte> {
    if |text| >= 2 && (text[0] == '"' as int || text[0] == '`' as int) then text[1..|text| - 1] else text
  }

  method StringLiteral(text: array<Byte>, processEscapes: bool) returns (buf: array<Byte>)
    ensures fresh(buf) && buf[..] == if processEscapes then Decode(Content(text[..])) else Content(text[..])
  {
    var from, to := 0, text.Length;
    if text.Length >= 2 && (text[0] == '"' as int || text[0] == '`' as int) {
      from, to := 1, text.Length - 1;
    }
    var content := new Byte[to - from](_ => 0);
    for k := 0 to content.Length
      invariant content[..k] == text[from..from + k] && fresh(content)
    {
      content[k] := text[from + k];
      assert content[..k + 1] == content[..k] + [content[k]];
      assert text[from..from + k + 1] == text[from..from + k] + [text[from + k]];
    }
    assert content[..content.Length] == content[..];
    assert text[from..to] == Content(text[..]);
    if !processEscapes { return content; }
    buf := DecodeLiteral(content);
  }

  // ---- writing and reading back ----

  /** The bytes that can be spelled with a letter, and the letters. */
  predicate HasLetter(b: Byte) {
    b == 0 || b == 7 || b == 8 || b == 9 || b == 10 || b == 11 || b == 12 || b == 13 || b == 27 || b == 34 || b == 39 || b == 92
  }

  function LetterOf(b: Byte): (c: char)
    requires HasLetter(b)
    ensures c as int < 128
  {
    if b == 0 then '0'           // NUL
    else if b == 7 then 'a'      // BEL
    else if b == 8 then 'b'      // BS
    else if b == 9 then 't'      // HT
    else if b == 10 then 'n'     // LF
    else if b == 11 then 'v'     // VT
    else if b == 12 then 'f'     // FF
    else if b == 13 then 'r'     // CR
    else if b == 27 then 'e'     // ESC
    else b as char
  }

  function HexDigit(v: nat, upper: bool): Byte
    requires v < 16
  {
    if v < 10 then '0' as int + v else (if upper then 'A' else 'a') as int + (v - 10)
  }

  /** One byte as a literal may spell it: as it is, by letter, in hexadecimal of either case, or, for a backslash that
      starts nothing, as the backslash. */
  datatype Piece = Raw(b: Byte) | Letter(b: Byte) | Hex(b: Byte, upperHigh: bool, upperLow: bool) | Stray

  function Spelling(p: Piece): (s: seq<Byte>)
    requires p.Letter? ==> HasLetter(p.b)
    ensures |s| > 0
  {
    match p
    case Raw(b) => [b]
    case Letter(b) => [BACKSLASH, LetterOf(b) as int]
    case Hex(b, h, l) => [BACKSLASH, 'x' as int, HexDigit(b / 16, h), HexDigit(b % 16, l)]
    case Stray => [BACKSLASH]
  }

  function Meaning(p: Piece): Byte { if p.Stray? then BACKSLASH else p.b }

  /** A known letter follows the backslash, or x and two hexadecimal digits do. */
  predicate Escapes(s: seq<Byte>, i: nat) {
    && i + 1 < |s| && s[i] == BACKSLASH
    && (IsLetter(s[i + 1]) || (s[i + 1] == 'x' as int && i + 3 < |s| && IsHex(s[i + 2]) && IsHex(s[i + 3])))
  }

  predicate IsLetter(c: Byte) { exists b: Byte :: HasLetter(b) && LetterOf(b) as int == c }

  /** Raw bytes are no backslashes, and a stray backslash does not start an escape with what is spelled behind it. */
  predicate Valid(ps: seq<Piece>)
    decreases |ps|, 0
  {
    ps == [] ||
      (match ps[0]
       case Raw(b) => Valid(ps[1..]) && b != BACKSLASH
       case Letter(b) => Valid(ps[1..]) && HasLetter(b)
       case Hex(_, _, _) => Valid(ps[1..])
       case Stray => Valid(ps[1..]) && !Escapes([BACKSLASH] + Spelled(ps[1..]), 0))
  }

  function Spelled(ps: seq<Piece>): seq<Byte>
    requires Valid(ps)
    decreases |ps|, 1
  {
    if ps == [] then [] else Spelling(ps[0]) + Spelled(ps[1..])
  }

  function Meant(ps: seq<Piece>): seq<Byte> { seq(|ps|, i requires 0 <= i < |ps| => Meaning(ps[i])) }

  /** Decoding from position i depends on what is there only. */
  lemma {:induction false} DecodeShift(a: seq<Byte>, s: seq<Byte>, i: nat)
    requires i <= |s|
    ensures DecodeFrom(a + s, |a| + i) == DecodeFrom(s, i)
    decreases |s| - i
  {
    hide Parse, Next;
    if i < |s| {
      NextShift(a, s, i);
      DecodeShift(a, s, i + Next(s, i).consumed);
    }
  }

  lemma NextShift(a: seq<Byte>, s: seq<Byte>, i: nat)
    requires i < |s|
    ensures Next(a + s, |a| + i) == Next(s, i)
  {
    assert forall k: nat | k < |s| :: (a + s)[|a| + k] == s[k];
  }

  /** The decoder's letters are those that spell a byte, and stand for it. */
  lemma NamedLetter(c: Byte)
    ensures IsLetter(c) <==> Named(c) >= 0
    ensures IsLetter(c) ==> HasLetter(Named(c)) && LetterOf(Named(c)) as int == c
    ensures forall b: Byte | HasLetter(b) :: Named(LetterOf(b) as int) == b
  {
    if Named(c) >= 0 { assert HasLetter(Named(c)) && LetterOf(Named(c)) as int == c; }
  }

  lemma HexDigits(b: Byte, h: bool, l: bool)
    ensures var x, y := HexDigit(b / 16, h), HexDigit(b % 16, l); IsHex(x) && IsHex(y) && HexValue(x) * 16 + HexValue(y) == b
  {
  }

  lemma PieceFirst(p: Piece, rest: seq<Byte>)
    requires match p case Raw(b) => b != BACKSLASH case Letter(b) => HasLetter(b) case Hex(_, _, _) => true case Stray => !Escapes([BACKSLASH] + rest, 0)
    ensures Next(Spelling(p) + rest, 0) == Token(Meaning(p), |Spelling(p)|)
  {
    hide IsLetter, HasLetter, LetterOf, Named, HexDigit, HexValue, IsHex;
    var s := Spelling(p) + rest;
    match p
    case Raw(_) =>
    case Letter(b) => NamedLetter(LetterOf(b) as int);
    case Hex(b, h, l) =>
      HexDigits(b, h, l);
      NamedX();
    case Stray => if |s| > 1 { NamedLetter(s[1]); }
  }

  lemma NamedX()
    ensures Named('x' as int) == -1
  {
  }

  /** However its bytes are spelled, a literal decodes to them. */
  lemma {:induction false} DecodeSpelled(ps: seq<Piece>)
    requires Valid(ps)
    ensures Decode(Spelled(ps)) == Meant(ps)
  {
    hide Escapes, Next, Spelling;
    if ps != [] {
      var rest := Spelled(ps[1..]);
      PieceFirst(ps[0], rest);
      DecodeSpelled(ps[1..]);
      DecodeShift(Spelling(ps[0]), rest, 0);
      assert Meant(ps) == [Meaning(ps[0])] + Meant(ps[1..]);
    }
  }

  /** And every literal is spelled in one of these ways. */
  lemma {:induction false} EveryLiteral(s: seq<Byte>) returns (ps: seq<Piece>)
    ensures Valid(ps) && Spelled(ps) == s
    decreases |s|
  {
    if s == [] { return []; }
    var p := FirstPiece(s);
    var n := |Spelling(p)|;
    var rest := EveryLiteral(s[n..]);
    ps := [p] + rest;
    assert ps[1..] == rest;
    assert s == Spelling(p) + s[n..];
  }

  lemma FirstPiece(s: seq<Byte>) returns (p: Piece)
    requires s != []
    ensures p.Letter? ==> HasLetter(p.b)
    ensures Spelling(p) <= s && (p.Raw? ==> p.b != BACKSLASH) && (p.Stray? ==> !Escapes(s, 0) && s[0] == BACKSLASH)
  {
    hide IsLetter, HasLetter, LetterOf, Named, IsHex, HexValue, HexDigit;
    if s[0] != BACKSLASH { return Raw(s[0]); }
    if !Escapes(s, 0) { return Stray; }
    NamedLetter(s[1]);
    if IsLetter(s[1]) { return Letter(Named(s[1])); }
    p := HexPiece(s);
  }

  lemma HexPiece(s: seq<Byte>) returns (p: Piece)
    requires |s| > 3 && s[0] == BACKSLASH && s[1] == 'x' as int && IsHex(s[2]) && IsHex(s[3])
    ensures p.Hex? && Spelling(p) <= s
  {
    hide IsHex, HexValue, HexDigit;
    HexRead(s[2]);
    HexRead(s[3]);
    p := Hex(HexValue(s[2]) * 16 + HexValue(s[3]), s[2] < 'a' as int, s[3] < 'a' as int);
    assert Spelling(p) == [s[0], s[1], s[2], s[3]];
    assert s[..4] == [s[0], s[1], s[2], s[3]];
  }

  lemma HexRead(c: Byte)
    requires IsHex(c)
    ensures HexDigit(HexValue(c), c < 'a' as int) == c
  {
  }

  /** A spelling of any byte string in printable characters, without a bare quote. */
  function PieceFor(b: Byte): (p: Piece)
    ensures !p.Stray? && p.b == b && (p.Letter? ==> HasLetter(b)) && (p.Raw? ==> b != BACKSLASH && b != '"' as int && b != '`' as int)
    ensures forall c | c in Spelling(p) :: 0x20 <= c < 0x7F
  {
    if HasLetter(b) then Letter(b)
    else if 0x20 <= b < 0x7F && b != '`' as int then Raw(b)
    else Hex(b, false, false)
  }

  function Pieces(bytes: seq<Byte>): (ps: seq<Piece>)
    ensures Valid(ps) && Meant(ps) == bytes
  {
    if bytes == [] then [] else [PieceFor(bytes[0])] + Pieces(bytes[1..])
  }

  function Encode(bytes: seq<Byte>): seq<Byte> { Spelled(Pieces(bytes)) }

  /** Every byte string has a literal, and its quoted literal decodes to it. */
  lemma LiteralRoundTrip(bytes: seq<Byte>)
    ensures Decode(Encode(bytes)) == bytes
    ensures Decode(Content(['"' as int] + Encode(bytes) + ['"' as int])) == bytes
  {
    DecodeSpelled(Pieces(bytes));
    var q := ['"' as int] + Encode(bytes) + ['"' as int];
    assert q[1..|q| - 1] == Encode(bytes);
  }

  /** A raw string between back quotes stands for what is between them, whatever that is; text that is not quoted, or too
      short to be, is kept. */
  lemma RawLiteral(s: seq<Byte>)
    ensures Content(['`' as int] + s + ['`' as int]) == s
    ensures |s| < 2 || (s[0] != '"' as int && s[0] != '`' as int) ==> Content(s) == s
  {
    var q := ['`' as int] + s + ['`' as int];
    assert q[1..|q| - 1] == s;
  }

  /** Before any byte but a known letter or an x, a backslash and the byte stand for themselves. */
  lemma UnknownEscape(c: Byte, rest: seq<Byte>)
    requires !IsLetter(c) && c != 'x' as int
    ensures Decode([BACKSLASH, c] + rest) == [BACKSLASH, c] + Decode(rest)
  {
    var s := [BACKSLASH, c] + rest;
    NamedLetter(c);
    NamedLetter(BACKSLASH);
    assert IsLetter(BACKSLASH) by { assert HasLetter(BACKSLASH) && LetterOf(BACKSLASH) as int == BACKSLASH; }
    DecodeStep(s, 0);
    DecodeStep(s, 1);
    DecodeShift([BACKSLASH, c], rest, 0);
  }

  /** `\n` is a line feed, `\r` a carriage return, `\0` a zero byte; `\q` is two bytes, and so is `\x` without digits. */
  lemma SomeEscapes()
    ensures Decode([BACKSLASH, 'n' as int]) == [0x0A] && Decode([BACKSLASH, 'r' as int]) == [0x0D] && Decode([BACKSLASH, '0' as int]) == [0]
    ensures Decode([BACKSLASH, 'q' as int]) == [BACKSLASH, 'q' as int] && Decode([BACKSLASH, 'x' as int]) == [BACKSLASH, 'x' as int]
  {
    Two('q' as int);
    Two('x' as int);
    Two('n' as int);
    Two('r' as int);
    Two('0' as int);
  }

  lemma Two(c: Byte)
    ensures Decode([BACKSLASH, c]) == if Named(c) >= 0 then [Named(c)] else [BACKSLASH] + Decode([c])
    ensures c != BACKSLASH ==> Decode([c]) == [c]
  {
    hide Named;
    var s := [BACKSLASH, c];
    DecodeEnd(s);
    DecodeEnd([c]);
    DecodeStep(s, 0);
    DecodeStep([c], 0);
    DecodeShift([BACKSLASH], [c], 0);
    assert [BACKSLASH] + [c] == s;
  }

  predicate NoEscape(s: seq<Byte>, i: nat) { forall k: nat | i <= k < |s| :: !Escapes(s, k) }

  lemma {:induction false} DecodeShorter(s: seq<Byte>, i: nat)
    requires i <= |s|
    ensures |DecodeFrom(s, i)| == |s| - i <==> NoEscape(s, i)
    ensures NoEscape(s, i) ==> DecodeFrom(s, i) == s[i..]
    decreases |s| - i
  {
    if i < |s| {
      var c := Next(s, i).consumed;
      if i + 1 < |s| { NamedLetter(s[i + 1]); NamedX(); }
      DecodeShorter(s, i + c);
      if c > 1 {
        assert Escapes(s, i);
      } else {
        assert !Escapes(s, i);
        assert NoEscape(s, i) <==> NoEscape(s, i + 1);
      }
    }
  }

  /** A literal stands for its own text exactly when it contains no recognised escape. */
  lemma PlainLiteral(s: seq<Byte>)
    ensures Decode(s) == s <==> NoEscape(s, 0)
  {
    DecodeShorter(s, 0);
    assert s[0..] == s;
  }
}
