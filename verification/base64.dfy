/** The base64 encoding of section 4 of RFC 4648, as used by Node's
    `Buffer.toString('base64')`: every 3 bytes become 4 characters of the
    64-character alphabet, and a final group of 1 or 2 bytes is padded with
    '=' to 4 characters.

    The encoding is defined in two layers: bytes to symbols (the values 0..63
    of the alphabet, and 64 for the pad), and symbols to characters. */
module Base64 {
  import opened Wrappers

  type byte = x: int | 0 <= x < 256
  type sextet = x: int | 0 <= x < 64
  /** A sextet, or `PadSymbol` for '='. */
  type symbol = x: int | 0 <= x <= 64

  const PadSymbol: symbol := 64
  const Pad: char := '='

  /** Length of the encoding of `n` bytes: 4 * ceil(n / 3). */
  function EncodedLength(n: nat): nat {
    4 * ((n + 2) / 3)
  }

  // ---------------------------------------------------------------------------
  // Bytes and symbols
  // ---------------------------------------------------------------------------

  /** The bit layout of Figure 1: three bytes as four sextets, and back. */
  function Hi(b0: byte): sextet { b0 / 4 }
  function Mid(b0: byte, b1: byte): sextet { (b0 % 4) * 16 + b1 / 16 }
  function Lo(b1: byte, b2: byte): sextet { (b1 % 16) * 4 + b2 / 64 }
  function Last(b2: byte): sextet { b2 % 64 }

  function Byte0(i0: sextet, i1: sextet): byte { i0 * 4 + i1 / 16 }
  function Byte1(i1: sextet, i2: sextet): byte { (i1 % 16) * 16 + i2 / 4 }
  function Byte2(i2: sextet, i3: sextet): byte { (i2 % 4) * 64 + i3 }

  function ToSymbols(b: seq<byte>): (t: seq<symbol>)
    ensures |t| == EncodedLength(|b|)
    decreases |b|
  {
    if |b| == 0 then []
    else if |b| == 1 then [Hi(b[0]), Mid(b[0], 0), PadSymbol, PadSymbol]
    else if |b| == 2 then [Hi(b[0]), Mid(b[0], b[1]), Lo(b[1], 0), PadSymbol]
    else [Hi(b[0]), Mid(b[0], b[1]), Lo(b[1], b[2]), Last(b[2])] + ToSymbols(b[3..])
  }

  /** Decodes a group of four symbols without padding. */
  function FullGroup(x0: symbol, x1: symbol, x2: symbol, x3: symbol): Option<seq<byte>> {
    if x0 == PadSymbol || x1 == PadSymbol || x2 == PadSymbol || x3 == PadSymbol then None
    else Some([Byte0(x0, x1), Byte1(x1, x2), Byte2(x2, x3)])
  }

  /** Decodes the final group, which may end in one or two pad symbols. */
  function LastGroup(x0: symbol, x1: symbol, x2: symbol, x3: symbol): Option<seq<byte>> {
    if x0 == PadSymbol || x1 == PadSymbol then None
    else if x2 == PadSymbol && x3 == PadSymbol then Some([Byte0(x0, x1)])
    else if x2 == PadSymbol then None
    else if x3 == PadSymbol then Some([Byte0(x0, x1), Byte1(x1, x2)])
    else FullGroup(x0, x1, x2, x3)
  }

  function FromSymbols(t: seq<symbol>): Option<seq<byte>>
    decreases |t|
  {
    if |t| == 0 then Some([])
    else if |t| < 4 then None
    else if |t| == 4 then LastGroup(t[0], t[1], t[2], t[3])
    else
      match (FullGroup(t[0], t[1], t[2], t[3]), FromSymbols(t[4..]))
      case (Some(g), Some(rest)) => Some(g + rest)
      case _ => None
  }

  lemma GroupInverse(b0: byte, b1: byte, b2: byte)
    ensures Byte0(Hi(b0), Mid(b0, b1)) == b0
    ensures Byte1(Mid(b0, b1), Lo(b1, b2)) == b1
    ensures Byte2(Lo(b1, b2), Last(b2)) == b2
  {
  }

  lemma PaddedGroups(x0: sextet, x1: sextet, x2: sextet)
    ensures FromSymbols([x0, x1, PadSymbol, PadSymbol]) == Some([Byte0(x0, x1)])
    ensures FromSymbols([x0, x1, x2, PadSymbol]) == Some([Byte0(x0, x1), Byte1(x1, x2)])
  {
  }

  lemma OneByte(b0: byte)
    ensures FromSymbols(ToSymbols([b0])) == Some([b0])
  {
    assert ToSymbols([b0]) == [Hi(b0), Mid(b0, 0), PadSymbol, PadSymbol];
    PaddedGroups(Hi(b0), Mid(b0, 0), 0);
    GroupInverse(b0, 0, 0);
  }

  lemma TwoBytes(b0: byte, b1: byte)
    ensures FromSymbols(ToSymbols([b0, b1])) == Some([b0, b1])
  {
    assert ToSymbols([b0, b1]) == [Hi(b0), Mid(b0, b1), Lo(b1, 0), PadSymbol];
    PaddedGroups(Hi(b0), Mid(b0, b1), Lo(b1, 0));
    GroupInverse(b0, b1, 0);
  }

  /** A full group of symbols in front of a decodable tail. */
  lemma ConsGroup(x0: symbol, x1: symbol, x2: symbol, x3: symbol, rest: seq<symbol>, g: seq<byte>, tail: seq<byte>)
    requires FullGroup(x0, x1, x2, x3) == Some(g) && FromSymbols(rest) == Some(tail)
    ensures FromSymbols([x0, x1, x2, x3] + rest) == Some(g + tail)
  {
    var t := [x0, x1, x2, x3] + rest;
    if rest == [] {
      assert t == [x0, x1, x2, x3];
      assert g + tail == g;
    } else {
      assert t[4..] == rest;
    }
  }

  lemma {:induction false} FromToSymbols(b: seq<byte>)
    ensures FromSymbols(ToSymbols(b)) == Some(b)
    decreases |b|
  {
    if |b| == 1 {
      assert b == [b[0]];
      OneByte(b[0]);
    } else if |b| == 2 {
      assert b == [b[0], b[1]];
      TwoBytes(b[0], b[1]);
    } else if |b| >= 3 {
      FromToSymbols(b[3..]);
      GroupInverse(b[0], b[1], b[2]);
      ConsGroup(Hi(b[0]), Mid(b[0], b[1]), Lo(b[1], b[2]), Last(b[2]), ToSymbols(b[3..]), [b[0], b[1], b[2]], b[3..]);
      assert b == [b[0], b[1], b[2]] + b[3..];
    }
  }

  // ---------------------------------------------------------------------------
  // Symbols and characters
  // ---------------------------------------------------------------------------

  /** The alphabet of Table 1: A-Z, a-z, 0-9, '+', '/', and '=' for the pad. */
  function CharOf(x: symbol): char {
    if x < 26 then ('A' as int + x) as char
    else if x < 52 then ('a' as int + (x - 26)) as char
    else if x < 62 then ('0' as int + (x - 52)) as char
    else if x == 62 then '+'
    else if x == 63 then '/'
    else Pad
  }

  /** The inverse of `CharOf`; `None` for characters outside the alphabet. */
  function SymbolOf(c: char): Option<symbol> {
    if 'A' <= c <= 'Z' then Some(c as int - 'A' as int)
    else if 'a' <= c <= 'z' then Some(c as int - 'a' as int + 26)
    else if '0' <= c <= '9' then Some(c as int - '0' as int + 52)
    else if c == '+' then Some(62)
    else if c == '/' then Some(63)
    else if c == Pad then Some(PadSymbol)
    else None
  }

  lemma SymbolOfCharOf(x: symbol)
    ensures SymbolOf(CharOf(x)) == Some(x)
  {
  }

  function Spell(t: seq<symbol>): (s: string)
    ensures |s| == |t|
  {
    if t == [] then [] else [CharOf(t[0])] + Spell(t[1..])
  }

  function Read(s: string): Option<seq<symbol>> {
    if s == [] then Some([])
    else match (SymbolOf(s[0]), Read(s[1..]))
      case (Some(x), Some(rest)) => Some([x] + rest)
      case _ => None
  }

  lemma {:induction false} ReadSpell(t: seq<symbol>)
    ensures Read(Spell(t)) == Some(t)
  {
    if t != [] {
      var s := Spell(t);
      assert s[1..] == Spell(t[1..]);
      SymbolOfCharOf(t[0]);
      ReadSpell(t[1..]);
      assert t == [t[0]] + t[1..];
    }
  }

  // ---------------------------------------------------------------------------
  // The encoding
  // ---------------------------------------------------------------------------

  function Encode(b: seq<byte>): (s: string)
    ensures |s| == EncodedLength(|b|)
  {
    Spell(ToSymbols(b))
  }

  function Decode(s: string): Option<seq<byte>> {
    match Read(s)
    case None => None
    case Some(t) => FromSymbols(t)
  }

  /** Decoding undoes encoding, for every byte string. */
  lemma DecodeEncode(b: seq<byte>)
    ensures Decode(Encode(b)) == Some(b)
  {
    ReadSpell(ToSymbols(b));
    FromToSymbols(b);
  }

  /** Distinct byte strings have distinct encodings. */
  lemma EncodeInjective(a: seq<byte>, b: seq<byte>)
    ensures Encode(a) == Encode(b) ==> a == b
  {
    DecodeEncode(a);
    DecodeEncode(b);
  }
}
