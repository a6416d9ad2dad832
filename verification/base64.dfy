/** Standard base64 (section 4 of RFC 4648), with the strict decoding the code's engine applies. */
module Base64 {
  import opened Bytes
  import opened Wrappers

  // ---- The alphabet ----

  function Symbol(v: nat): char
    requires v < 64
  {
    if v < 26 then 'A' + (v as char)
    else if v < 52 then 'a' + ((v - 26) as char)
    else if v < 62 then '0' + ((v - 52) as char)
    else if v == 62 then '+'
    else '/'
  }

  function Value(c: char): (v: Option<nat>)
    ensures v.Some? ==> v.value < 64
  {
    if 'A' <= c <= 'Z' then Some((c - 'A') as nat)
    else if 'a' <= c <= 'z' then Some((c - 'a') as nat + 26)
    else if '0' <= c <= '9' then Some((c - '0') as nat + 52)
    else if c == '+' then Some(62)
    else if c == '/' then Some(63)
    else None
  }

  lemma ValueOfSymbol(v: nat)
    requires v < 64
    ensures Value(Symbol(v)) == Some(v)
  {}

  lemma SymbolOfValue(c: char)
    requires Value(c).Some?
    ensures Symbol(Value(c).value) == c
  {}

  // ---- Encoding ----

  /** Four symbols for three bytes. */
  function Quad(x: Byte, y: Byte, z: Byte): string {
    [Symbol(x / 4), Symbol(x % 4 * 16 + y / 16), Symbol(y % 16 * 4 + z / 64), Symbol(z % 64)]
  }

  function Encode(b: Bytes): string {
    if b == [] then ""
    else if |b| == 1 then [Symbol(b[0] / 4), Symbol(b[0] % 4 * 16), '=', '=']
    else if |b| == 2 then [Symbol(b[0] / 4), Symbol(b[0] % 4 * 16 + b[1] / 16), Symbol(b[1] % 16 * 4), '=']
    else Quad(b[0], b[1], b[2]) + Encode(b[3..])
  }

  // ---- Decoding ----

  /** The bytes of the last group: padding allowed, and then the unused low bits must be zero. */
  function LastGroup(s: string): Option<Bytes>
    requires |s| == 4
  {
    match (Value(s[0]), Value(s[1]), Value(s[2]), Value(s[3]))
    case (Some(a), Some(b), Some(c), Some(d)) => Some(Triple(a, b, c, d))
    case (Some(a), Some(b), Some(c), None) =>
      if s[3] == '=' && c % 4 == 0 then Some([a * 4 + b / 16, b % 16 * 16 + c / 4]) else None
    case (Some(a), Some(b), None, None) =>
      if s[2] == '=' && s[3] == '=' && b % 16 == 0 then Some([a * 4 + b / 16]) else None
    case _ => None
  }

  function Triple(a: nat, b: nat, c: nat, d: nat): (t: Bytes)
    requires a < 64 && b < 64 && c < 64 && d < 64
    ensures |t| == 3
  {
    [a * 4 + b / 16, b % 16 * 16 + c / 4, c % 4 * 64 + d]
  }

  function FullGroup(s: string): Option<Bytes>
    requires |s| == 4
  {
    match (Value(s[0]), Value(s[1]), Value(s[2]), Value(s[3]))
    case (Some(a), Some(b), Some(c), Some(d)) => Some(Triple(a, b, c, d))
    case _ => None
  }

  /** Padding is required, only at the very end. */
  function Decode(s: string): Option<Bytes> {
    if s == "" then Some([])
    else if |s| < 4 then None
    else if |s| == 4 then LastGroup(s)
    else
      match (FullGroup(s[..4]), Decode(s[4..]))
      case (Some(t), Some(rest)) => Some(t + rest)
      case _ => None
  }

  // ---- Round trips ----

  /** Two digits of a symbol, taken apart again. */
  lemma Split16(high: nat, low: nat)
    requires low < 16
    ensures (high * 16 + low) / 16 == high && (high * 16 + low) % 16 == low
  {}

  lemma Split4(high: nat, low: nat)
    requires low < 4
    ensures (high * 4 + low) / 4 == high && (high * 4 + low) % 4 == low
  {}

  lemma Split64(high: nat, low: nat)
    requires low < 64
    ensures (high * 64 + low) / 64 == high && (high * 64 + low) % 64 == low
  {}

  /** How a byte is cut between two symbols, and joined again. */
  lemma Cut(x: Byte, y: Byte)
    ensures (x % 4 * 16 + y / 16) / 16 == x % 4 && (x % 4 * 16 + y / 16) % 16 == y / 16
    ensures (x % 16 * 4 + y / 64) / 4 == x % 16 && (x % 16 * 4 + y / 64) % 4 == y / 64
  {
    Split16(x % 4, y / 16);
    Split4(x % 16, y / 64);
  }

  lemma TripleOfDigits(a: nat, p: nat, q: nat, r: nat, s: nat, t: nat)
    requires a < 64 && p < 4 && q < 16 && r < 16 && s < 4 && t < 64
    ensures Triple(a, p * 16 + q, r * 4 + s, t) == [a * 4 + p, q * 16 + r, s * 64 + t]
  {
    Split16(p, q);
    Split4(r, s);
  }

  lemma TripleOfBytes(x: Byte, y: Byte, z: Byte)
    ensures Triple(x / 4, x % 4 * 16 + y / 16, y % 16 * 4 + z / 64, z % 64) == [x, y, z]
  {
    TripleOfDigits(x / 4, x % 4, y / 16, y % 16, z / 64, z % 64);
  }

  lemma QuadRoundTrip(x: Byte, y: Byte, z: Byte)
    ensures FullGroup(Quad(x, y, z)) == Some([x, y, z]) && LastGroup(Quad(x, y, z)) == Some([x, y, z])
  {
    ValueOfSymbol(x / 4);
    ValueOfSymbol(x % 4 * 16 + y / 16);
    ValueOfSymbol(y % 16 * 4 + z / 64);
    ValueOfSymbol(z % 64);
    TripleOfBytes(x, y, z);
  }

  lemma {:induction false} ShortRoundTrip(b: Bytes)
    requires |b| == 1 || |b| == 2
    ensures |Encode(b)| == 4 && LastGroup(Encode(b)) == Some(b)
  {
    ValueOfSymbol(b[0] / 4);
    if |b| == 1 {
      ValueOfSymbol(b[0] % 4 * 16);
      Cut(b[0], 0);
      assert LastGroup(Encode(b)).value == [b[0]] == b;
    } else {
      ValueOfSymbol(b[0] % 4 * 16 + b[1] / 16);
      ValueOfSymbol(b[1] % 16 * 4);
      Cut(b[0], b[1]);
      Cut(b[1], 0);
      assert LastGroup(Encode(b)).value == [b[0], b[1]] == b;
    }
  }

  lemma {:induction false} EncodeNonEmpty(b: Bytes)
    ensures |Encode(b)| % 4 == 0 && (b != [] ==> |Encode(b)| >= 4)
  {
    if |b| >= 3 {
      EncodeNonEmpty(b[3..]);
    }
  }

  /** Decoding inverts encoding, for byte strings of every length. */
  lemma {:induction false} DecodeEncode(b: Bytes)
    ensures Decode(Encode(b)) == Some(b)
  {
    if |b| == 1 || |b| == 2 {
      ShortRoundTrip(b);
    } else if |b| >= 3 {
      var s := Encode(b);
      QuadRoundTrip(b[0], b[1], b[2]);
      EncodeNonEmpty(b[3..]);
      DecodeEncode(b[3..]);
      assert s[..4] == Quad(b[0], b[1], b[2]) && s[4..] == Encode(b[3..]);
      assert b == [b[0], b[1], b[2]] + b[3..];
      if |s| == 4 {
        assert s == Quad(b[0], b[1], b[2]);
        assert b == [b[0], b[1], b[2]];
      }
    }
  }

  /** Strict decoding accepts exactly the encodings: whatever decodes was encoded that way. */
  lemma {:induction false} EncodeDecode(s: string)
    requires Decode(s).Some?
    ensures Encode(Decode(s).value) == s
  {
    if |s| == 4 {
      LastGroupEncodes(s);
    } else if |s| > 4 {
      EncodeDecode(s[4..]);
      FullGroupEncodes(s[..4]);
      var t, rest := FullGroup(s[..4]).value, Decode(s[4..]).value;
      assert (t + rest)[3..] == rest;
      assert s == s[..4] + s[4..];
    }
  }

  /** The symbols of a decoded triple are the ones it came from. */
  lemma BytesOfTriple(a: nat, b: nat, c: nat, d: nat)
    requires a < 64 && b < 64 && c < 64 && d < 64
    ensures var t := Triple(a, b, c, d);
      t[0] / 4 == a && t[0] % 4 * 16 + t[1] / 16 == b && t[1] % 16 * 4 + t[2] / 64 == c && t[2] % 64 == d
  {
    Split4(a, b / 16);
    Split16(b % 16, c / 4);
    Split64(c % 4, d);
  }

  /** With one or two bytes the missing ones count as zero. */
  lemma BytesOfPair(a: nat, b: nat, c: nat)
    requires a < 64 && b < 64 && c < 64 && c % 4 == 0
    ensures var x, y := a * 4 + b / 16, b % 16 * 16 + c / 4;
      x < 256 && y < 256 && x / 4 == a && x % 4 * 16 + y / 16 == b && y % 16 * 4 == c
  {
    Split4(a, b / 16);
    Split16(b % 16, c / 4);
  }

  lemma BytesOfOne(a: nat, b: nat)
    requires a < 64 && b < 64 && b % 16 == 0
    ensures var x := a * 4 + b / 16; x < 256 && x / 4 == a && x % 4 * 16 == b
  {
    Split4(a, b / 16);
  }

  lemma FullGroupEncodes(s: string)
    requires |s| == 4 && FullGroup(s).Some?
    ensures |FullGroup(s).value| == 3
    ensures var t := FullGroup(s).value; Quad(t[0], t[1], t[2]) == s
  {
    SymbolOfValue(s[0]);
    SymbolOfValue(s[1]);
    SymbolOfValue(s[2]);
    SymbolOfValue(s[3]);
    BytesOfTriple(Value(s[0]).value, Value(s[1]).value, Value(s[2]).value, Value(s[3]).value);
  }

  lemma LastGroupEncodes(s: string)
    requires |s| == 4 && LastGroup(s).Some?
    ensures Encode(LastGroup(s).value) == s
  {
    if FullGroup(s).Some? {
      FullGroupEncodes(s);
      assert Encode(LastGroup(s).value[3..]) == "";
    } else {
      PaddedGroupEncodes(s);
    }
  }

  lemma PaddedGroupEncodes(s: string)
    requires |s| == 4 && LastGroup(s).Some? && FullGroup(s).None?
    ensures Encode(LastGroup(s).value) == s
  {
    SymbolOfValue(s[0]);
    SymbolOfValue(s[1]);
    if Value(s[2]).Some? {
      SymbolOfValue(s[2]);
      PairEncodes(s, Value(s[0]).value, Value(s[1]).value, Value(s[2]).value);
    } else {
      OneEncodes(s, Value(s[0]).value, Value(s[1]).value);
    }
  }

  lemma PairEncodes(s: string, a: nat, b: nat, c: nat)
    requires a < 64 && b < 64 && c < 64 && c % 4 == 0
    requires s == [Symbol(a), Symbol(b), Symbol(c), '=']
    ensures Encode([a * 4 + b / 16, b % 16 * 16 + c / 4]) == s
  {
    BytesOfPair(a, b, c);
  }

  lemma OneEncodes(s: string, a: nat, b: nat)
    requires a < 64 && b < 64 && b % 16 == 0 && s == [Symbol(a), Symbol(b), '=', '=']
    ensures Encode([a * 4 + b / 16]) == s
  {
    BytesOfOne(a, b);
  }

  /** Encodings use the alphabet and the padding sign only. */
  predicate IsBase64Char(c: char) {
    Value(c).Some? || c == '='
  }

  lemma {:induction false} EncodeAlphabet(b: Bytes)
    ensures forall i :: 0 <= i < |Encode(b)| ==> IsBase64Char(Encode(b)[i])
  {
    if |b| >= 3 {
      EncodeAlphabet(b[3..]);
      AlphabetOf(b[0] / 4);
      AlphabetOf(b[0] % 4 * 16 + b[1] / 16);
      AlphabetOf(b[1] % 16 * 4 + b[2] / 64);
      AlphabetOf(b[2] % 64);
    } else if |b| == 1 {
      AlphabetOf(b[0] / 4);
      AlphabetOf(b[0] % 4 * 16);
    } else if |b| == 2 {
      AlphabetOf(b[0] / 4);
      AlphabetOf(b[0] % 4 * 16 + b[1] / 16);
      AlphabetOf(b[1] % 16 * 4);
    }
  }

  lemma AlphabetOf(v: nat)
    requires v < 64
    ensures IsBase64Char(Symbol(v))
  {
    ValueOfSymbol(v);
  }

  // ---- The encoding, symbol by symbol ----

  /** The character for six bits, by its code in ASCII: letters, small letters, digits, plus and slash. */
  predicate Stands(c: char, v: nat)
    requires v < 64
  {
    c as int == if v < 26 then 65 + v
                else if v < 52 then 97 + v - 26
                else if v < 62 then 48 + v - 52
                else if v == 62 then 43
                else 47
  }

  lemma SymbolStands(v: nat)
    requires v < 64
    ensures Stands(Symbol(v), v)
  {}

  function ByteOr0(b: Bytes, i: nat): Byte {
    if i < |b| then b[i] else 0
  }

  /** The 24 bits of the `g`-th group of three bytes, zeros where there are none. */
  function Group(b: Bytes, g: nat): nat {
    0x1_0000 * ByteOr0(b, 3 * g) as int + 0x100 * ByteOr0(b, 3 * g + 1) as int + ByteOr0(b, 3 * g + 2) as int
  }

  /** The last six of these bits after `k` times six bits were dropped. */
  function Six(n: nat, k: nat): (v: nat)
    ensures v < 64
  {
    if k == 0 then n % 64 else Six(n / 64, k - 1)
  }

  lemma {:induction false} SixOf(n: nat, a: nat, b: nat, c: nat, d: nat)
    requires a < 64 && b < 64 && c < 64 && d < 64 && n == ((a * 64 + b) * 64 + c) * 64 + d
    ensures Six(n, 3) == a && Six(n, 2) == b && Six(n, 1) == c && Six(n, 0) == d
  {
    Split64((a * 64 + b) * 64 + c, d);
    Split64(a * 64 + b, c);
    Split64(a, b);
    assert Six(n, 1) == Six(n / 64, 0) && Six(n, 2) == Six(n / 64, 1) && Six(n, 3) == Six(n / 64, 2);
    assert Six(n / 64, 1) == Six(n / 64 / 64, 0) && Six(n / 64, 2) == Six(n / 64 / 64, 1);
    assert Six(n / 64 / 64, 1) == Six(n / 64 / 64 / 64, 0);
  }

  lemma SixBits(x: Byte, y: Byte, z: Byte)
    ensures var n := 0x1_0000 * x as int + 0x100 * y as int + z as int;
      && Six(n, 3) == x / 4 && Six(n, 2) == x % 4 * 16 + y / 16
      && Six(n, 1) == y % 16 * 4 + z / 64 && Six(n, 0) == z % 64
  {
    SixOf(0x1_0000 * x as int + 0x100 * y as int + z as int,
          x / 4, x % 4 * 16 + y / 16, y % 16 * 4 + z / 64, z % 64);
  }

  /** Symbol `c` of the encoding: six bits while there are any, padding after. */
  predicate EncodedAt(b: Bytes, s: string, c: nat)
    requires c < |s|
  {
    if 6 * c < 8 * |b| then Stands(s[c], Six(Group(b, c / 4), 3 - c % 4)) else s[c] == '='
  }

  /** Section 4 of RFC 4648, for every byte string and every symbol of its encoding. */
  lemma {:induction false} EncodeIs(b: Bytes, c: nat)
    requires c < |Encode(b)|
    ensures EncodedAt(b, Encode(b), c)
    decreases |b|
  {
    if c < 4 {
      FirstSymbols(b, c);
    } else {
      EncodeIs(b[3..], c - 4);
      LaterSymbols(b, c);
    }
  }

  lemma {:induction false} EncodeLength(b: Bytes)
    ensures |Encode(b)| == (|b| + 2) / 3 * 4
  {
    if |b| >= 3 {
      EncodeLength(b[3..]);
      assert (|b| - 3 + 2) / 3 == (|b| + 2) / 3 - 1;
    }
  }

  lemma {:induction false} FirstSymbols(b: Bytes, c: nat)
    requires b != [] && c < 4
    ensures |Encode(b)| >= 4 && EncodedAt(b, Encode(b), c)
  {
    var x, y, z := ByteOr0(b, 0), ByteOr0(b, 1), ByteOr0(b, 2);
    FirstFour(b, x, y, z);
    SixBits(x, y, z);
    if c == 0 {
      FirstIs(b, c, x / 4);
    } else if c == 1 {
      FirstIs(b, c, x % 4 * 16 + y / 16);
    } else if c == 2 {
      FirstIs(b, c, y % 16 * 4 + z / 64);
    } else {
      FirstIs(b, c, z % 64);
    }
  }

  lemma {:induction false} FirstIs(b: Bytes, c: nat, v: nat)
    requires c < 4 && |Encode(b)| >= 4 && v < 64 && Six(Group(b, 0), 3 - c) == v
    requires Encode(b)[c] == if 6 * c < 8 * |b| then Symbol(v) else '='
    ensures EncodedAt(b, Encode(b), c)
  {
    SymbolStands(v);
    assert c / 4 == 0 && c % 4 == c;
  }

  lemma {:induction false} FirstFour(b: Bytes, x: Byte, y: Byte, z: Byte)
    requires b != [] && x == ByteOr0(b, 0) && y == ByteOr0(b, 1) && z == ByteOr0(b, 2)
    ensures |Encode(b)| >= 4
    ensures Encode(b)[0] == Symbol(x / 4) && Encode(b)[1] == Symbol(x % 4 * 16 + y / 16)
    ensures Encode(b)[2] == if |b| == 1 then '=' else Symbol(y % 16 * 4 + z / 64)
    ensures Encode(b)[3] == if |b| <= 2 then '=' else Symbol(z % 64)
  {}

  lemma {:induction false} LaterSymbols(b: Bytes, c: nat)
    requires |b| >= 3 && 4 <= c < |Encode(b)| && c - 4 < |Encode(b[3..])|
    requires EncodedAt(b[3..], Encode(b[3..]), c - 4)
    ensures EncodedAt(b, Encode(b), c)
  {
    assert Encode(b)[c] == Encode(b[3..])[c - 4];
    assert (c - 4) / 4 == c / 4 - 1 && (c - 4) % 4 == c % 4;
    assert Group(b[3..], c / 4 - 1) == Group(b, c / 4);
  }
}
