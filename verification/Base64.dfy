/** base64_encode, against the base 64 encoding of section 4 of RFC 4648. */
module Base64 {
  import opened Types

  type Byte = x: int | 0 <= x < 0x100
  type Sextet = x: int | 0 <= x < 64

  const UPPER := "ABCDEFGHIJKLMNOPQRSTUVWXYZ"
  const LOWER := "abcdefghijklmnopqrstuvwxyz"
  const ALPHABET := UPPER + LOWER + "0123456789+/"

  /** A character of table 1 of RFC 4648, by the ranges it is made of. */
  function CharOf(v: Sextet): char {
    if v < 26 then ('A' as int + v) as char
    else if v < 52 then ('a' as int + v - 26) as char
    else if v < 62 then ('0' as int + v - 52) as char
    else if v == 62 then '+'
    else '/'
  }

  function ValueOf(c: char): Option<Sextet> {
    if 'A' <= c <= 'Z' then Some(c as int - 'A' as int)
    else if 'a' <= c <= 'z' then Some(c as int - 'a' as int + 26)
    else if '0' <= c <= '9' then Some(c as int - '0' as int + 52)
    else if c == '+' then Some(62)
    else if c == '/' then Some(63)
    else None
  }

  lemma UpperIs(v: nat)
    requires v < 26
    ensures |UPPER| == 26 && UPPER[v] as int == 'A' as int + v
  {
    match v
    case 0 => {} case 1 => {} case 2 => {} case 3 => {} case 4 => {} case 5 => {} case 6 => {} case 7 => {} case 8 => {}
    case 9 => {} case 10 => {} case 11 => {} case 12 => {} case 13 => {} case 14 => {} case 15 => {} case 16 => {} case 17 => {}
    case 18 => {} case 19 => {} case 20 => {} case 21 => {} case 22 => {} case 23 => {} case 24 => {} case _ => {}
  }

  lemma LowerIs(v: nat)
    requires v < 26
    ensures |LOWER| == 26 && LOWER[v] as int == 'a' as int + v
  {
    match v
    case 0 => {} case 1 => {} case 2 => {} case 3 => {} case 4 => {} case 5 => {} case 6 => {} case 7 => {} case 8 => {}
    case 9 => {} case 10 => {} case 11 => {} case 12 => {} case 13 => {} case 14 => {} case 15 => {} case 16 => {} case 17 => {}
    case 18 => {} case 19 => {} case 20 => {} case 21 => {} case 22 => {} case 23 => {} case 24 => {} case _ => {}
  }

  lemma AlphabetIs(v: Sextet)
    ensures |ALPHABET| == 64 && ALPHABET[v] == CharOf(v)
  {
    if v < 26 {
      UpperIs(v);
    } else if v < 52 {
      LowerIs(v - 26);
    } else {
      assert ALPHABET[v] == "0123456789+/"[v - 52];
    }
  }

  lemma ValueOfChar(v: Sextet)
    ensures ValueOf(CharOf(v)) == Some(v) && CharOf(v) != '='
  {
  }

  // The decoder, from the standard.

  /** Four sextets are 24 bits. */
  function Bits(v0: Sextet, v1: Sextet, v2: Sextet, v3: Sextet): (n: nat)
    ensures n < 0x100_0000
  {
    ((v0 * 64 + v1) * 64 + v2) * 64 + v3
  }

  function BytesOf(n: nat): seq<Byte>
    requires n < 0x100_0000
  {
    [n / 0x1_0000, n / 0x100 % 0x100, n % 0x100]
  }

  /** The last four characters may hold one or two bytes, with '=' behind. */
  function DecodeLast(t: string): Option<seq<Byte>>
    requires |t| == 4
  {
    var v0, v1 := ValueOf(t[0]), ValueOf(t[1]);
    if v0.None? || v1.None? then None
    else if t[2] == '=' && t[3] == '=' then Some(BytesOf(Bits(v0.value, v1.value, 0, 0))[..1])
    else
      var v2 := ValueOf(t[2]);
      if v2.None? then None
      else if t[3] == '=' then Some(BytesOf(Bits(v0.value, v1.value, v2.value, 0))[..2])
      else
        var v3 := ValueOf(t[3]);
        if v3.None? then None else Some(BytesOf(Bits(v0.value, v1.value, v2.value, v3.value)))
  }

  function Decode(t: string): Option<seq<Byte>> {
    if t == [] then Some([])
    else if |t| < 4 then None
    else if |t| == 4 then DecodeLast(t)
    else if '=' in t[..4] then None
    else
      var first, rest := DecodeLast(t[..4]), Decode(t[4..]);
      if first.None? || rest.None? then None else Some(first.value + rest.value)
  }

  // The encoder.

  /** The sextets of three bytes. */
  function Sextets(a: Byte, b: Byte, c: Byte): (r: seq<Sextet>)
    ensures |r| == 4
  {
    [a / 4, a % 4 * 16 + b / 16, b % 16 * 4 + c / 64, c % 64]
  }

  // The masks and shifts of the source, and the quotients and remainders they are.

  function HighSix(x: bv8): Sextet {
    ((x & 0xfc) >> 2) as int
  }

  lemma HighSixIs(x: bv8)
    ensures HighSix(x) == x as int / 4
  {
  }

  function LowTwo(x: bv8): Sextet {
    ((x & 0x03) << 4) as int
  }

  lemma LowTwoIs(x: bv8)
    ensures LowTwo(x) == x as int % 4 * 16
  {
  }

  function HighFour(x: bv8): Sextet {
    ((x & 0xf0) >> 4) as int
  }

  lemma HighFourIs(x: bv8)
    ensures HighFour(x) == x as int / 16
  {
  }

  function LowFour(x: bv8): Sextet {
    ((x & 0x0f) << 2) as int
  }

  lemma LowFourIs(x: bv8)
    ensures LowFour(x) == x as int % 16 * 4
  {
  }

  function HighTwo(x: bv8): Sextet {
    ((x & 0xc0) >> 6) as int
  }

  lemma HighTwoIs(x: bv8)
    ensures HighTwo(x) == x as int / 64
  {
  }

  function LowSix(x: bv8): Sextet {
    (x & 0x3f) as int
  }

  lemma LowSixIs(x: bv8)
    ensures LowSix(x) == x as int % 64
  {
  }

  /** Bytes by their values. */
  function Values(s: seq<bv8>): (r: seq<Byte>)
    ensures |r| == |s| && forall i :: 0 <= i < |s| ==> r[i] == s[i] as int
  {
    seq(|s|, i requires 0 <= i < |s| => s[i] as int)
  }

  function Chars(vs: seq<Sextet>): (r: string)
    ensures |r| == |vs| && forall i :: 0 <= i < |vs| ==> r[i] == CharOf(vs[i])
  {
    seq(|vs|, i requires 0 <= i < |vs| => CharOf(vs[i]))
  }

  /** What is written for the bytes `s`. */
  function Encode(s: seq<Byte>): string {
    match |s|
    case 0 => ""
    case 1 => Chars(Sextets(s[0], 0, 0)[..2]) + "=="
    case 2 => Chars(Sextets(s[0], s[1], 0)[..3]) + "="
    case _ => Chars(Sextets(s[0], s[1], s[2])) + Encode(s[3..])
  }

  lemma Regrouped(a: Byte, b: Byte, c: Byte)
    ensures var v := Sextets(a, b, c); Bits(v[0], v[1], v[2], v[3]) == a * 0x1_0000 + b * 0x100 + c
  {
  }

  lemma BytesBack(a: Byte, b: Byte, c: Byte)
    ensures BytesOf(a * 0x1_0000 + b * 0x100 + c) == [a, b, c]
  {
    var n := a * 0x1_0000 + b * 0x100 + c;
    assert n / 0x1_0000 == a;
    assert n / 0x100 == a * 0x100 + b;
    assert (a * 0x100 + b) % 0x100 == b;
    assert n % 0x100 == c;
  }

  /** Sextets written in the alphabet decode to the bytes they came from. */
  lemma QuadDecodes(a: Byte, b: Byte, c: Byte)
    ensures DecodeLast(Chars(Sextets(a, b, c))) == Some([a, b, c]) && '=' !in Chars(Sextets(a, b, c))
    ensures DecodeLast(Chars(Sextets(a, b, 0)[..3]) + "=") == Some([a, b])
    ensures DecodeLast(Chars(Sextets(a, 0, 0)[..2]) + "==") == Some([a])
  {
    hide CharOf, ValueOf, Bits, BytesOf, Sextets;
    forall v: Sextet ensures ValueOf(CharOf(v)) == Some(v) && CharOf(v) != '=' { ValueOfChar(v); }
    Regrouped(a, b, c);
    BytesBack(a, b, c);
    Regrouped(a, b, 0);
    BytesBack(a, b, 0);
    Regrouped(a, 0, 0);
    BytesBack(a, 0, 0);
    Padded(a, b);
    assert [a, b, 0][..2] == [a, b] && [a, 0, 0][..1] == [a];
  }

  lemma Padded(a: Byte, b: Byte)
    ensures Sextets(a, b, 0)[3] == 0 && Sextets(a, 0, 0)[2] == 0 && Sextets(a, 0, 0)[3] == 0
  {
  }

  /** Decoding gives back what was encoded. */
  lemma {:induction false} DecodeEncode(s: seq<Byte>)
    ensures Decode(Encode(s)) == Some(s)
    ensures |Encode(s)| == (|s| + 2) / 3 * 4
    decreases |s|
  {
    hide DecodeLast, Chars, Sextets;
    if |s| == 1 {
      QuadDecodes(s[0], 0, 0);
      assert s == [s[0]];
    } else if |s| == 2 {
      QuadDecodes(s[0], s[1], 0);
      assert s == [s[0], s[1]];
    } else if |s| >= 3 {
      QuadDecodes(s[0], s[1], s[2]);
      DecodeEncode(s[3..]);
      var first, rest := Chars(Sextets(s[0], s[1], s[2])), Encode(s[3..]);
      assert (first + rest)[..4] == first && (first + rest)[4..] == rest;
      assert s == [s[0], s[1], s[2]] + s[3..];
      assert Encode(s) == first + rest;
      if |s| == 3 {
        assert s[3..] == [] && first + rest == first;
        assert s == [s[0], s[1], s[2]];
      }
    }
  }

  /** Only characters of the alphabet, with at most two '=' behind them. */
  lemma {:induction false} EncodeShape(s: seq<Byte>)
    ensures var pad := (3 - |s| % 3) % 3;
            var t := Encode(s);
            && pad <= |t| && (forall i :: 0 <= i < |t| - pad ==> ValueOf(t[i]).Some?)
            && (forall i :: |t| - pad <= i < |t| ==> t[i] == '=')
    decreases |s|
  {
    hide *;
    match |s|
    case 0 => NothingToEncode(s);
    case 1 => LastGroup(s); CharsInAlphabet(Sextets(s[0], 0, 0)[..2]);
    case 2 => LastGroup(s); CharsInAlphabet(Sextets(s[0], s[1], 0)[..3]);
    case _ =>
      EncodeShape(s[3..]);
      FirstGroup(s);
      CharsInAlphabet(Sextets(s[0], s[1], s[2]));
      assert |s[3..]| % 3 == |s| % 3;
  }

  lemma CharsInAlphabet(vs: seq<Sextet>)
    ensures |Chars(vs)| == |vs| && forall i :: 0 <= i < |vs| ==> ValueOf(Chars(vs)[i]).Some?
  {
    hide CharOf, ValueOf;
    forall v: Sextet ensures ValueOf(CharOf(v)) == Some(v) { ValueOfChar(v); }
  }

  lemma FirstGroup(s: seq<Byte>)
    requires |s| >= 3
    ensures Encode(s) == Chars(Sextets(s[0], s[1], s[2])) + Encode(s[3..])
  {
    hide Chars, Sextets;
  }

  lemma {:induction false} EncodeConcat(x: seq<Byte>, y: seq<Byte>)
    requires |x| % 3 == 0
    ensures Encode(x + y) == Encode(x) + Encode(y)
    decreases |x|
  {
    if x == [] {
      assert x + y == y;
    } else {
      assert (x + y)[3..] == x[3..] + y;
      EncodeConcat(x[3..], y);
    }
  }

  /** The length, as an unsigned int. */
  function Length32(n: nat): (r: nat)
    ensures r <= n && (r == n <==> n < 0x1_0000_0000)
  {
    n % 0x1_0000_0000
  }

  /** base64_encode. */
  method Base64Encode(bytes: seq<bv8>) returns (ret: string)
    ensures ret == Encode(Values(bytes)[..Length32(|bytes|)])
  {
    hide *;
    var triple, quad := new bv8[3], new Byte[4];
    var left: nat, p: nat, i: nat := Length32(|bytes|), 0, 0;
    ghost var all, g: nat := Values(bytes), 0;
    ret := "";
    assert ret == Encode(all[..0]) by { NothingToEncode(all[..0]); }
    while left != 0
      invariant i < 3 && p == 3 * g + i && p + left == Length32(|bytes|)
      invariant forall k :: 0 <= k < i ==> triple[k] == bytes[p - i + k]
      invariant ret == Encode(all[..p - i])
    {
      left := left - 1;
      triple[i] := bytes[p];
      i, p := i + 1, p + 1;
      if i == 3 {
        ret := Write(triple, quad, ret, 4);
        EncodeGroup(all, g, triple[0] as int, triple[1] as int, triple[2] as int);
        i, g := 0, g + 1;
      }
    }
    if i != 0 {
      Tail(bytes, triple[..i], p, i);
      ret := WriteLast(triple, quad, ret, i);
      EncodeGroups(all, g, p);
    }
  }

  lemma Tail(bytes: seq<bv8>, rest: seq<bv8>, p: nat, i: nat)
    requires i <= p <= |bytes| && |rest| == i && forall k :: 0 <= k < i ==> rest[k] == bytes[p - i + k]
    ensures Values(rest) == Values(bytes)[p - i..p]
  {
  }

  lemma EncodeGroup(all: seq<Byte>, g: nat, a: Byte, b: Byte, c: Byte)
    requires 3 * g + 3 <= |all| && a == all[3 * g] && b == all[3 * g + 1] && c == all[3 * g + 2]
    ensures Encode(all[..3 * g + 3]) == Encode(all[..3 * g]) + Chars(Sextets(a, b, c)[..4])
  {
    hide *;
    OneGroup(a, b, c);
    assert all[..3 * g + 3] == all[..3 * g] + [a, b, c];
    EncodeConcat(all[..3 * g], [a, b, c]);
  }

  lemma EncodeGroups(all: seq<Byte>, g: nat, p: nat)
    requires 3 * g <= p <= |all|
    ensures Encode(all[..p]) == Encode(all[..3 * g]) + Encode(all[3 * g..p])
  {
    hide *;
    EncodeConcat(all[..3 * g], all[3 * g..p]);
    assert all[..p] == all[..3 * g] + all[3 * g..p];
  }

  /** The end of base64_encode: one or two bytes are left. */
  method WriteLast(triple: array<bv8>, quad: array<Byte>, ret0: string, left: nat) returns (ret: string)
    requires triple.Length == 3 && quad.Length == 4 && 0 < left < 3
    modifies triple, quad
    ensures ret == ret0 + Encode(Values(old(triple[..left])))
  {
    hide CharOf, Encode, Chars, Sextets;
    ghost var rest := triple[..left];
    for j := left to 3
      invariant triple[..left] == rest && forall k :: left <= k < j ==> triple[k] == 0
    {
      triple[j] := 0;
    }
    assert left == 1 ==> Values(rest) == [triple[0] as int];
    assert left == 2 ==> Values(rest) == [triple[0] as int, triple[1] as int];
    ret := Write(triple, quad, ret0, left + 1);
    ghost var body := ret;
    var i := left;
    while i < 3
      invariant left <= i <= 3 && ret == body + seq(i - left, _ => '=')
    {
      ret := ret + "=";
      i := i + 1;
    }
    LastGroup(Values(rest));
  }

  /** The four masks and shifts, and the loop that writes the first `n` of their results. The sums are int sums. */
  method Write(triple: array<bv8>, quad: array<Byte>, ret0: string, n: nat) returns (ret: string)
    requires triple.Length == 3 && quad.Length == 4 && n <= 4
    modifies quad
    ensures ret == ret0 + Chars(Sextets(triple[0] as int, triple[1] as int, triple[2] as int)[..n])
  {
    hide *;
    var a, b, c := triple[0], triple[1], triple[2];
    ghost var v := Sextets(a as int, b as int, c as int);
    SumsAreSextets(a, b, c);
    quad[0] := HighSix(a);
    quad[1] := LowTwo(a) + HighFour(b);
    quad[2] := LowFour(b) + HighTwo(c);
    quad[3] := LowSix(c);
    ret := Look(quad[..], ret0, n, v);
  }

  lemma SumsAreSextets(a: bv8, b: bv8, c: bv8)
    ensures var v := Sextets(a as int, b as int, c as int);
            v[0] == HighSix(a) && v[1] == LowTwo(a) + HighFour(b) && v[2] == LowFour(b) + HighTwo(c) && v[3] == LowSix(c)
  {
    HighSixIs(a);
    LowTwoIs(a);
    HighFourIs(b);
    LowFourIs(b);
    HighTwoIs(c);
    LowSixIs(c);
    hide HighSix, LowTwo, HighFour, LowFour, HighTwo, LowSix;
  }

  /** The table lookups. */
  method Look(quad: seq<Byte>, ret0: string, n: nat, ghost v: seq<Sextet>) returns (ret: string)
    requires |quad| == |v| == 4 && n <= 4 && forall k :: 0 <= k < 4 ==> quad[k] == v[k]
    ensures ret == ret0 + Chars(v[..n])
  {
    hide CharOf;
    ret := ret0;
    for j := 0 to n
      invariant ret == ret0 + Chars(v[..j])
    {
      AlphabetIs(quad[j]);
      ret := ret + [ALPHABET[quad[j]]];
      assert Chars(v[..j + 1]) == Chars(v[..j]) + [CharOf(v[j])];
    }
  }

  lemma NothingToEncode(s: seq<Byte>)
    requires s == []
    ensures Encode(s) == ""
  {
  }

  lemma OneGroup(a: Byte, b: Byte, c: Byte)
    ensures Encode([a, b, c]) == Chars(Sextets(a, b, c)[..4])
  {
    assert [a, b, c][3..] == [];
    assert Sextets(a, b, c)[..4] == Sextets(a, b, c);
  }

  lemma LastGroup(s: seq<Byte>)
    ensures |s| == 1 ==> Encode(s) == Chars(Sextets(s[0], 0, 0)[..2]) + seq(2, _ => '=')
    ensures |s| == 2 ==> Encode(s) == Chars(Sextets(s[0], s[1], 0)[..3]) + seq(1, _ => '=')
  {
    assert seq(2, _ => '=') == "==" && seq(1, _ => '=') == "=";
  }

  /** The round trip holds exactly for inputs shorter than 2^32 bytes; of longer ones a piece is encoded. */
  lemma RoundTripExactly(bytes: seq<Byte>)
    ensures Decode(Encode(bytes[..Length32(|bytes|)])) == Some(bytes) <==> |bytes| < 0x1_0000_0000
  {
    hide Decode, Encode, Length32;
    DecodeEncode(bytes[..Length32(|bytes|)]);
    if |bytes| < 0x1_0000_0000 { assert bytes[..|bytes|] == bytes; }
  }
}
