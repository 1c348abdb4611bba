/** The Base64 codec: the alphabet of section 4 of RFC 4648, buffers written by index. */
module Base64 {
  // ---------------------------------------------------------------- the two tables

  type Byte = x: int | 0 <= x < 256 witness 0

  /** The padding character. */
  const PAD: Byte := 61

  /** `basis_64`. */
  function Basis(v: Byte): Byte {
    if v < 26 then v + 65
    else if v < 52 then v + 71
    else if v < 62 then v - 4
    else if v == 62 then 43
    else 47
  }

  /** `pr2six`: 64 for every byte outside the alphabet. */
  function Pr2Six(c: Byte): Byte {
    if 65 <= c <= 90 then c - 65
    else if 97 <= c <= 122 then c - 71
    else if 48 <= c <= 57 then c + 4
    else if c == 43 then 62
    else if c == 47 then 63
    else 64
  }

  predicate InAlphabet(c: Byte) {
    Pr2Six(c) <= 63
  }

  /** The tables are inverse to each other. */
  lemma TablesInverse(v: Byte)
    ensures v < 64 ==> Pr2Six(Basis(v)) == v && InAlphabet(Basis(v))
  {}

  lemma NotInAlphabet()
    ensures !InAlphabet(PAD) && !InAlphabet(0)
  {}

  // ---------------------------------------------------------------- bits

  // Shifts, masks and the "or" of disjoint fields, written as division, remainder and sum.

  function First6(x: Byte): Byte {
    x / 4
  }

  function Second6(x: Byte, y: Byte): Byte {
    x % 4 * 16 + y / 16
  }

  function Third6(y: Byte, z: Byte): Byte {
    y % 16 * 4 + z / 64
  }

  function Fourth6(z: Byte): Byte {
    z % 64
  }

  /** What the last sextet of a padded group holds. */
  function Last2(x: Byte): Byte {
    x % 4 * 16
  }

  function Last4(y: Byte): Byte {
    y % 16 * 4
  }

  function Byte1(a: Byte, b: Byte): Byte {
    (a * 4 + b / 16) % 256
  }

  function Byte2(b: Byte, c: Byte): Byte {
    (b * 16 + c / 4) % 256
  }

  function Byte3(c: Byte, d: Byte): Byte {
    (c * 64 + d) % 256
  }

  lemma Sextets(x: Byte, y: Byte)
    ensures First6(x) < 64 && Second6(x, y) < 64 && Third6(x, y) < 64 && Fourth6(x) < 64
    ensures Last2(x) < 64 && Last4(x) < 64
  {}

  /** Three bytes cut into four sextets and put together again. */
  lemma BitsBack(x: Byte, y: Byte, z: Byte)
    ensures Byte1(First6(x), Second6(x, y)) == x && Byte1(First6(x), Last2(x)) == x
    ensures Byte2(Second6(x, y), Third6(y, z)) == y && Byte2(Second6(x, y), Last4(y)) == y
    ensures Byte3(Third6(y, z), Fourth6(z)) == z
  {
    hide First6, Second6, Third6, Fourth6, Last2, Last4, Byte1, Byte2, Byte3;
    FirstBack(x, y);
    SecondBack(x, y, z);
    ThirdBack(y, z);
  }

  lemma Div16(a: nat, r: nat)
    requires r < 16
    ensures (a * 16 + r) / 16 == a
  {}

  lemma Div4(a: nat, r: nat)
    requires r < 4
    ensures (a * 4 + r) / 4 == a
  {}

  lemma Mod256(a: nat, y: Byte)
    ensures (a * 256 + y) % 256 == y
  {}

  lemma Parts(x: Byte)
    ensures x / 4 * 4 + x % 4 == x && x / 16 * 16 + x % 16 == x && x / 64 * 64 + x % 64 == x
  {}

  lemma FirstBack(x: Byte, y: Byte)
    ensures Byte1(First6(x), Second6(x, y)) == x && Byte1(First6(x), Last2(x)) == x
  {
    Div16(x % 4, y / 16);
    Div16(x % 4, 0);
    Parts(x);
    Mod256(0, x);
  }

  lemma SecondBack(x: Byte, y: Byte, z: Byte)
    ensures Byte2(Second6(x, y), Third6(y, z)) == y && Byte2(Second6(x, y), Last4(y)) == y
  {
    Div4(y % 16, z / 64);
    Div4(y % 16, 0);
    Parts(y);
    Mod256(x % 4, y);
  }

  lemma ThirdBack(y: Byte, z: Byte)
    ensures Byte3(Third6(y, z), Fourth6(z)) == z
  {
    Parts(z);
    Mod256(y % 16, z);
  }

  /** The characters of three bytes, decoded. */
  lemma CharsBack(x: Byte, y: Byte, z: Byte)
    ensures Pr2Six(Basis(First6(x))) == First6(x) && InAlphabet(Basis(First6(x)))
    ensures Pr2Six(Basis(Second6(x, y))) == Second6(x, y) && InAlphabet(Basis(Second6(x, y)))
    ensures Pr2Six(Basis(Third6(y, z))) == Third6(y, z) && InAlphabet(Basis(Third6(y, z)))
    ensures Pr2Six(Basis(Fourth6(z))) == Fourth6(z) && InAlphabet(Basis(Fourth6(z)))
    ensures Pr2Six(Basis(Last2(x))) == Last2(x) && InAlphabet(Basis(Last2(x)))
    ensures Pr2Six(Basis(Last4(y))) == Last4(y) && InAlphabet(Basis(Last4(y)))
  {
    hide First6, Second6, Third6, Fourth6, Last2, Last4, Basis, Pr2Six, InAlphabet;
    Sextets(x, y);
    Sextets(y, z);
    Sextets(z, z);
    TablesInverse(First6(x));
    TablesInverse(Second6(x, y));
    TablesInverse(Third6(y, z));
    TablesInverse(Fourth6(z));
    TablesInverse(Last2(x));
    TablesInverse(Last4(y));
  }

  // ---------------------------------------------------------------- texts

  /** One group: one to three bytes as four characters. */
  function EncodeGroup(s: seq<Byte>): (r: seq<Byte>)
    requires 1 <= |s| <= 3
    ensures |r| == 4
  {
    if |s| == 1 then [Basis(First6(s[0])), Basis(Last2(s[0])), PAD, PAD]
    else if |s| == 2 then [Basis(First6(s[0])), Basis(Second6(s[0], s[1])), Basis(Last4(s[1])), PAD]
    else [Basis(First6(s[0])), Basis(Second6(s[0], s[1])), Basis(Third6(s[1], s[2])), Basis(Fourth6(s[2]))]
  }

  function EncodeText(s: seq<Byte>): (r: seq<Byte>)
    ensures |r| == (|s| + 2) / 3 * 4
  {
    if s == [] then []
    else if |s| <= 3 then EncodeGroup(s)
    else
      assert (|s| + 2) / 3 == (|s| - 1) / 3 + 1;
      EncodeGroup(s[..3]) + EncodeText(s[3..])
  }

  // ---------------------------------------------------------------- the code of RFC 4648

  /** The tables hold the alphabet in its order. */
  lemma TablesAreAlphabet(v: Byte)
    ensures v < 26 ==> Basis(v) == 'A' as int + v && Pr2Six('A' as int + v) == v
    ensures 26 <= v < 52 ==> Basis(v) == 'a' as int + v - 26 && Pr2Six('a' as int + v - 26) == v
    ensures 52 <= v < 62 ==> Basis(v) == '0' as int + v - 52 && Pr2Six('0' as int + v - 52) == v
    ensures Basis(62) == '+' as int && Basis(63) == '/' as int && PAD == '=' as int
    ensures Pr2Six('+' as int) == 62 && Pr2Six('/' as int) == 63
  {}

  /** The sextets of a group, read as one number, highest first, are its bytes read as one number. */
  lemma SextetsAreBytes(x: Byte, y: Byte, z: Byte)
    ensures ((First6(x) * 64 + Second6(x, y)) * 64 + Third6(y, z)) * 64 + Fourth6(z) == (x * 256 + y) * 256 + z
    ensures (First6(x) * 64 + Second6(x, y)) * 64 + Last4(y) == (x * 256 + y) * 4
    ensures First6(x) * 64 + Last2(x) == x * 16
  {
    Parts(x);
    Parts(y);
    Parts(z);
  }

  /** Test vectors of RFC 4648, section 10: "f" is "Zg==", "fo" is "Zm8=" and "foobar" is "Zm9vYmFy". */
  lemma TestVectors()
    ensures EncodeText([102]) == [90, 103, 61, 61]
    ensures EncodeText([102, 111]) == [90, 109, 56, 61]
    ensures EncodeText([102, 111, 111, 98, 97, 114]) == [90, 109, 57, 118, 89, 109, 70, 121]
  {
    var s: seq<Byte> := [102, 111, 111, 98, 97, 114];
    assert s[..3] == [102, 111, 111] && s[3..] == [98, 97, 114];
    assert EncodeText(s[3..]) == EncodeGroup([98, 97, 114]);
  }

  /** The number of leading bytes of the alphabet. */
  function Valid(t: seq<Byte>): (n: nat)
    ensures n <= |t| && (n < |t| ==> !InAlphabet(t[n]))
    ensures forall k :: 0 <= k < n ==> InAlphabet(t[k])
  {
    if t == [] || !InAlphabet(t[0]) then 0 else 1 + Valid(t[1..])
  }

  /** The bytes of up to four characters. */
  function DecodeGroup(t: seq<Byte>): (r: seq<Byte>)
    requires |t| <= 4
    ensures |r| == if |t| <= 1 then 0 else |t| - 1
  {
    if |t| <= 1 then []
    else if |t| == 2 then [Byte1(Pr2Six(t[0]), Pr2Six(t[1]))]
    else if |t| == 3 then [Byte1(Pr2Six(t[0]), Pr2Six(t[1])), Byte2(Pr2Six(t[1]), Pr2Six(t[2]))]
    else
      [Byte1(Pr2Six(t[0]), Pr2Six(t[1])), Byte2(Pr2Six(t[1]), Pr2Six(t[2])), Byte3(Pr2Six(t[2]), Pr2Six(t[3]))]
  }

  function DecodeText(t: seq<Byte>): (r: seq<Byte>)
    ensures |r| == DecodedLength(|t|)
  {
    if |t| <= 4 then DecodeGroup(t) else DecodeGroup(t[..4]) + DecodeText(t[4..])
  }

  /** The returned length: three per started group, less what the last group lacks. */
  function DecodedLength(n: nat): nat {
    if n == 0 then 0 else (n + 3) / 4 * 3 - (3 - (n + 3) % 4)
  }

  /** Three bytes per started group. */
  function PlainLen(n: nat): nat {
    (n + 3) / 4 * 3
  }

  /** The number of characters in front of the padding. */
  function Unpadded(n: nat): nat {
    n / 3 * 4 + (if n % 3 == 0 then 0 else n % 3 + 1)
  }

  lemma UnpaddedStep(n: nat)
    ensures n <= 3 ==> Unpadded(n) == if n == 0 then 0 else n + 1
    ensures n > 3 ==> Unpadded(n) == 4 + Unpadded(n - 3)
    ensures Unpadded(n) <= (n + 2) / 3 * 4 && DecodedLength(Unpadded(n)) == n
  {}

  /** What a group looks like and what it decodes to. */
  lemma GroupBack(s: seq<Byte>)
    requires 1 <= |s| <= 3
    ensures var g := EncodeGroup(s);
      && (forall k :: 0 <= k <= |s| && k < 4 ==> InAlphabet(g[k]))
      && (|s| < 3 ==> !InAlphabet(g[|s| + 1]))
      && DecodeGroup(g[..|s| + 1]) == s
  {
    hide First6, Second6, Third6, Fourth6, Last2, Last4, Byte1, Byte2, Byte3, Basis, Pr2Six, InAlphabet;
    var x, y, z := s[0], if |s| > 1 then s[1] else 0, if |s| > 2 then s[2] else 0;
    CharsBack(x, y, z);
    BitsBack(x, y, z);
    NotInAlphabet();
  }

  lemma {:induction false} ValidAfter(front: seq<Byte>, rest: seq<Byte>)
    requires forall k :: 0 <= k < |front| ==> InAlphabet(front[k])
    ensures Valid(front + rest) == |front| + Valid(rest)
  {
    hide InAlphabet;
    if front == [] {
      assert front + rest == rest;
    } else {
      ValidAfter(front[1..], rest);
      assert (front + rest)[1..] == front[1..] + rest;
    }
  }

  /** Exactly the first characters of an encoded text are in the alphabet. */
  lemma {:induction false} ValidEncoded(s: seq<Byte>, tail: seq<Byte>)
    requires tail != [] && !InAlphabet(tail[0])
    ensures Valid(EncodeText(s) + tail) == Unpadded(|s|)
    decreases |s|
  {
    hide InAlphabet, EncodeGroup, Unpadded, DecodeGroup, Valid;
    UnpaddedStep(|s|);
    if s == [] {
      assert EncodeText(s) + tail == tail;
      NothingValid(tail);
    } else if |s| <= 3 {
      GroupBack(s);
      var g := EncodeGroup(s);
      ValidGroup(g[..|s| + 1], g[|s| + 1..], tail);
      assert g[..|s| + 1] + g[|s| + 1..] == g;
    } else {
      GroupBack(s[..3]);
      ValidEncoded(s[3..], tail);
      var g, rest := EncodeGroup(s[..3]), EncodeText(s[3..]);
      ValidAfter(g, rest + tail);
      Regroup(g, rest, tail);
    }
  }

  lemma NothingValid(tail: seq<Byte>)
    requires tail != [] && !InAlphabet(tail[0])
    ensures Valid(tail) == 0
  {
    hide InAlphabet;
  }

  /** A group whose front is in the alphabet and whose back starts outside. */
  lemma ValidGroup(front: seq<Byte>, back: seq<Byte>, tail: seq<Byte>)
    requires (forall k :: 0 <= k < |front| ==> InAlphabet(front[k])) && (back != [] ==> !InAlphabet(back[0]))
    requires tail != [] && !InAlphabet(tail[0])
    ensures Valid((front + back) + tail) == |front|
  {
    hide InAlphabet, Valid;
    Regroup(front, back, tail);
    ValidAfter(front, back + tail);
    NothingValid(back + tail);
  }

  /** What decoding a buffer yields: the bytes of the characters in front of the first byte outside
      the alphabet. */
  function ReadBack(t: seq<Byte>): seq<Byte> {
    DecodeText(t[..Valid(t)])
  }

  /** Decoding what was encoded gives it back, whatever follows the text's end. */
  lemma RoundTrip(s: seq<Byte>, tail: seq<Byte>)
    requires tail != [] && !InAlphabet(tail[0])
    ensures ReadBack(EncodeText(s) + tail) == s
  {
    hide InAlphabet, EncodeText, DecodeText, Unpadded, DecodedLength;
    ValidEncoded(s, tail);
    UnpaddedStep(|s|);
    var t := EncodeText(s) + tail;
    assert t[..Unpadded(|s|)] == EncodeText(s)[..Unpadded(|s|)];
    DecodeEncoded(s);
  }

  /** The returned number is the exact length of what was encoded. */
  lemma ExactLength(s: seq<Byte>, tail: seq<Byte>)
    requires tail != [] && !InAlphabet(tail[0])
    ensures DecodedLength(Valid(EncodeText(s) + tail)) == |s|
  {
    hide InAlphabet, EncodeText, Unpadded, DecodedLength;
    ValidEncoded(s, tail);
    UnpaddedStep(|s|);
  }

  lemma {:induction false} DecodeEncoded(s: seq<Byte>)
    ensures Unpadded(|s|) <= |EncodeText(s)|
    ensures DecodeText(EncodeText(s)[..Unpadded(|s|)]) == s
  {
    hide EncodeGroup, DecodeGroup, Unpadded, InAlphabet;
    UnpaddedStep(|s|);
    var e := EncodeText(s);
    if s == [] {
      assert DecodeGroup([]) == [];
    } else if |s| <= 3 {
      GroupBack(s);
    } else {
      GroupBack(s[..3]);
      DecodeEncoded(s[3..]);
      var g, rest := EncodeGroup(s[..3]), EncodeText(s[3..])[..Unpadded(|s| - 3)];
      assert e[..Unpadded(|s|)] == g + rest;
      UnpaddedStep(|s| - 3);
      PrefixDecodes(g, rest);
      assert g[..4] == g;
    }
  }

  lemma PrefixDecodes(g: seq<Byte>, rest: seq<Byte>)
    requires |g| == 4 && rest != []
    ensures DecodeText(g + rest) == DecodeGroup(g) + DecodeText(rest)
  {
    hide DecodeGroup;
    assert (g + rest)[..4] == g && (g + rest)[4..] == rest;
  }

  // ---------------------------------------------------------------- the buffers

  function EncodeLen(len: nat): nat {
    (len + 2) / 3 * 4 + 1
  }

  /** `Base64decode_len`: room for what decoding writes, its terminator included. */
  method DecodeLen(coded: array<Byte>) returns (n: nat)
    requires Valid(coded[..]) < coded.Length
    ensures n == PlainLen(Valid(coded[..])) + 1
    ensures var text := DecodeText(coded[..Valid(coded[..])]); |text| + 1 <= n <= |text| + 4
  {
    hide Valid, DecodeText;
    var valid := CountValid(coded);
    DecodeFits(valid);
    return PlainLen(valid) + 1;
  }

  /** The number of bytes written stays within `Base64decode_len`, which exceeds it by at most three. */
  lemma DecodeFits(n: nat)
    ensures DecodedLength(n) <= PlainLen(n) <= DecodedLength(n) + 3
    ensures PlainLen(n) % 3 == 0 && 4 * (PlainLen(n) / 3) - 4 < n <= 4 * (PlainLen(n) / 3)
  {}

  /** The scan over the alphabet. */
  method CountValid(coded: array<Byte>) returns (n: nat)
    requires Valid(coded[..]) < coded.Length
    ensures n == Valid(coded[..])
  {
    hide InAlphabet;
    n := 0;
    assert coded[0..] == coded[..];
    while InAlphabet(coded[n])
      invariant 0 <= n < coded.Length && n + Valid(coded[n..]) == Valid(coded[..])
      decreases coded.Length - n
    {
      assert coded[n..][1..] == coded[n + 1..] && coded[n..][0] == coded[n];
      n := n + 1;
    }
    assert coded[n..][0] == coded[n];
  }

  /** `*p++ = x`. */
  method Put(a: array<Byte>, p: nat, x: Byte) returns (next: nat)
    requires p < a.Length
    modifies a
    ensures next == p + 1
    ensures a[..next] == old(a[..p]) + [x] && a[next..] == old(a[..])[next..]
    ensures forall k :: p < k < a.Length ==> a[k] == old(a[k])
  {
    a[p] := x;
    return p + 1;
  }

  lemma Suffix(s: seq<Byte>, now: seq<Byte>, p: nat, next: nat)
    requires p <= next <= |s| == |now| && now[p..] == s[p..]
    ensures now[next..] == s[next..]
  {
    assert now[next..] == now[p..][next - p..] && s[next..] == s[p..][next - p..];
  }

  /** `Base64encode`. */
  method Encode(encoded: array<Byte>, s: array<Byte>, len: nat) returns (n: nat)
    requires len <= s.Length && encoded.Length >= EncodeLen(len) && encoded != s
    modifies encoded
    ensures n == EncodeLen(len)
    ensures encoded[..n] == EncodeText(s[..len]) + [0]
    ensures encoded[n..] == old(encoded[..])[n..]
  {
    hide EncodeText, EncodeGroup;
    ghost var t, q, orig := s[..len], 0, encoded[..];
    var p, i := 0, 0;
    assert t[0..] == t && [] + EncodeText(t) == EncodeText(t);
    while i < len - 2
      invariant 0 <= i <= len && i == 3 * q && p == 4 * q
      invariant encoded[..p] + EncodeText(t[i..]) == EncodeText(t)
      invariant p <= encoded.Length && encoded[p..] == orig[p..] && s[..len] == t
      decreases len - i
    {
      GroupFits(len, q);
      GroupText(t, i);
      Regroup(encoded[..p], EncodeGroup(t[i..i + 3]), EncodeText(t[i + 3..]));
      Suffix(orig, encoded[..], p, p + 4);
      p := EncodeFull(encoded, p, s[i], s[i + 1], s[i + 2], t[i..i + 3]);
      i := i + 3;
      q := q + 1;
    }
    LastFits(len, q);
    Suffix(orig, encoded[..], p, EncodeLen(len));
    n := EncodeRest(encoded, s, len, t, i, p);
  }

  lemma Regroup(a: seq<Byte>, b: seq<Byte>, c: seq<Byte>)
    ensures a + (b + c) == (a + b) + c
  {}

  lemma GroupFits(len: nat, q: nat)
    requires 3 * q < len - 2
    ensures 4 * q + 4 < EncodeLen(len)
  {}

  lemma LastFits(len: nat, q: nat)
    requires len - 2 <= 3 * q <= len
    ensures EncodeLen(len) - 1 == if len == 3 * q then 4 * q else 4 * q + 4
  {}

  /** A full group at position `i`. */
  lemma GroupText(t: seq<Byte>, i: nat)
    requires i + 3 <= |t|
    ensures EncodeText(t[i..]) == EncodeGroup(t[i..i + 3]) + EncodeText(t[i + 3..])
  {
    hide EncodeGroup;
    assert t[i..][..3] == t[i..i + 3] && t[i..][3..] == t[i + 3..];
    if i + 3 == |t| {
      assert t[i..] == t[i..i + 3] && t[i + 3..] == [];
    }
  }

  /** Four characters for three bytes. */
  method EncodeFull(encoded: array<Byte>, p0: nat, x: Byte, y: Byte, z: Byte, ghost group: seq<Byte>) returns (p: nat)
    requires p0 + 4 <= encoded.Length && group == [x, y, z]
    modifies encoded
    ensures p == p0 + 4 && encoded[..p] == old(encoded[..p0]) + EncodeGroup(group)
    ensures encoded[p..] == old(encoded[..])[p..]
  {
    hide First6, Second6, Third6, Fourth6, Basis;
    p := Put(encoded, p0, Basis(First6(x)));
    p := Put(encoded, p, Basis(Second6(x, y)));
    p := Put(encoded, p, Basis(Third6(y, z)));
    p := Put(encoded, p, Basis(Fourth6(z)));
  }

  /** The last one or two bytes with their padding, and the terminator. */
  method EncodeRest(encoded: array<Byte>, s: array<Byte>, len: nat, ghost t: seq<Byte>, i: nat, p0: nat) returns (p: nat)
    requires len <= s.Length && encoded != s && s[..len] == t
    requires len - 2 <= i <= len && p0 + (if i < len then 4 else 0) < encoded.Length
    modifies encoded
    ensures p == p0 + (if i < len then 5 else 1)
    ensures encoded[..p] == old(encoded[..p0]) + EncodeText(t[i..]) + [0]
    ensures encoded[p..] == old(encoded[..])[p..]
  {
    hide First6, Second6, Last2, Last4, Basis;
    p := p0;
    if i < len {
      var x := s[i];
      p := Put(encoded, p, Basis(First6(x)));
      if i == len - 1 {
        p := Put(encoded, p, Basis(Last2(x)));
        p := Put(encoded, p, PAD);
        assert t[i..] == [x];
      } else {
        var y := s[i + 1];
        p := Put(encoded, p, Basis(Second6(x, y)));
        p := Put(encoded, p, Basis(Last4(y)));
        assert t[i..] == [x, y];
      }
      p := Put(encoded, p, PAD);
    } else {
      assert t[i..] == [];
    }
    p := Put(encoded, p, 0);
  }

  /** `Base64decode`; the two buffers may be the same. */
  method Decode(plain: array<Byte>, coded: array<Byte>) returns (n: nat)
    requires Valid(coded[..]) < coded.Length
    requires plain.Length >= PlainLen(Valid(coded[..])) + 1
    modifies plain
    ensures n == DecodedLength(Valid(old(coded[..])))
    ensures plain[..n + 1] == DecodeText(old(coded[..Valid(coded[..])])) + [0]
    ensures plain[n + 1..] == old(plain[..])[n + 1..]
  {
    hide Valid, DecodeText, DecodeGroup, DecodedLength, PlainLen;
    var nprbytes := CountValid(coded);
    ghost var t, q, orig := coded[..nprbytes], 0, plain[..];
    var decoded := PlainLen(nprbytes);
    var bufin, bufout := 0, 0;
    assert t[0..] == t && [] + DecodeText(t) == DecodeText(t);
    while nprbytes > 4
      invariant bufin == 4 * q && bufout == 3 * q && 0 <= nprbytes && bufin + nprbytes == |t|
      invariant bufin > 0 ==> nprbytes > 0
      invariant bufout <= plain.Length && plain[..bufout] + DecodeText(t[bufin..]) == DecodeText(t)
      invariant plain[bufout..] == orig[bufout..]
      invariant forall k :: bufin <= k < |t| ==> coded[k] == t[k]
    {
      GroupBounds(|t|, q);
      GroupBytes(t, bufin);
      Regroup(plain[..bufout], DecodeGroup(t[bufin..bufin + 4]), DecodeText(t[bufin + 4..]));
      Suffix(orig, plain[..], bufout, bufout + 3);
      bufout := DecodeFull(plain, coded, t, bufin, bufout);
      bufin, nprbytes, q := bufin + 4, nprbytes - 4, q + 1;
    }
    Lengths(|t|, nprbytes, q);
    LastBytes(t, bufin);
    Suffix(orig, plain[..], bufout, DecodedLength(|t|) + 1);
    DecodeRest(plain, coded, t, bufin, bufout, nprbytes);
    n := decoded - (4 - nprbytes) % 4;
  }

  lemma GroupBounds(n: nat, q: nat)
    requires 4 * q + 4 < n
    ensures 3 * q + 3 < PlainLen(n)
  {}

  /** What the last group lacks. */
  lemma Lengths(n: nat, left: nat, q: nat)
    requires n == 4 * q + left && left <= 4 && (q > 0 ==> left > 0)
    ensures PlainLen(n) - (4 - left) % 4 == DecodedLength(n) <= PlainLen(n)
    ensures DecodedLength(n) == 3 * q + (if left <= 1 then 0 else left - 1)
  {
    if left > 0 {
      assert (n + 3) / 4 == q + 1;
      assert (n + 3) % 4 == left - 1;
    }
  }

  lemma GroupBytes(t: seq<Byte>, i: nat)
    requires i + 4 < |t|
    ensures DecodeText(t[i..]) == DecodeGroup(t[i..i + 4]) + DecodeText(t[i + 4..])
  {
    hide DecodeGroup;
    assert t[i..][..4] == t[i..i + 4] && t[i..][4..] == t[i + 4..];
  }

  lemma LastBytes(t: seq<Byte>, i: nat)
    requires i <= |t| <= i + 4
    ensures DecodeText(t[i..]) == DecodeGroup(t[i..])
  {
    hide DecodeGroup;
  }

  /** Three bytes from four characters; a byte is written before the characters behind it are read. */
  method DecodeFull(plain: array<Byte>, coded: array<Byte>, ghost t: seq<Byte>, i: nat, out0: nat) returns (bufout: nat)
    requires i + 4 <= |t| <= coded.Length && out0 + 3 <= plain.Length && out0 <= i
    requires forall k :: i <= k < |t| ==> coded[k] == t[k]
    modifies plain
    ensures bufout == out0 + 3 && plain[..bufout] == old(plain[..out0]) + DecodeGroup(t[i..i + 4])
    ensures plain[bufout..] == old(plain[..])[bufout..]
    ensures forall k :: i + 4 <= k < |t| ==> coded[k] == t[k]
  {
    hide Byte1, Byte2, Byte3, Pr2Six;
    bufout := Put(plain, out0, Byte1(Pr2Six(coded[i]), Pr2Six(coded[i + 1])));
    bufout := Put(plain, bufout, Byte2(Pr2Six(coded[i + 1]), Pr2Six(coded[i + 2])));
    bufout := Put(plain, bufout, Byte3(Pr2Six(coded[i + 2]), Pr2Six(coded[i + 3])));
    assert t[i..i + 4] == [t[i], t[i + 1], t[i + 2], t[i + 3]];
  }

  /** The last group and the terminator. */
  method DecodeRest(plain: array<Byte>, coded: array<Byte>, ghost t: seq<Byte>, i: nat, out0: nat, nprbytes: nat)
    requires i <= |t| <= coded.Length && nprbytes == |t| - i <= 4 && out0 <= i
    requires out0 + (if nprbytes <= 1 then 0 else nprbytes - 1) < plain.Length
    requires forall k :: i <= k < |t| ==> coded[k] == t[k]
    modifies plain
    ensures var n := out0 + (if nprbytes <= 1 then 0 else nprbytes - 1);
      && plain[..n + 1] == old(plain[..out0]) + DecodeGroup(t[i..]) + [0]
      && plain[n + 1..] == old(plain[..])[n + 1..]
  {
    hide Byte1, Byte2, Byte3, Pr2Six, DecodeGroup;
    GroupCases(t[i..]);
    var bufout := out0;
    if nprbytes > 1 {
      bufout := Put(plain, bufout, Byte1(Pr2Six(coded[i]), Pr2Six(coded[i + 1])));
      if nprbytes > 2 {
        bufout := Put(plain, bufout, Byte2(Pr2Six(coded[i + 1]), Pr2Six(coded[i + 2])));
        if nprbytes > 3 {
          bufout := Put(plain, bufout, Byte3(Pr2Six(coded[i + 2]), Pr2Six(coded[i + 3])));
        }
      }
    }
    Terminate(plain, bufout, old(plain[..]), out0, DecodeGroup(t[i..]));
  }

  lemma GroupCases(t: seq<Byte>)
    requires |t| <= 4
    ensures |t| <= 1 ==> DecodeGroup(t) == []
    ensures |t| == 2 ==> DecodeGroup(t) == [Byte1(Pr2Six(t[0]), Pr2Six(t[1]))]
    ensures |t| == 3 ==> DecodeGroup(t) == [Byte1(Pr2Six(t[0]), Pr2Six(t[1])), Byte2(Pr2Six(t[1]), Pr2Six(t[2]))]
    ensures |t| == 4 ==> DecodeGroup(t) == [Byte1(Pr2Six(t[0]), Pr2Six(t[1])), Byte2(Pr2Six(t[1]), Pr2Six(t[2])),
                                            Byte3(Pr2Six(t[2]), Pr2Six(t[3]))]
  {
    hide Byte1, Byte2, Byte3, Pr2Six;
  }

  method Terminate(plain: array<Byte>, p: nat, ghost orig: seq<Byte>, ghost out0: nat, ghost g: seq<Byte>)
    requires out0 <= p < plain.Length == |orig|
    requires plain[..p] == orig[..out0] + g && plain[p..] == orig[p..]
    modifies plain
    ensures plain[..p + 1] == orig[..out0] + g + [0] && plain[p + 1..] == orig[p + 1..]
  {
    Suffix(orig, plain[..], p, p + 1);
    var next := Put(plain, p, 0);
  }
}
