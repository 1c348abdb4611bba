/** The binary codec that makes byte strings safe for SQL text: no 0x00 and no quote, with an offset
    chosen to need the fewest escapes. */
module SqliteBinary {
  import opened Wrappers

  type Byte = x: int | 0 <= x < 256

  const QUOTE: Byte := 0x27

  // ---------------------------------------------------------------- the encoding

  /** The byte minus the offset, modulo 256. */
  function Shifted(b: Byte, e: Byte): Byte {
    (b - e) % 256
  }

  predicate IsSpecial(c: Byte) {
    c == 0 || c == 1 || c == QUOTE
  }

  function Escape(c: Byte): seq<Byte> {
    if c == 0 then [1, 1] else if c == 1 then [1, 2] else if c == QUOTE then [1, 3] else [c]
  }

  function Body(x: seq<Byte>, e: Byte): seq<Byte> {
    if x == [] then [] else Escape(Shifted(x[0], e)) + Body(x[1..], e)
  }

  /** How many bytes need an escape at the offset. */
  function Escapes(x: seq<Byte>, e: Byte): nat {
    if x == [] then 0 else (if IsSpecial(Shifted(x[0], e)) then 1 else 0) + Escapes(x[1..], e)
  }

  predicate IsLegal(e: int) {
    1 <= e < 256 && e != QUOTE
  }

  /** The text is an encoding of `x` at a legal offset, and no legal offset needs fewer escapes. */
  ghost predicate IsEncoding(x: seq<Byte>, t: seq<Byte>) {
    if x == [] then t == [0x78]
    else
      && |t| > 0 && IsLegal(t[0])
      && t == [t[0]] + Body(x, t[0])
      && forall f: Byte :: IsLegal(f) ==> Escapes(x, t[0]) <= Escapes(x, f)
  }

  lemma {:induction false} BodyLength(x: seq<Byte>, e: Byte)
    ensures |Body(x, e)| == |x| + Escapes(x, e)
  {
    if x != [] {
      BodyLength(x[1..], e);
    }
  }

  lemma {:induction false} BodyPush(x: seq<Byte>, b: Byte, e: Byte)
    ensures Body(x + [b], e) == Body(x, e) + Escape(Shifted(b, e))
  {
    if x == [] {
      assert x + [b] == [b];
      assert Body([b][1..], e) == [];
    } else {
      assert (x + [b])[1..] == x[1..] + [b];
      BodyPush(x[1..], b, e);
    }
  }

  lemma {:induction false} BodyJoin(x: seq<Byte>, y: seq<Byte>, e: Byte)
    ensures Body(x + y, e) == Body(x, e) + Body(y, e)
  {
    hide Escape;
    if x == [] {
      assert x + y == y;
    } else {
      assert (x + y)[1..] == x[1..] + y;
      BodyJoin(x[1..], y, e);
    }
  }

  /** Every byte of a string is written in its place as its distance from the offset, except that the
      distances 0x00, 0x01 and 0x27 are written as 0x01 0x01, 0x01 0x02 and 0x01 0x03. */
  lemma CodeOfByte(front: seq<Byte>, b: Byte, back: seq<Byte>, e: Byte, distance: Byte)
    requires distance == if b >= e then b - e else b + 256 - e
    ensures Body(front + [b] + back, e) == Body(front, e)
            + (if distance == 0x00 then [0x01, 0x01] else if distance == 0x01 then [0x01, 0x02]
               else if distance == 0x27 then [0x01, 0x03] else [distance])
            + Body(back, e)
    ensures Body([], e) == []
  {
    BodyJoin(front + [b], back, e);
    BodyPush(front, b, e);
    assert Shifted(b, e) == distance;
    hide Body;
  }

  /** Nothing is written as the letter x. */
  lemma NothingIsX(t: seq<Byte>)
    ensures IsEncoding([], t) <==> t == ['x' as int]
  {}

  /** The body contains neither 0x00 nor the quote. */
  lemma {:induction false} BodyIsSafe(x: seq<Byte>, e: Byte)
    ensures forall c :: c in Body(x, e) ==> c != 0 && c != QUOTE
  {
    if x != [] {
      BodyIsSafe(x[1..], e);
    }
  }

  // ---------------------------------------------------------------- decoding

  /** The text after its offset byte; `None` when an escape is malformed. */
  function DecodeBody(t: seq<Byte>, e: Byte): Option<seq<Byte>> {
    if t == [] then Some([])
    else if t[0] != 1 then Prepend((t[0] + e) % 256, DecodeBody(t[1..], e))
    else if |t| > 1 && Unescape(t[1]).Some? then Prepend((Unescape(t[1]).value + e) % 256, DecodeBody(t[2..], e))
    else None
  }

  function Unescape(c: Byte): Option<Byte> {
    if c == 1 then Some(0) else if c == 2 then Some(1) else if c == 3 then Some(QUOTE) else None
  }

  function Prepend(b: Byte, x: Option<seq<Byte>>): Option<seq<Byte>> {
    match x
    case Some(s) => Some([b] + s)
    case None => None
  }

  function Decode(t: seq<Byte>): Option<seq<Byte>>
    requires |t| > 0
  {
    DecodeBody(t[1..], t[0])
  }

  lemma ShiftBack(b: Byte, e: Byte)
    ensures (Shifted(b, e) + e) % 256 == b
  {}

  lemma {:induction false} DecodeEscaped(x: seq<Byte>, e: Byte)
    ensures DecodeBody(Body(x, e), e) == Some(x)
  {
    if x != [] {
      var c, rest := Shifted(x[0], e), Body(x[1..], e);
      var t := Body(x, e);
      ShiftBack(x[0], e);
      DecodeEscaped(x[1..], e);
      assert x == [x[0]] + x[1..];
      if IsSpecial(c) {
        assert t[2..] == rest;
      } else {
        assert t[1..] == rest;
      }
    }
  }

  /** Decoding an encoding gives the bytes back, for every byte string; and the text has neither 0x00
      nor a quote. */
  lemma RoundTrip(x: seq<Byte>, t: seq<Byte>)
    requires IsEncoding(x, t)
    ensures |t| > 0 && Decode(t) == Some(x)
    ensures 0 !in t && QUOTE !in t
  {
    if x != [] {
      assert t[1..] == Body(x, t[0]);
      DecodeEscaped(x, t[0]);
      BodyIsSafe(x, t[0]);
    }
  }

  lemma ShiftForward(c: Byte, e: Byte)
    ensures Shifted((c + e) % 256, e) == c
  {}

  /** The other direction: a text without 0x00 and quotes that decodes is the encoding, at its own
      offset, of what it decodes to. */
  lemma {:induction false} EncodeDecoded(t: seq<Byte>, e: Byte)
    requires 0 !in t && QUOTE !in t && DecodeBody(t, e).Some?
    ensures Body(DecodeBody(t, e).value, e) == t
    decreases |t|
  {
    hide Shifted;
    if t != [] {
      assert t[0] in t;
      var n, c := if t[0] == 1 then 2 else 1, if t[0] == 1 then Unescape(t[1]).value else t[0];
      EncodeDecoded(t[n..], e);
      ShiftForward(c, e);
      var rest := DecodeBody(t[n..], e).value;
      assert DecodeBody(t, e).value == [(c + e) % 256] + rest;
      assert ([(c + e) % 256] + rest)[1..] == rest;
      assert t == t[..n] + t[n..];
      assert t[..n] == Escape(c);
    }
  }

  // ---------------------------------------------------------------- the size bound

  function Count(x: seq<Byte>, v: int): nat {
    if x == [] then 0 else (if x[0] == v then 1 else 0) + Count(x[1..], v)
  }

  /** The three counts the encoder adds up are the number of escapes. */
  lemma {:induction false} EscapesAreCounts(x: seq<Byte>, e: Byte)
    ensures Escapes(x, e) == Count(x, e) + Count(x, (e + 1) % 256) + Count(x, (e + QUOTE) % 256)
  {
    if x != [] {
      EscapesAreCounts(x[1..], e);
      SpecialMeans(x[0], e);
    }
  }

  lemma SpecialMeans(b: Byte, e: Byte)
    ensures Shifted(b, e) == 0 <==> b == e
    ensures Shifted(b, e) == 1 <==> b == (e + 1) % 256
    ensures Shifted(b, e) == QUOTE <==> b == (e + QUOTE) % 256
    ensures e != (e + 1) % 256 && e != (e + QUOTE) % 256 && (e + 1) % 256 != (e + QUOTE) % 256
  {}

  /** Sum of the escapes over all legal offsets below `k`. */
  ghost function TotalEscapes(x: seq<Byte>, k: nat): nat
    requires k <= 256
  {
    if k == 0 then 0 else TotalEscapes(x, k - 1) + if IsLegal(k - 1) then Escapes(x, k - 1) else 0
  }

  /** How many legal offsets below `k` escape the byte. */
  ghost function Hits(b: Byte, k: nat): nat
    requires k <= 256
  {
    if k == 0 then 0 else Hits(b, k - 1) + if IsLegal(k - 1) && IsSpecial(Shifted(b, k - 1)) then 1 else 0
  }

  function Below(v: int, k: nat): nat {
    if v < k then 1 else 0
  }

  lemma SpecialOffsets(b: Byte, e: Byte)
    requires IsSpecial(Shifted(b, e))
    ensures e == b || e == (b - 1) % 256 || e == (b - QUOTE) % 256
  {
    SpecialMeans(b, e);
  }

  /** Each byte is escaped by at most three offsets. */
  lemma {:induction false} AtMostThreeHits(b: Byte, k: nat)
    requires k <= 256
    ensures Hits(b, k) <= Below(b, k) + Below((b - 1) % 256, k) + Below((b - QUOTE) % 256, k)
  {
    hide Shifted, IsSpecial;
    if k > 0 {
      AtMostThreeHits(b, k - 1);
      if IsLegal(k - 1) && IsSpecial(Shifted(b, k - 1)) {
        SpecialOffsets(b, k - 1);
      }
    }
  }

  lemma {:induction false} TotalSplits(x: seq<Byte>, k: nat)
    requires k <= 256 && x != []
    ensures TotalEscapes(x, k) == Hits(x[0], k) + TotalEscapes(x[1..], k)
  {
    if k > 0 {
      TotalSplits(x, k - 1);
    }
  }

  lemma {:induction false} TotalOfNothing(k: nat)
    requires k <= 256
    ensures TotalEscapes([], k) == 0
  {
    if k > 0 {
      TotalOfNothing(k - 1);
    }
  }

  lemma {:induction false} TotalBound(x: seq<Byte>)
    ensures TotalEscapes(x, 256) <= 3 * |x|
  {
    if x == [] {
      TotalOfNothing(256);
    } else {
      TotalSplits(x, 256);
      AtMostThreeHits(x[0], 256);
      TotalBound(x[1..]);
    }
  }

  /** Number of legal offsets below `k`. */
  function Legals(k: nat): nat {
    (if k <= 1 then 0 else k - 1) - if k > QUOTE then 1 else 0
  }

  lemma Distribute(m: nat, a: nat)
    ensures m * (a + 1) == m * a + m
  {}

  lemma {:induction false} TotalAtLeast(x: seq<Byte>, k: nat, m: nat)
    requires k <= 256
    requires forall f: Byte :: f < k && IsLegal(f) ==> m <= Escapes(x, f)
    ensures m * Legals(k) <= TotalEscapes(x, k)
  {
    if k > 0 {
      TotalAtLeast(x, k - 1, m);
      assert Legals(k) == Legals(k - 1) + if IsLegal(k - 1) then 1 else 0;
      hide Legals, Escapes;
      Distribute(m, Legals(k - 1));
      if IsLegal(k - 1) {
        var f: Byte := k - 1;
        assert m <= Escapes(x, f);
      }
    }
  }

  /** The pigeonhole: when no legal offset needs fewer than `m` escapes, 254 times `m` is at most
      three times the number of bytes. */
  lemma Pigeonhole(x: seq<Byte>, m: nat)
    requires forall f: Byte :: IsLegal(f) ==> m <= Escapes(x, f)
    ensures 254 * m <= 3 * |x|
  {
    assert Legals(256) == 254;
    hide *;
    TotalAtLeast(x, 256, m);
    TotalBound(x);
  }

  /** The documented buffer size is enough for the encoding and its terminator. */
  lemma SizeBound(x: seq<Byte>, t: seq<Byte>)
    requires IsEncoding(x, t)
    ensures |t| + 1 <= 2 + (257 * |x|) / 254
  {
    if x != [] {
      BodyLength(x, t[0]);
      Pigeonhole(x, Escapes(x, t[0]));
    }
  }

  /** A buffer has room for re-encoding: some legal offset fits, and so the shortest one does. */
  ghost predicate Fits(x: seq<Byte>, size: int) {
    if x == [] then size >= 2
    else exists f: Byte :: IsLegal(f) && 2 + |x| + Escapes(x, f) <= size
  }

  lemma DocumentedSizeFits(x: seq<Byte>, size: int)
    requires size >= 2 + (257 * |x|) / 254
    ensures Fits(x, size)
  {
    if x != [] && !Fits(x, size) {
      forall f: Byte | IsLegal(f) ensures size - 1 - |x| <= Escapes(x, f) {}
      Pigeonhole(x, if size - 1 - |x| >= 0 then size - 1 - |x| else 0);
    }
  }

  // ---------------------------------------------------------------- the loops

  /** `x` decoded so far, the rest still to do. */
  ghost predicate Continues(whole: Option<seq<Byte>>, x: seq<Byte>, rest: Option<seq<Byte>>) {
    match rest
    case Some(y) => whole.Some? && whole.value == x + y
    case None => whole == None
  }

  lemma BodyPrefix(x: seq<Byte>, i: nat, e: Byte)
    requires i < |x|
    ensures Body(x[..i + 1], e) == Body(x[..i], e) + Escape(Shifted(x[i], e))
    ensures |Body(x[..i], e)| + |Escape(Shifted(x[i], e))| <= |Body(x, e)|
  {
    assert x[..i + 1] == x[..i] + [x[i]];
    BodyPush(x[..i], x[i], e);
    BodyJoin(x[..i + 1], x[i + 1..], e);
    assert x == x[..i + 1] + x[i + 1..];
  }

  lemma EncodingOf(x: seq<Byte>, e: Byte)
    requires x != [] && IsLegal(e)
    requires forall f: Byte :: IsLegal(f) ==> Escapes(x, e) <= Escapes(x, f)
    ensures IsEncoding(x, [e] + Body(x, e))
  {}

  /** The counting loop: how often each byte occurs. */
  method CountBytes(inp: array<Byte>, n: nat) returns (cnt: array<nat>)
    requires n <= inp.Length
    ensures fresh(cnt) && cnt.Length == 256
    ensures forall v :: 0 <= v < 256 ==> cnt[v] == Count(inp[..n], v)
  {
    cnt := new nat[256](_ => 0);
    var i := n - 1;
    assert inp[n..n] == [];
    while i >= 0
      invariant -1 <= i < n
      invariant forall v :: 0 <= v < 256 ==> cnt[v] == Count(inp[i + 1..n], v)
    {
      assert inp[i..n][1..] == inp[i + 1..n];
      cnt[inp[i]] := cnt[inp[i]] + 1;
      i := i - 1;
    }
  }

  /** The search for an offset.  `None` models that the source leaves the variable unassigned; the
      pigeonhole shows that it never does. */
  method ChooseOffset(inp: array<Byte>, n: nat) returns (offset: Option<Byte>)
    requires 0 < n <= inp.Length
    ensures offset.Some? && IsLegal(offset.value)
    ensures forall f: Byte :: IsLegal(f) ==> Escapes(inp[..n], offset.value) <= Escapes(inp[..n], f)
    ensures forall f: Byte :: IsLegal(f) && f < offset.value ==> Escapes(inp[..n], offset.value) < Escapes(inp[..n], f)
  {
    ghost var x := inp[..n];
    var cnt := CountBytes(inp, n);
    assert inp[..n] == x;
    hide Escapes, Count;
    offset := None;
    var m := n;
    var i := 1;
    while i < 256
      invariant 1 <= i <= 256 && inp[..n] == x
      invariant forall v :: 0 <= v < 256 ==> cnt[v] == Count(x, v)
      invariant forall f: Byte :: IsLegal(f) && f < i ==> m <= Escapes(x, f)
      invariant offset == None ==> m == n
      invariant offset.Some? ==> IsLegal(offset.value) && Escapes(x, offset.value) == m
      invariant offset.Some? ==> forall f: Byte :: IsLegal(f) && f < offset.value ==> m < Escapes(x, f)
    {
      if i != QUOTE {
        var sum := cnt[i] + cnt[(i + 1) % 256] + cnt[(i + QUOTE) % 256];
        EscapesAreCounts(x, i);
        if sum < m {
          m := sum;
          offset := Some(i);
          if m == 0 {
            break;
          }
        }
      }
      i := i + 1;
    }
    Pigeonhole(x, m);
  }

  /** Writes one shifted byte, escaped when needed. */
  method PutByte(out: array<Byte>, j0: nat, c: Byte) returns (j: nat)
    requires j0 + |Escape(c)| <= out.Length
    modifies out
    ensures j == j0 + |Escape(c)|
    ensures out[..j] == old(out[..j0]) + Escape(c)
    ensures forall k :: j <= k < out.Length ==> out[k] == old(out[k])
  {
    j := j0;
    if c == 0 {
      out[j] := 1;
      out[j + 1] := 1;
      j := j + 2;
    } else if c == 1 {
      out[j] := 1;
      out[j + 1] := 2;
      j := j + 2;
    } else if c == QUOTE {
      out[j] := 1;
      out[j + 1] := 3;
      j := j + 2;
    } else {
      out[j] := c;
      j := j + 1;
    }
  }

  /** `sqlite3_encode_binary`. */
  method EncodeBinary(inp: array<Byte>, n: int, out: array<Byte>) returns (len: int)
    requires n <= inp.Length && inp != out
    requires Fits(if n <= 0 then [] else inp[..n], out.Length)
    modifies out
    ensures 0 < len < out.Length && out[len] == 0
    ensures IsEncoding(if n <= 0 then [] else inp[..n], out[..len])
    ensures forall k :: len < k < out.Length ==> out[k] == old(out[k])
  {
    if n <= 0 {
      out[0] := 0x78;
      out[1] := 0;
      return 1;
    }
    ghost var x := inp[..n];
    var offset := ChooseOffset(inp, n);
    BodyLength(x, offset.value);
    EncodingOf(x, offset.value);
    hide IsEncoding, Body;
    len := EncodeAt(inp, n, offset.value, out);
  }

  /** The writing loop at a chosen offset. */
  method EncodeAt(inp: array<Byte>, n: nat, e: Byte, out: array<Byte>) returns (len: int)
    requires 0 < n <= inp.Length && inp != out
    requires 1 + |Body(inp[..n], e)| < out.Length
    modifies out
    ensures 0 < len < out.Length && out[len] == 0
    ensures out[..len] == [e] + Body(inp[..n], e)
    ensures forall k :: len < k < out.Length ==> out[k] == old(out[k])
  {
    ghost var x := inp[..n];
    out[0] := e;
    var j := 1;
    ghost var done := [e];
    BodyOfNothing(x, e);
    hide Shifted, Body, Escape;
    for i := 0 to n
      invariant inp[..n] == x
      invariant j == |done| <= out.Length && out[..j] == done
      invariant done == [e] + Body(x[..i], e)
      invariant forall k :: j <= k < out.Length ==> out[k] == old(out[k])
    {
      BodyPrefix(x, i, e);
      j := PutByte(out, j, Shifted(inp[i], e));
      done := done + Escape(Shifted(x[i], e));
      Regroup(e, Body(x[..i], e), Escape(Shifted(x[i], e)));
    }
    assert j < out.Length;
    out[j] := 0;
    assert out[..j] == done;
    return j;
  }

  lemma BodyOfNothing(x: seq<Byte>, e: Byte)
    ensures [e] == [e] + Body(x[..0], e)
    ensures x[..|x|] == x
  {}

  lemma Regroup(e: Byte, a: seq<Byte>, b: seq<Byte>)
    ensures [e] + a + b == [e] + (a + b)
  {}

  /** Characters the next byte of the text takes; 0 when its escape is malformed. */
  function NextLength(t: seq<Byte>): nat
    requires |t| > 0
  {
    if t[0] != 1 then 1 else if |t| > 1 && Unescape(t[1]).Some? then 2 else 0
  }

  function NextByte(t: seq<Byte>): Byte
    requires |t| > 0 && NextLength(t) > 0
  {
    if t[0] != 1 then t[0] else Unescape(t[1]).value
  }

  lemma DecodeStep(whole: Option<seq<Byte>>, x: seq<Byte>, t: seq<Byte>, e: Byte)
    requires |t| > 0 && Continues(whole, x, DecodeBody(t, e))
    ensures NextLength(t) <= |t|
    ensures NextLength(t) == 0 ==> whole == None
    ensures NextLength(t) > 0 ==> Continues(whole, x + [(NextByte(t) + e) % 256], DecodeBody(t[NextLength(t)..], e))
  {
    var n := NextLength(t);
    if n > 0 {
      var b: Byte := (NextByte(t) + e) % 256;
      assert DecodeBody(t, e) == Prepend(b, DecodeBody(t[n..], e));
      if DecodeBody(t[n..], e).Some? {
        assert x + ([b] + DecodeBody(t[n..], e).value) == x + [b] + DecodeBody(t[n..], e).value;
      }
    }
  }

  /** `sqlite3_decode_binary`.  The two buffers may be the same: the write index never reaches the
      read index.  `text` is the C string in the input buffer. */
  method DecodeBinary(inp: array<Byte>, out: array<Byte>, ghost text: seq<Byte>) returns (len: int)
    requires 0 < |text| < inp.Length && inp[..|text|] == text && inp[|text|] == 0
    requires forall k :: 1 <= k < |text| ==> text[k] != 0
    requires out.Length >= |text| - 1
    modifies out
    ensures match Decode(text)
            case Some(x) => len == |x| < |text| && out[..len] == x
            case None => len == -1
  {
    var e: Byte := inp[0];
    var r, i := 1, 0;
    ghost var done: seq<Byte> := [];
    ghost var whole := Decode(text);
    FirstOf(inp, text);
    hide DecodeBody, Unescape, Continues, NextByte, NextLength, Decode, Unread;
    DecodeStart(text);
    while inp[r] != 0
      invariant 1 <= r <= |text| && 0 <= i < r && i <= out.Length && out[..i] == done
      invariant Unread(inp, r, text)
      invariant Continues(whole, done, DecodeBody(text[r..], e))
      decreases |text| - r
    {
      var n;
      n, done := DecodeOne(inp, out, r, i, e, text, whole, done);
      if n == 0 {
        return -1;
      }
      r, i := r + n, i + 1;
    }
    EndOf(inp, r, text);
    DecodeEnd(whole, done, text, r, e);
    return i;
  }

  /** One round of the decoding loop; 0 characters when the text is malformed. */
  method DecodeOne(inp: array<Byte>, out: array<Byte>, r: nat, i: nat, e: Byte, ghost text: seq<Byte>,
                   ghost whole: Option<seq<Byte>>, ghost done0: seq<Byte>)
    returns (n: nat, ghost done: seq<Byte>)
    requires 0 < r <= |text| && i < r && out.Length >= |text| - 1
    requires Unread(inp, r, text) && inp[r] != 0 && out[..i] == done0
    requires Continues(whole, done0, DecodeBody(text[r..], e))
    modifies out
    ensures n == 0 ==> whole == None
    ensures n > 0 ==>
              && r + n <= |text| && i + 1 <= out.Length && out[..i + 1] == done
              && Unread(inp, r + n, text)
              && Continues(whole, done, DecodeBody(text[r + n..], e))
  {
    hide DecodeBody, Unescape, Continues, NextByte, NextLength, Unread;
    EndOf(inp, r, text);
    DecodeStep(whole, done0, text[r..], e);
    done := done0;
    var c;
    c, n := ReadNext(inp, r, text);
    if n > 0 {
      var b: Byte := (c + e) % 256;
      UnreadLater(inp, r, r + n, text);
      StoreByte(inp, out, i, b, r + n, text);
      done := done + [b];
      DropDrop(text, r, n);
    }
  }

  /** The input buffer still holds the text from index `r` on, and its terminator. */
  ghost predicate Unread(inp: array<Byte>, r: nat, text: seq<Byte>)
    reads inp
  {
    && |text| < inp.Length && inp[|text|] == 0
    && forall k :: r <= k < |text| ==> inp[k] == text[k] && (k > 0 ==> inp[k] != 0)
  }

  lemma FirstOf(inp: array<Byte>, text: seq<Byte>)
    requires 0 < |text| < inp.Length && inp[..|text|] == text && inp[|text|] == 0
    requires forall k :: 1 <= k < |text| ==> text[k] != 0
    ensures inp[0] == text[0] && Unread(inp, 1, text)
  {
    assert forall k :: 0 <= k < |text| ==> inp[..|text|][k] == inp[k];
  }

  lemma UnreadLater(inp: array<Byte>, r: nat, later: nat, text: seq<Byte>)
    requires r <= later && Unread(inp, r, text)
    ensures Unread(inp, later, text)
  {}

  lemma EndOf(inp: array<Byte>, r: nat, text: seq<Byte>)
    requires 0 < r <= |text| && Unread(inp, r, text)
    ensures |text| < inp.Length && (inp[r] == 0 <==> r == |text|)
  {}

  /** Writes below the read index leave the unread text alone, even when the buffers are the same. */
  method StoreByte(inp: array<Byte>, out: array<Byte>, i: nat, b: Byte, r: nat, ghost text: seq<Byte>)
    requires i < out.Length && i < r && i + 1 < |text| && Unread(inp, r, text)
    modifies out
    ensures Unread(inp, r, text) && i < out.Length
    ensures out[..i + 1] == old(out[..i]) + [b]
  {
    out[i] := b;
  }

  lemma DropDrop(t: seq<Byte>, r: nat, n: nat)
    requires r + n <= |t|
    ensures t[r..][n..] == t[r + n..]
  {}

  lemma DecodeStart(text: seq<Byte>)
    requires |text| > 0
    ensures Continues(Decode(text), [], DecodeBody(text[1..], text[0]))
  {
    if Decode(text).Some? {
      assert [] + Decode(text).value == Decode(text).value;
    }
  }

  lemma DecodeEnd(whole: Option<seq<Byte>>, x: seq<Byte>, text: seq<Byte>, r: nat, e: Byte)
    requires r == |text| && Continues(whole, x, DecodeBody(text[r..], e))
    ensures whole == Some(x)
  {
    assert x + [] == x;
  }

  /** One character or escape sequence at the read index; 0 characters when it is malformed. */
  method ReadNext(inp: array<Byte>, r: nat, ghost text: seq<Byte>) returns (c: Byte, n: nat)
    requires 0 < r < |text| && Unread(inp, r, text)
    ensures n == NextLength(text[r..]) && r + n <= |text|
    ensures n > 0 ==> c == NextByte(text[r..])
  {
    c, n := inp[r], 1;
    if c == 1 {
      c, n := inp[r + 1], 2;
      if c == 1 {
        c := 0;
      } else if c == 2 {
        c := 1;
      } else if c == 3 {
        c := QUOTE;
      } else {
        n := 0;
      }
    }
  }

  // ---------------------------------------------------------------- the buffer object

  /** A text that re-encodes into its own buffer: neither 0x00 nor quotes, and it decodes. */
  predicate IsEscapedText(t: seq<Byte>) {
    |t| > 0 && 0 !in t && QUOTE !in t && Decode(t).Some?
  }

  /** What an escaped text decodes to can be encoded again in the space of the text and its
      terminator, because the offset search finds the shortest encoding. */
  lemma ReencodingFits(t: seq<Byte>)
    requires IsEscapedText(t)
    ensures Fits(Decode(t).value, |t| + 1)
  {
    hide DecodeBody, Body, Escapes, Fits;
    var x, e := Decode(t).value, t[0];
    assert e in t;
    assert forall c :: c in t[1..] ==> c in t;
    EncodeDecoded(t[1..], e);
    BodyLength(x, e);
    FitsAt(x, e, |t| + 1);
  }

  lemma FitsAt(x: seq<Byte>, e: Byte, size: int)
    requires IsLegal(e) && 1 + |x| + Escapes(x, e) + 1 <= size
    ensures Fits(x, size)
  {
    hide Escapes, IsLegal;
  }

  class CppSQLite3Binary {
    var buf: array?<Byte>
    var binaryLen: int
    var bufferLen: int
    var encodedLen: int
    var encoded: bool

    /** The buffer has the recorded size and holds a C string with an offset byte, or plain bytes. */
    ghost predicate Valid()
      reads this, buf
    {
      && buf != null && buf.Length == bufferLen
      && (encoded ==>
           && 0 < encodedLen < bufferLen && buf[encodedLen] == 0
           && forall k :: 1 <= k < encodedLen ==> buf[k] != 0)
      && (!encoded ==> 0 <= binaryLen <= bufferLen)
    }

    /** The bytes the object stands for; `None` when it holds a text that does not decode. */
    ghost function Content(): Option<seq<Byte>>
      requires Valid()
      reads this, buf
    {
      if encoded then Decode(buf[..encodedLen]) else Some(buf[..binaryLen])
    }

    /** The content can be encoded into the buffer. */
    ghost predicate Roomy()
      requires Valid()
      reads this, buf
    {
      Content().Some? && Fits(Content().value, bufferLen)
    }

    /** The content can be encoded, and a text that is held is an escaped one. */
    ghost predicate Settled()
      requires Valid()
      reads this, buf
    {
      Roomy() && (encoded ==> IsEscapedText(buf[..encodedLen]))
    }

    constructor ()
      ensures buf == null && binaryLen == bufferLen == encodedLen == 0 && !encoded
    {
      buf, binaryLen, bufferLen, encodedLen, encoded := null, 0, 0, 0, false;
    }

    method Clear()
      modifies this
      ensures old(buf) != null ==> buf == null && binaryLen == bufferLen == 0
      ensures old(buf) == null ==> unchanged(this)
    {
      if buf != null {
        binaryLen, bufferLen := 0, 0;
        buf := null;
      }
    }

    /** A buffer with space for any encoding of `len` bytes. */
    method AllocBuffer(len: int)
      requires len >= 0
      modifies this
      ensures Valid() && fresh(buf) && !encoded && binaryLen == len
      ensures bufferLen == 3 + (257 * len) / 254
    {
      Clear();
      binaryLen := len;
      bufferLen := 3 + (257 * len) / 254;
      buf := new Byte[bufferLen](_ => 0);
      encoded := false;
    }

    method SetBinary(data: array<Byte>, len: int)
      requires 0 <= len <= data.Length
      modifies this
      ensures Valid() && fresh(buf) && !encoded && Content() == Some(data[..len]) && Roomy() && Settled()
    {
      AllocBuffer(len);
      CopyBytes(data, len, buf);
      DocumentedSizeFits(data[..len], bufferLen);
    }

    /** Takes a copy of a C string with at least an offset byte. */
    method SetEncoded(data: array<Byte>, ghost text: seq<Byte>)
      requires 0 < |text| < data.Length && data[..|text|] == text && data[|text|] == 0 && 0 !in text
      modifies this
      ensures Valid() && fresh(buf) && encoded && Content() == Decode(text)
      ensures IsEscapedText(text) ==> Roomy() && Settled()
    {
      Clear();
      encodedLen := CStringLength(data, text);
      bufferLen := encodedLen + 1;
      buf := new Byte[bufferLen](_ => 0);
      CopyBytes(data, bufferLen, buf);
      encoded := true;
      assert forall k :: 0 <= k < |text| ==> data[..|text|][k] == text[k] && text[k] in text;
      assert forall k :: 0 <= k < bufferLen ==> buf[..bufferLen][k] == data[..bufferLen][k];
      assert buf[..encodedLen] == text;
      if IsEscapedText(text) {
        ReencodingFits(text);
      }
    }

    /** The text of the content, encoding it in the buffer when it is not a text yet. */
    method GetEncoded()
      requires Valid() && (!encoded ==> Roomy())
      modifies this, buf
      ensures Valid() && encoded && buf == old(buf) && Content() == old(Content())
      ensures old(Roomy()) ==> Roomy()
      ensures !old(encoded) ==> IsEncoding(old(Content()).value, buf[..encodedLen])
      ensures old(encoded) ==> encodedLen == old(encodedLen) && buf[..] == old(buf[..])
      ensures old(Settled()) ==> Settled()
    {
      if !encoded {
        ghost var x := buf[..binaryLen];
        var tmp := new Byte[binaryLen](_ => 0);
        CopyBytes(buf, binaryLen, tmp);
        var out: array<Byte> := buf;
        encodedLen := EncodeBinary(tmp, binaryLen, out);
        encoded := true;
        RoundTrip(x, buf[..encodedLen]);
        assert forall k :: 0 <= k < encodedLen ==> buf[..encodedLen][k] in buf[..encodedLen];
      }
    }

    /** The bytes of the content, decoding the text in place.  A malformed text is reported (the
        source throws). */
    method GetBinary() returns (ok: bool)
      requires Valid()
      modifies this, buf
      ensures ok <==> old(Content()).Some?
      ensures ok ==> Valid() && !encoded && buf == old(buf) && Content() == old(Content()) && binaryLen == |Content().value|
      ensures ok && old(Roomy()) ==> Roomy()
    {
      if encoded {
        var b: array<Byte> := buf;
        ghost var text := buf[..encodedLen];
        binaryLen := DecodeBinary(b, b, text);
        if binaryLen == -1 {
          return false;
        }
        encoded := false;
      }
      return true;
    }

    method GetBinaryLength() returns (ok: bool, len: int)
      requires Valid()
      modifies this, buf
      ensures ok <==> old(Content()).Some?
      ensures ok ==> Valid() && !encoded && buf == old(buf) && bufferLen == old(bufferLen)
      ensures ok ==> Content() == old(Content()) && len == |Content().value|
      ensures ok && old(Roomy()) ==> Roomy()
    {
      ok := GetBinary();
      len := binaryLen;
    }

    /** Any sequence of calls, whatever their order: every answer is about the same content, every text is
        escaped and decodes to it, and the buffer is neither replaced nor outgrown. */
    method AnswerAll(calls: seq<Call>) returns (answers: seq<Answer>)
      requires Valid() && Settled()
      modifies this, buf
      ensures Valid() && Settled() && Content() == old(Content())
      ensures buf == old(buf) && bufferLen == old(bufferLen)
      ensures |answers| == |calls|
      ensures forall i :: 0 <= i < |calls| ==> Answers(calls[i], answers[i], old(Content()).value, old(bufferLen))
    {
      answers := [];
      ghost var x := Content().value;
      for i := 0 to |calls|
        invariant Valid() && Settled() && Content() == Some(x)
        invariant buf == old(buf) && bufferLen == old(bufferLen) && |answers| == i
        invariant forall k :: 0 <= k < i ==> Answers(calls[k], answers[k], x, old(bufferLen))
      {
        var answer := AnswerOne(calls[i]);
        answers := answers + [answer];
      }
    }

    method AnswerOne(call: Call) returns (answer: Answer)
      requires Valid() && Settled()
      modifies this, buf
      ensures Valid() && Settled() && Content() == old(Content())
      ensures buf == old(buf) && bufferLen == old(bufferLen)
      ensures Answers(call, answer, old(Content()).value, old(bufferLen))
    {
      match call {
        case AskEncoded =>
          GetEncoded();
          answer := Text(buf[..encodedLen]);
        case AskBinary =>
          var ok := GetBinary();
          answer := Bytes(buf[..binaryLen]);
        case AskLength =>
          var ok, len := GetBinaryLength();
          answer := Length(len);
      }
    }
  }

  /** The three questions a user can ask the object, and what it answers. */
  datatype Call = AskEncoded | AskBinary | AskLength

  datatype Answer = Text(text: seq<Byte>) | Bytes(bytes: seq<Byte>) | Length(len: int)

  /** The answer is right for an object that stands for `x`, in a buffer of this size. */
  ghost predicate Answers(call: Call, answer: Answer, x: seq<Byte>, size: int) {
    match call
    case AskEncoded =>
      answer.Text? && IsEscapedText(answer.text) && Decode(answer.text) == Some(x) && |answer.text| < size
    case AskBinary => answer == Bytes(x)
    case AskLength => answer == Length(|x|)
  }

  /** `strlen`. */
  method CStringLength(data: array<Byte>, ghost text: seq<Byte>) returns (len: nat)
    requires |text| < data.Length && data[..|text|] == text && data[|text|] == 0 && 0 !in text
    ensures len == |text|
  {
    assert forall k :: 0 <= k < |text| ==> data[..|text|][k] == text[k] && text[k] in text;
    len := 0;
    while data[len] != 0
      invariant 0 <= len <= |text|
      decreases |text| - len
    {
      len := len + 1;
    }
  }

  /** `memcpy`. */
  method CopyBytes(data: array<Byte>, n: nat, out: array<Byte>)
    requires data != out && n <= data.Length && n <= out.Length
    modifies out
    ensures out[..n] == data[..n]
  {
    for i := 0 to n
      invariant out[..i] == data[..i]
    {
      out[i] := data[i];
    }
  }
}
