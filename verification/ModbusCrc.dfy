/** The frame checksum of the charger: CRC generation in the MODBUS over Serial Line specification
    (section 6.2.2), reflected polynomial 0xA001, initial value 0xFFFF, low byte first. */
module ModbusCrc {

  const POLYNOMIAL: bv16 := 0xA001

  function Add(a: bv16, b: bv16): bv16 {
    a ^ b
  }

  function Half(r: bv16): bv16 {
    r >> 1
  }

  predicate IsOdd(r: bv16) {
    r & 1 == 1
  }

  function Wide(b: bv8): bv16 {
    b as bv16
  }

  /** One shift of the register. */
  function Shift(r: bv16): bv16 {
    if IsOdd(r) then Add(Half(r), POLYNOMIAL) else Half(r)
  }

  function Shifts(r: bv16, n: nat): bv16 {
    if n == 0 then r else Shift(Shifts(r, n - 1))
  }

  /** One byte: exclusive-or into the register, then eight shifts. */
  function Step(r: bv16, b: bv8): bv16 {
    Shifts(Add(r, Wide(b)), 8)
  }

  function Register(r: bv16, data: seq<bv8>): bv16 {
    if data == [] then r else Step(Register(r, data[..|data| - 1]), data[|data| - 1])
  }

  function Crc(data: seq<bv8>): bv16 {
    Register(0xFFFF, data)
  }

  function Low(c: bv16): bv8 {
    (c & 0xFF) as bv8
  }

  function High(c: bv16): bv8 {
    (c >> 8) as bv8
  }

  /** What `sendCommand` sends: the data, then the CRC with its low byte first. */
  function Frame(data: seq<bv8>): seq<bv8> {
    data + [Low(Crc(data)), High(Crc(data))]
  }

  /** `check_crc` of a frame. */
  predicate CheckCrc(frame: seq<bv8>)
    requires |frame| >= 2
  {
    var c := Crc(frame[..|frame| - 2]);
    frame[|frame| - 2] == Low(c) && frame[|frame| - 1] == High(c)
  }

  // ---------------------------------------------------------------- bits

  lemma AddOfOdds(a: bv16, b: bv16)
    ensures IsOdd(Add(a, b)) <==> IsOdd(a) != IsOdd(b)
  {}

  lemma HalfOfAdd(a: bv16, b: bv16)
    ensures Half(Add(a, b)) == Add(Half(a), Half(b))
  {}

  lemma AddCommutes(a: bv16, b: bv16)
    ensures Add(a, b) == Add(b, a)
  {}

  lemma AddGroups(a: bv16, b: bv16, c: bv16)
    ensures Add(Add(a, b), c) == Add(a, Add(b, c))
  {}

  lemma AddSame(a: bv16)
    ensures Add(a, a) == 0 && Add(a, 0) == a && Add(0, a) == a
  {}

  lemma AddFirst(a: bv16, b: bv16, p: bv16)
    ensures Add(Add(a, p), b) == Add(Add(a, b), p)
    ensures Add(a, Add(b, p)) == Add(Add(a, b), p)
  {
    hide Add;
    AddGroups(a, p, b);
    AddCommutes(p, b);
    AddGroups(a, b, p);
  }

  lemma AddPairs(a: bv16, b: bv16, c: bv16, d: bv16)
    ensures Add(Add(a, b), Add(c, d)) == Add(Add(a, c), Add(b, d))
  {
    hide Add;
    AddGroups(a, b, Add(c, d));
    AddGroups(b, c, d);
    AddCommutes(b, c);
    AddGroups(c, b, d);
    AddGroups(a, c, Add(b, d));
  }

  lemma AddBoth(a: bv16, b: bv16, p: bv16)
    ensures Add(Add(a, p), Add(b, p)) == Add(a, b)
  {
    hide Add;
    AddPairs(a, p, b, p);
    AddSame(p);
    AddSame(Add(a, b));
  }

  lemma AddZero(a: bv16, b: bv16)
    ensures Add(a, b) == 0 <==> a == b
    ensures Add(a, 0) == a && Add(0, a) == a
  {
    hide Add;
    AddSame(a);
    AddSame(b);
    AddGroups(a, b, b);
  }

  lemma WideOfXor(a: bv8, b: bv8)
    ensures Wide(Xor8(a, b)) == Add(Wide(a), Wide(b))
    ensures Xor8(a, b) == 0 <==> a == b
  {}

  lemma WideZero(b: bv8)
    ensures Wide(b) == 0 <==> b == 0
  {}

  // ---------------------------------------------------------------- algebra of the register

  lemma ShiftLinear(a: bv16, b: bv16)
    ensures Shift(Add(a, b)) == Add(Shift(a), Shift(b))
  {
    hide Add, Half, IsOdd;
    AddOfOdds(a, b);
    HalfOfAdd(a, b);
    AddBoth(Half(a), Half(b), POLYNOMIAL);
    AddFirst(Half(a), Half(b), POLYNOMIAL);
  }

  lemma ShiftZero(a: bv16)
    ensures Shift(a) == 0 <==> a == 0
  {}

  lemma {:induction false} ShiftsLinear(a: bv16, b: bv16, n: nat)
    ensures Shifts(Add(a, b), n) == Add(Shifts(a, n), Shifts(b, n))
  {
    hide Add, Shift;
    if n > 0 {
      ShiftsLinear(a, b, n - 1);
      ShiftLinear(Shifts(a, n - 1), Shifts(b, n - 1));
    }
  }

  lemma {:induction false} ShiftsZero(a: bv16, n: nat)
    ensures Shifts(a, n) == 0 <==> a == 0
  {
    hide Shift;
    if n > 0 {
      ShiftsZero(a, n - 1);
      ShiftZero(Shifts(a, n - 1));
    }
  }

  /** Different registers stay different. */
  lemma ShiftsInjective(a: bv16, b: bv16, n: nat)
    ensures Shifts(a, n) == Shifts(b, n) <==> a == b
  {
    hide Add, Shifts;
    ShiftsLinear(a, b, n);
    ShiftsZero(Add(a, b), n);
    AddZero(a, b);
    AddZero(Shifts(a, n), Shifts(b, n));
  }

  lemma EightShifts(r: bv16)
    ensures Shifts(r, 8) == Shift(Shift(Shift(Shift(Shift(Shift(Shift(Shift(r))))))))
  {
    hide Shift;
    assert Shifts(r, 1) == Shift(r);
    assert Shifts(r, 2) == Shift(Shift(r));
    assert Shifts(r, 3) == Shift(Shift(Shift(r)));
    assert Shifts(r, 4) == Shift(Shift(Shift(Shift(r))));
    assert Shifts(r, 5) == Shift(Shift(Shift(Shift(Shift(r)))));
    assert Shifts(r, 6) == Shift(Shift(Shift(Shift(Shift(Shift(r))))));
    assert Shifts(r, 7) == Shift(Shift(Shift(Shift(Shift(Shift(Shift(r)))))));
  }

  /** Eight shifts move a high byte down unchanged. */
  lemma ShiftsOfHighByte(y: bv8)
    ensures Shifts(Wide(y) << 8, 8) == Wide(y)
  {
    hide Shifts;
    EightShifts(Wide(y) << 8);
  }

  // ---------------------------------------------------------------- frames

  /** The register becomes zero with two more bytes exactly when they are its low and high byte. */
  lemma TailIsCrc(c: bv16, x: bv8, y: bv8)
    ensures Step(Step(c, x), y) == 0 <==> x == Low(c) && y == High(c)
  {
    hide Add, Shifts, Wide, Low, High;
    var d := Add(c, Wide(x));
    ShiftsZero(Add(Shifts(d, 8), Wide(y)), 8);
    AddZero(Shifts(d, 8), Wide(y));
    ShiftsOfHighByte(y);
    ShiftsInjective(d, Wide(y) << 8, 8);
    BytesOf(c, x, y);
  }

  lemma BytesOf(c: bv16, x: bv8, y: bv8)
    ensures Add(c, Wide(x)) == Wide(y) << 8 <==> x == Low(c) && y == High(c)
  {}

  lemma RegisterTail(r: bv16, data: seq<bv8>, x: bv8, y: bv8)
    ensures Register(r, data + [x, y]) == Step(Step(Register(r, data), x), y)
  {
    hide *;
    assert (data + [x, y])[..|data| + 1] == data + [x];
    assert (data + [x])[..|data|] == data;
    RegisterLast(r, data + [x, y]);
    RegisterLast(r, data + [x]);
  }

  /** `check_crc` accepts a frame if and only if the CRC over the whole frame is zero. */
  lemma CheckIsZero(frame: seq<bv8>)
    requires |frame| >= 2
    ensures CheckCrc(frame) <==> Crc(frame) == 0
  {
    hide Step, Low, High;
    var data, x, y := frame[..|frame| - 2], frame[|frame| - 2], frame[|frame| - 1];
    assert frame == data + [x, y];
    RegisterTail(0xFFFF, data, x, y);
    TailIsCrc(Crc(data), x, y);
  }

  /** Every frame that `sendCommand` builds passes `check_crc`. */
  lemma SentFramesPass(data: seq<bv8>)
    ensures |Frame(data)| == |data| + 2 && CheckCrc(Frame(data))
  {
    hide Register, Low, High;
    assert Frame(data)[..|data|] == data;
  }

  // ---------------------------------------------------------------- error detection

  function Xor8(a: bv8, b: bv8): bv8 {
    a ^ b
  }

  /** Byte by byte difference. */
  function Xor(a: seq<bv8>, b: seq<bv8>): (r: seq<bv8>)
    requires |a| == |b|
    ensures |r| == |a|
    ensures forall i :: 0 <= i < |a| ==> (r[i] == 0 <==> a[i] == b[i])
  {
    if a == [] then []
    else
      WideOfXor(a[|a| - 1], b[|a| - 1]);
      Xor(a[..|a| - 1], b[..|a| - 1]) + [Xor8(a[|a| - 1], b[|a| - 1])]
  }

  lemma XorOfLast(a: seq<bv8>, b: seq<bv8>)
    requires |a| == |b| > 0
    ensures Xor(a, b)[..|a| - 1] == Xor(a[..|a| - 1], b[..|a| - 1]) && Xor(a, b)[|a| - 1] == Xor8(a[|a| - 1], b[|a| - 1])
  {}

  lemma StepLinear(r: bv16, s: bv16, a: bv8, b: bv8)
    ensures Step(Add(r, s), Xor8(a, b)) == Add(Step(r, a), Step(s, b))
  {
    hide Add, Shifts, Wide, Xor8;
    WideOfXor(a, b);
    AddPairs(r, s, Wide(a), Wide(b));
    ShiftsLinear(Add(r, Wide(a)), Add(s, Wide(b)), 8);
  }

  lemma RegisterLast(r: bv16, a: seq<bv8>)
    ensures a == [] ==> Register(r, a) == r
    ensures a != [] ==> Register(r, a) == Step(Register(r, a[..|a| - 1]), a[|a| - 1])
  {
    hide Step;
  }

  /** The difference of two registers is the register of the difference of the data. */
  lemma {:induction false} RegisterLinear(r: bv16, s: bv16, a: seq<bv8>, b: seq<bv8>)
    requires |a| == |b|
    ensures Register(Add(r, s), Xor(a, b)) == Add(Register(r, a), Register(s, b))
  {
    hide *;
    RegisterLast(Add(r, s), Xor(a, b));
    RegisterLast(r, a);
    RegisterLast(s, b);
    if a != [] {
      var n := |a| - 1;
      RegisterLinear(r, s, a[..n], b[..n]);
      XorOfLast(a, b);
      StepLinear(Register(r, a[..n]), Register(s, b[..n]), a[n], b[n]);
    }
  }

  predicate AllZero(data: seq<bv8>) {
    forall i :: 0 <= i < |data| ==> data[i] == 0
  }

  lemma StepByZero(r: bv16)
    ensures Step(r, 0) == 0 <==> r == 0
  {
    hide Add, Shifts, Wide;
    WideZero(0);
    AddZero(r, 0);
    ShiftsZero(r, 8);
  }

  /** Zero bytes keep a zero register zero and a nonzero register nonzero. */
  lemma {:induction false} ZerosKeep(r: bv16, data: seq<bv8>)
    requires AllZero(data)
    ensures Register(r, data) == 0 <==> r == 0
  {
    hide Step;
    if data != [] {
      var front := data[..|data| - 1];
      ZerosKeep(r, front);
      StepByZero(Register(r, front));
    }
  }

  lemma {:induction false} RegisterJoin(r: bv16, a: seq<bv8>, b: seq<bv8>)
    ensures Register(r, a + b) == Register(Register(r, a), b)
  {
    hide Step;
    if b == [] {
      assert a + b == a;
    } else {
      RegisterJoin(r, a, b[..|b| - 1]);
      assert (a + b)[..|a + b| - 1] == a + b[..|b| - 1];
    }
  }

  /** The two frames differ, and only in bytes `i` and `i + 1`. */
  predicate DifferInTwo(a: seq<bv8>, b: seq<bv8>, i: nat) {
    && |a| == |b| && i + 1 < |a|
    && (a[i] != b[i] || a[i + 1] != b[i + 1])
    && forall k :: 0 <= k < |a| && k != i && k != i + 1 ==> a[k] == b[k]
  }

  /** A difference in two adjacent bytes leaves a nonzero register. */
  lemma TwoBytesLeaveTrace(d: seq<bv8>, i: nat)
    requires i + 1 < |d| && (d[i] != 0 || d[i + 1] != 0)
    requires forall k :: 0 <= k < |d| && k != i && k != i + 1 ==> d[k] == 0
    ensures Register(0, d) != 0
  {
    hide Step, Register, Low, High;
    var before, x, y, after := d[..i], d[i], d[i + 1], d[i + 2..];
    assert d == before + [x, y] + after;
    RegisterJoin(0, before + [x, y], after);
    RegisterTail(0, before, x, y);
    ZerosKeep(0, before);
    TailIsCrc(0, x, y);
    ZeroBytes();
    ZerosKeep(Step(Step(0, x), y), after);
  }

  lemma ZeroBytes()
    ensures Low(0) == 0 && High(0) == 0
  {}

  /** A corruption confined to two adjacent bytes of a frame of any length is rejected. */
  lemma TwoByteErrorsDetected(a: seq<bv8>, b: seq<bv8>, i: nat)
    requires DifferInTwo(a, b, i) && CheckCrc(a)
    ensures !CheckCrc(b)
  {
    hide CheckCrc, Register, Add;
    CheckIsZero(a);
    CheckIsZero(b);
    RegisterLinear(0xFFFF, 0xFFFF, a, b);
    AddZero(0xFFFF, 0xFFFF);
    TwoBytesLeaveTrace(Xor(a, b), i);
    AddZero(Crc(a), Crc(b));
  }

  // ---------------------------------------------------------------- bursts

  function Mask(k: nat): bv8
    requires k < 8
  {
    if k == 0 then 1 else if k == 1 then 2 else if k == 2 then 4 else if k == 3 then 8
    else if k == 4 then 16 else if k == 5 then 32 else if k == 6 then 64 else 128
  }

  predicate Under(b: bv8, mask: bv8) {
    b & mask == mask
  }

  /** Bit `k` of a byte. */
  predicate BitOf(b: bv8, k: nat)
    requires k < 8
  {
    Under(b, Mask(k))
  }

  /** The bits of a byte in the order in which they enter the register: lowest first. */
  function Bits(b: bv8): seq<bool> {
    seq(8, k requires 0 <= k < 8 => BitOf(b, k))
  }

  function AllBits(data: seq<bv8>): (r: seq<bool>)
    ensures |r| == 8 * |data|
  {
    if data == [] then [] else AllBits(data[..|data| - 1]) + Bits(data[|data| - 1])
  }

  function Bit(b: bool): bv16 {
    if b then 1 else 0
  }

  /** One bit enters the register. */
  function BitStep(r: bv16, b: bool): bv16 {
    Shift(Add(r, Bit(b)))
  }

  function BitRegister(r: bv16, bits: seq<bool>): bv16 {
    if bits == [] then r else BitStep(BitRegister(r, bits[..|bits| - 1]), bits[|bits| - 1])
  }

  lemma {:induction false} BitRegisterJoin(r: bv16, a: seq<bool>, b: seq<bool>)
    ensures BitRegister(r, a + b) == BitRegister(BitRegister(r, a), b)
  {
    hide BitStep;
    if b == [] {
      assert a + b == a;
    } else {
      BitRegisterJoin(r, a, b[..|b| - 1]);
      assert (a + b)[..|a + b| - 1] == a + b[..|b| - 1];
    }
  }

  /** The lowest bit enters, the others move down. */
  lemma LowestFirst(r: bv16, w: bv16)
    ensures Shift(Add(r, w)) == Add(BitStep(r, IsOdd(w)), Half(w))
  {
    hide Add, Half, IsOdd, Bit;
    var even := w & 0xFFFE;
    EvenPart(w, even);
    AddGroups(r, Bit(IsOdd(w)), even);
    ShiftLinear(Add(r, Bit(IsOdd(w))), even);
  }

  lemma EvenPart(w: bv16, even: bv16)
    requires even == w & 0xFFFE
    ensures Add(Bit(IsOdd(w)), even) == w && !IsOdd(even) && Half(even) == Half(w)
  {}

  lemma {:induction false} ShiftsAreBits(r: bv16, w: bv16, n: nat)
    ensures Shifts(Add(r, w), n) == Add(BitRegister(r, LowBits(w, n)), Halves(w, n))
  {
    hide Shift, Add, Half, IsOdd, BitStep;
    if n > 0 {
      ShiftsAreBits(r, w, n - 1);
      LowestFirst(BitRegister(r, LowBits(w, n - 1)), Halves(w, n - 1));
      assert LowBits(w, n)[..n - 1] == LowBits(w, n - 1);
    }
  }

  function Halves(w: bv16, n: nat): bv16 {
    if n == 0 then w else Half(Halves(w, n - 1))
  }

  function LowBits(w: bv16, n: nat): (r: seq<bool>)
    ensures |r| == n
  {
    if n == 0 then [] else LowBits(w, n - 1) + [IsOdd(Halves(w, n - 1))]
  }

  lemma {:induction false} LowBitsAt(w: bv16, n: nat, k: nat)
    requires k < n
    ensures LowBits(w, n)[k] == IsOdd(Halves(w, k))
  {
    hide IsOdd, Halves;
    if k < n - 1 {
      LowBitsAt(w, n - 1, k);
    }
  }

  /** The eight low bits of a byte are its bits, and nothing is left of it. */
  lemma ByteIsBits(b: bv8)
    ensures LowBits(Wide(b), 8) == Bits(b) && Halves(Wide(b), 8) == 0
  {
    HalvesOfByte(b);
    hide Halves, IsOdd, Wide, BitOf, LowBits;
    forall k | 0 <= k < 8 ensures LowBits(Wide(b), 8)[k] == Bits(b)[k] {
      LowBitsAt(Wide(b), 8, k);
    }
  }

  lemma HalvesOfByte(b: bv8)
    ensures Halves(Wide(b), 8) == 0
    ensures forall k :: 0 <= k < 8 ==> IsOdd(Halves(Wide(b), k)) == BitOf(b, k)
  {
    var w := Wide(b);
    assert Halves(w, 1) == Half(w);
    assert Halves(w, 2) == Half(Half(w));
    assert Halves(w, 4) == Half(Half(Halves(w, 2)));
    assert Halves(w, 6) == Half(Half(Halves(w, 4)));
    assert Halves(w, 8) == Half(Half(Halves(w, 6)));
    assert Halves(w, 3) == Half(Halves(w, 2)) && Halves(w, 5) == Half(Halves(w, 4));
    assert Halves(w, 7) == Half(Halves(w, 6));
    BitsOfHalves(b, w);
    hide Halves, Half, IsOdd, Under, Wide;
    forall k | 0 <= k < 8 ensures IsOdd(Halves(w, k)) == BitOf(b, k) {
      assert k == 0 || k == 1 || k == 2 || k == 3 || k == 4 || k == 5 || k == 6 || k == 7;
    }
  }

  lemma BitsOfHalves(b: bv8, w: bv16)
    requires w == Wide(b)
    ensures IsOdd(w) == Under(b, 1) && IsOdd(Half(w)) == Under(b, 2) && IsOdd(Half(Half(w))) == Under(b, 4)
    ensures IsOdd(Half(Half(Half(w)))) == Under(b, 8) && IsOdd(Half(Half(Half(Half(w))))) == Under(b, 16)
    ensures IsOdd(Half(Half(Half(Half(Half(w)))))) == Under(b, 32)
    ensures IsOdd(Half(Half(Half(Half(Half(Half(w))))))) == Under(b, 64)
    ensures IsOdd(Half(Half(Half(Half(Half(Half(Half(w)))))))) == Under(b, 128)
    ensures Half(Half(Half(Half(Half(Half(Half(Half(w)))))))) == 0
  {}

  /** Byte by byte and bit by bit the register is the same. */
  lemma {:induction false} RegisterIsBits(r: bv16, data: seq<bv8>)
    ensures Register(r, data) == BitRegister(r, AllBits(data))
  {
    hide Shifts, Add, Wide, Bits, BitStep, LowBits, Halves;
    if data != [] {
      var front, last := data[..|data| - 1], data[|data| - 1];
      RegisterIsBits(r, front);
      BitRegisterJoin(r, AllBits(front), Bits(last));
      ShiftsAreBits(Register(r, front), Wide(last), 8);
      ByteIsBits(last);
      AddZero(BitRegister(Register(r, front), Bits(last)), 0);
    }
  }

  /** Zero bits keep a zero register zero and a nonzero register nonzero. */
  lemma {:induction false} ZeroBitsKeep(r: bv16, bits: seq<bool>)
    requires forall k :: 0 <= k < |bits| ==> !bits[k]
    ensures BitRegister(r, bits) == 0 <==> r == 0
  {
    if bits != [] {
      var before := BitRegister(r, bits[..|bits| - 1]);
      ZeroBitsKeep(r, bits[..|bits| - 1]);
      hide Add, Shift;
      AddZero(before, 0);
      ShiftZero(before);
    }
  }

  /** A set bit enters a zero register as the polynomial, whose highest bit is set. */
  lemma FirstBit()
    ensures BitStep(0, true) == POLYNOMIAL && AtLeast(POLYNOMIAL, Floor(0))
  {}

  /** The highest bit can move down only one place at a time. */
  function Floor(n: nat): bv16 {
    if n == 0 then 0x8000 else Half(Floor(n - 1))
  }

  lemma FloorPositive(n: nat)
    requires n <= 15
    ensures Floor(n) >= 1 && (n < 15 ==> Floor(n) >= 2)
  {
    assert Floor(3) == 0x1000 && Floor(6) == 0x200 && Floor(9) == 0x40 && Floor(12) == 8 && Floor(15) == 1;
    assert Floor(1) == 0x4000 && Floor(2) == 0x2000 && Floor(4) == 0x800 && Floor(5) == 0x400;
    assert Floor(7) == 0x100 && Floor(8) == 0x80 && Floor(10) == 0x20 && Floor(11) == 0x10;
    assert Floor(13) == 4 && Floor(14) == 2;
  }

  predicate AtLeast(r: bv16, floor: bv16) {
    r >= floor
  }

  predicate IsFloor(floor: bv16) {
    2 <= floor <= 0x8000
  }

  lemma StaysHigh(r: bv16, b: bool, n: nat)
    requires AtLeast(r, Floor(n)) && n < 15
    ensures AtLeast(BitStep(r, b), Floor(n + 1))
  {
    hide *;
    FloorIs(n);
    OnePlaceDown(r, b, Floor(n));
    NextFloor(n);
  }

  lemma FloorIs(n: nat)
    requires n < 15
    ensures IsFloor(Floor(n))
  {
    hide Floor;
    FloorPositive(n);
    FloorAtMost(n);
  }

  lemma NextFloor(n: nat)
    ensures Floor(n + 1) == Half(Floor(n))
  {
    hide Half;
  }

  lemma OnePlaceDown(r: bv16, b: bool, floor: bv16)
    requires AtLeast(r, floor) && IsFloor(floor)
    ensures AtLeast(BitStep(r, b), Half(floor))
  {}

  lemma FloorAtMost(n: nat)
    ensures Floor(n) <= 0x8000
  {
    if n > 0 {
      FloorAtMost(n - 1);
      HalfIsSmaller(Floor(n - 1));
    }
  }

  lemma FloorIsNonzero(r: bv16, n: nat)
    requires AtLeast(r, Floor(n)) && n <= 15
    ensures r != 0
  {
    FloorPositive(n);
  }

  /** After a set bit, up to 15 bits whatever they are leave the register nonzero. */
  lemma {:induction false} FifteenMore(r: bv16, bits: seq<bool>)
    requires AtLeast(r, Floor(0)) && |bits| <= 15
    ensures AtLeast(BitRegister(r, bits), Floor(|bits|))
  {
    hide BitStep, Floor, AtLeast;
    if bits != [] {
      var n := |bits| - 1;
      FifteenMore(r, bits[..n]);
      StaysHigh(BitRegister(r, bits[..n]), bits[n], n);
    }
  }

  /** Set bits within 16 consecutive places leave a nonzero register, however long the data. */
  lemma BurstLeavesTrace(bits: seq<bool>, j: nat, first: nat)
    requires first < |bits| && bits[first] && forall k :: 0 <= k < first ==> !bits[k]
    requires forall k :: j + 16 <= k < |bits| ==> !bits[k]
    requires j <= first
    ensures BitRegister(0, bits) != 0
  {
    hide BitStep, Floor, AtLeast;
    var end := if first + 16 <= |bits| then first + 16 else |bits|;
    var zeros, burst, rest := bits[..first], bits[first + 1..end], bits[end..];
    assert bits == zeros + [true] + burst + rest;
    BitRegisterJoin(0, zeros + [true] + burst, rest);
    BitRegisterJoin(0, zeros + [true], burst);
    BitRegisterJoin(0, zeros, [true]);
    ZeroBitsKeep(0, zeros);
    assert [true][..0] == [] && BitRegister(0, [true]) == BitStep(0, true);
    FirstBit();
    FifteenMore(POLYNOMIAL, burst);
    FloorIsNonzero(BitRegister(POLYNOMIAL, burst), |burst|);
    ZeroBitsKeep(BitRegister(POLYNOMIAL, burst), rest);
  }

  lemma {:induction false} XorBits(a: seq<bv8>, b: seq<bv8>)
    requires |a| == |b|
    ensures forall k :: 0 <= k < 8 * |a| ==> (AllBits(Xor(a, b))[k] <==> AllBits(a)[k] != AllBits(b)[k])
  {
    if a != [] {
      var n := |a| - 1;
      XorBits(a[..n], b[..n]);
      LastByte(a, b);
    }
  }

  lemma BitsOfLast(a: seq<bv8>)
    requires |a| > 0
    ensures var n := |a| - 1;
      && (forall k :: 0 <= k < 8 * n ==> AllBits(a)[k] == AllBits(a[..n])[k])
      && forall k :: 0 <= k < 8 ==> AllBits(a)[8 * n..][k] == BitOf(a[n], k)
  {
    hide BitOf;
    var n := |a| - 1;
    assert AllBits(a) == AllBits(a[..n]) + Bits(a[n]);
  }

  lemma LastByte(a: seq<bv8>, b: seq<bv8>)
    requires |a| == |b| > 0
    requires var n := |a| - 1;
      forall k :: 0 <= k < 8 * n ==> (AllBits(Xor(a[..n], b[..n]))[k] <==> AllBits(a[..n])[k] != AllBits(b[..n])[k])
    ensures forall k :: 0 <= k < 8 * |a| ==> (AllBits(Xor(a, b))[k] <==> AllBits(a)[k] != AllBits(b)[k])
  {
    hide AllBits, Xor, BitOf, Xor8;
    var n, d := |a| - 1, Xor(a, b);
    XorOfLast(a, b);
    BitsOfLast(d);
    BitsOfLast(a);
    BitsOfLast(b);
    var u, v, w := d[n], a[n], b[n];
    LastBits(u, v, w);
    EightMore(AllBits(d), AllBits(a), AllBits(b), 8 * n);
  }

  lemma LastBits(u: bv8, v: bv8, w: bv8)
    requires u == Xor8(v, w)
    ensures forall i :: 0 <= i < 8 ==> (BitOf(u, i) <==> BitOf(v, i) != BitOf(w, i))
  {
    hide BitOf, Xor8;
    forall i | 0 <= i < 8 ensures BitOf(u, i) <==> BitOf(v, i) != BitOf(w, i) {
      XorBit(v, w, i);
    }
  }

  lemma EightMore(d: seq<bool>, a: seq<bool>, b: seq<bool>, m: nat)
    requires |d| == |a| == |b| == m + 8
    requires forall k :: 0 <= k < m ==> (d[k] <==> a[k] != b[k])
    requires forall i :: 0 <= i < 8 ==> (d[m..][i] <==> a[m..][i] != b[m..][i])
    ensures forall k :: 0 <= k < m + 8 ==> (d[k] <==> a[k] != b[k])
  {
    forall k | m <= k < m + 8 ensures d[k] <==> a[k] != b[k] {
      var i := k - m;
      assert d[m..][i] <==> a[m..][i] != b[m..][i];
    }
  }

  lemma XorBit(a: bv8, b: bv8, k: nat)
    requires k < 8
    ensures BitOf(Xor8(a, b), k) <==> BitOf(a, k) != BitOf(b, k)
  {
    XorUnder(a, b);
    hide Under, Xor8;
  }

  lemma XorUnder(a: bv8, b: bv8)
    ensures Under(Xor8(a, b), 1) <==> Under(a, 1) != Under(b, 1)
    ensures Under(Xor8(a, b), 2) <==> Under(a, 2) != Under(b, 2)
    ensures Under(Xor8(a, b), 4) <==> Under(a, 4) != Under(b, 4)
    ensures Under(Xor8(a, b), 8) <==> Under(a, 8) != Under(b, 8)
    ensures Under(Xor8(a, b), 16) <==> Under(a, 16) != Under(b, 16)
    ensures Under(Xor8(a, b), 32) <==> Under(a, 32) != Under(b, 32)
    ensures Under(Xor8(a, b), 64) <==> Under(a, 64) != Under(b, 64)
    ensures Under(Xor8(a, b), 128) <==> Under(a, 128) != Under(b, 128)
  {}

  lemma {:induction false} FirstSet(bits: seq<bool>, k: nat) returns (first: nat)
    requires k < |bits| && bits[k]
    ensures first <= k && bits[first] && forall i :: 0 <= i < first ==> !bits[i]
  {
    if i: nat :| i < k && bits[i] {
      first := FirstSet(bits, i);
    } else {
      first := k;
    }
  }

  /** A burst of up to 16 bits anywhere in a frame of any length, also across three bytes, is rejected. */
  lemma BurstsDetected(a: seq<bv8>, b: seq<bv8>, j: nat, k: nat)
    requires |a| == |b| >= 2 && CheckCrc(a)
    requires k < 8 * |a| && AllBits(a)[k] != AllBits(b)[k]
    requires forall i :: 0 <= i < 8 * |a| && AllBits(a)[i] != AllBits(b)[i] ==> j <= i < j + 16
    ensures !CheckCrc(b)
  {
    hide CheckCrc, Register, Add, AllBits, Xor, BitRegister;
    CheckIsZero(a);
    CheckIsZero(b);
    RegisterLinear(0xFFFF, 0xFFFF, a, b);
    AddZero(0xFFFF, 0xFFFF);
    XorBits(a, b);
    RegisterIsBits(0, Xor(a, b));
    var first := FirstSet(AllBits(Xor(a, b)), k);
    BurstLeavesTrace(AllBits(Xor(a, b)), j, first);
    AddZero(Crc(a), Crc(b));
  }

  // ---------------------------------------------------------------- parity

  lemma HalfIsSmaller(r: bv16)
    ensures r != 0 ==> Half(r) < r
    ensures Half(0) == 0
  {}

  /** Whether an odd number of bits is set. */
  function Parity(r: bv16): bool
    decreases r
  {
    HalfIsSmaller(r);
    if r == 0 then false else Parity(Half(r)) != IsOdd(r)
  }

  /** Whether an odd number of bits of the whole data is set. */
  function OddBits(data: seq<bv8>): bool {
    data != [] && (OddBits(data[..|data| - 1]) != Parity(Wide(data[|data| - 1])))
  }

  lemma {:induction false} ParityOfAdd(a: bv16, b: bv16)
    ensures Parity(Add(a, b)) == (Parity(a) != Parity(b))
    decreases a, b
  {
    hide Add, Half, IsOdd;
    AddZero(a, b);
    AddZero(a, 0);
    AddZero(b, 0);
    if a != 0 && b != 0 {
      HalfIsSmaller(a);
      ParityOfAdd(Half(a), Half(b));
      HalfOfAdd(a, b);
      AddOfOdds(a, b);
    }
  }

  lemma PolynomialIsOdd()
    ensures Parity(POLYNOMIAL)
  {
    assert Half(0xA001) == 0x5000 && IsOdd(0xA001);
    assert Half(0x5000) == 0x2800 && !IsOdd(0x5000);
    assert Half(0x2800) == 0x1400 && !IsOdd(0x2800);
    assert Half(0x1400) == 0xA00 && !IsOdd(0x1400);
    assert Half(0xA00) == 0x500 && !IsOdd(0xA00);
    assert Half(0x500) == 0x280 && !IsOdd(0x500);
    assert Half(0x280) == 0x140 && !IsOdd(0x280);
    assert Half(0x140) == 0xA0 && !IsOdd(0x140);
    assert Half(0xA0) == 0x50 && !IsOdd(0xA0);
    assert Half(0x50) == 0x28 && !IsOdd(0x50);
    assert Half(0x28) == 0x14 && !IsOdd(0x28);
    assert Half(0x14) == 0xA && !IsOdd(0x14);
    assert Half(0xA) == 5 && !IsOdd(0xA);
    assert Half(5) == 2 && IsOdd(5);
    assert Half(2) == 1 && !IsOdd(2);
    assert Half(1) == 0 && IsOdd(1);
    assert !Parity(0);
    assert Parity(1);
    assert Parity(2);
    assert !Parity(5);
    assert !Parity(0xA);
    assert !Parity(0x14);
    assert !Parity(0x28);
    assert !Parity(0x50);
    assert !Parity(0xA0);
    assert !Parity(0x140);
    assert !Parity(0x280);
    assert !Parity(0x500);
    assert !Parity(0xA00);
    assert !Parity(0x1400);
    assert !Parity(0x2800);
    assert !Parity(0x5000);
  }

  lemma ShiftKeepsParity(r: bv16)
    ensures Parity(Shift(r)) == Parity(r)
  {
    hide Add, Half, IsOdd;
    PolynomialIsOdd();
    ParityOfAdd(Half(r), POLYNOMIAL);
    HalfIsSmaller(r);
    ZeroIsEven();
  }

  lemma ZeroIsEven()
    ensures !IsOdd(0)
  {}

  lemma {:induction false} ShiftsKeepParity(r: bv16, n: nat)
    ensures Parity(Shifts(r, n)) == Parity(r)
  {
    hide Shift, Parity;
    if n > 0 {
      ShiftsKeepParity(r, n - 1);
      ShiftKeepsParity(Shifts(r, n - 1));
    }
  }

  lemma StepParity(r: bv16, b: bv8)
    ensures Parity(Step(r, b)) == (Parity(r) != Parity(Wide(b)))
  {
    hide Add, Shifts, Parity, Wide;
    ParityOfAdd(r, Wide(b));
    ShiftsKeepParity(Add(r, Wide(b)), 8);
  }

  lemma StartIsEven()
    ensures !Parity(0xFFFF)
  {
    assert Half(0xFFFF) == 0x7FFF && IsOdd(0xFFFF) && Half(0x7FFF) == 0x3FFF && IsOdd(0x7FFF);
    assert Half(0x3FFF) == 0x1FFF && IsOdd(0x3FFF) && Half(0x1FFF) == 0xFFF && IsOdd(0x1FFF);
    assert Half(0xFFF) == 0x7FF && IsOdd(0xFFF) && Half(0x7FF) == 0x3FF && IsOdd(0x7FF);
    assert Half(0x3FF) == 0x1FF && IsOdd(0x3FF) && Half(0x1FF) == 0xFF && IsOdd(0x1FF);
    assert Half(0xFF) == 0x7F && IsOdd(0xFF) && Half(0x7F) == 0x3F && IsOdd(0x7F);
    assert Half(0x3F) == 0x1F && IsOdd(0x3F) && Half(0x1F) == 0xF && IsOdd(0x1F);
    assert Half(0xF) == 7 && IsOdd(0xF) && Half(7) == 3 && IsOdd(7);
    assert Half(3) == 1 && IsOdd(3) && Half(1) == 0 && IsOdd(1);
    assert !Parity(3) && !Parity(0xF) && !Parity(0x3F) && !Parity(0xFF);
    assert !Parity(0x3FF) && !Parity(0xFFF) && !Parity(0x3FFF);
  }

  /** The parity of the register is the parity of the data, because the polynomial with its leading
      term has an even number of terms. */
  lemma {:induction false} CrcParity(data: seq<bv8>)
    ensures Parity(Crc(data)) == OddBits(data)
  {
    hide Step, Parity, Wide;
    if data == [] {
      StartIsEven();
    } else {
      var front, last := data[..|data| - 1], data[|data| - 1];
      CrcParity(front);
      StepParity(Crc(front), last);
    }
  }

  /** An accepted frame has an even number of set bits, so a corruption that flips an odd number of
      bits is rejected. */
  lemma OddErrorsDetected(frame: seq<bv8>)
    requires |frame| >= 2 && OddBits(frame)
    ensures !CheckCrc(frame)
  {
    hide CheckCrc, Crc, OddBits;
    CheckIsZero(frame);
    CrcParity(frame);
  }

  // ---------------------------------------------------------------- known values

  lemma StepIs(r: bv16, b: bv8, r': bv16)
    requires Shift(Shift(Shift(Shift(Shift(Shift(Shift(Shift(r ^ (b as bv16))))))))) == r'
    ensures Step(r, b) == r'
  {
    EightShifts(Add(r, Wide(b)));
    hide Shift, Shifts;
  }

  lemma OneMoreByte(r: bv16, data: seq<bv8>, b: bv8)
    ensures Register(r, data + [b]) == Step(Register(r, data), b)
  {
    hide Step;
    assert (data + [b])[..|data|] == data;
  }

  /** The example frame of MODBUS over Serial Line: the bytes 02 07 travel as 02 07 41 12. */
  lemma ExampleFrame()
    ensures Frame([0x02, 0x07]) == [0x02, 0x07, 0x41, 0x12]
  {
    StepIs(0xFFFF, 0x02, 0x813E);
    StepIs(0x813E, 0x07, 0x1241);
    hide Step;
    OneMoreByte(0xFFFF, [], 0x02);
    OneMoreByte(0xFFFF, [0x02], 0x07);
    assert [] + [0x02] == [0x02] && [0x02] + [0x07] == [0x02, 0x07];
    assert Register(0xFFFF, []) == 0xFFFF;
  }

  // ---------------------------------------------------------------- the loops

  /** The inner loop of `modbus_crc16`. */
  method EightTimes(r: bv16) returns (wcrc: bv16)
    ensures wcrc == Shifts(r, 8)
  {
    wcrc := r;
    for j := 0 to 8
      invariant wcrc == Shifts(r, j)
    {
      hide Shift;
      wcrc := ShiftOnce(wcrc);
    }
  }

  method ShiftOnce(r: bv16) returns (wcrc: bv16)
    ensures wcrc == Shift(r)
  {
    wcrc := r;
    if wcrc & 1 == 1 {
      wcrc := wcrc >> 1;
      wcrc := wcrc ^ 0xA001;
    } else {
      wcrc := wcrc >> 1;
    }
  }

  /** `modbus_crc16`. */
  method ModbusCrc16(p: seq<bv8>) returns (wcrc: bv16)
    ensures wcrc == Crc(p)
  {
    hide Shifts, Add, Wide;
    wcrc := 0xFFFF;
    for i := 0 to |p|
      invariant wcrc == Crc(p[..i])
    {
      assert p[..i + 1][..i] == p[..i];
      wcrc := Add(wcrc, Wide(p[i]));
      wcrc := EightTimes(wcrc);
    }
    assert p[..|p|] == p;
  }

  /** The frame that `sendCommand` sends for the data. */
  method BuildCommand(data: seq<bv8>) returns (msg: seq<bv8>)
    ensures msg == Frame(data) && msg[..|data|] == data && |msg| == |data| + 2
    ensures CheckCrc(msg) && Crc(msg) == 0
  {
    hide Register, Low, High;
    SentFramesPass(data);
    CheckIsZero(Frame(data));
    var c := ModbusCrc16(data);
    msg := data + [Low(c), High(c)];
  }

  /** `check_crc` of the first bytes of a buffer. */
  method CheckFrame(data: seq<bv8>, len: nat) returns (ok: bool)
    requires 2 <= len <= |data|
    ensures ok == CheckCrc(data[..len])
  {
    hide Register, Low, High;
    assert data[..len][..len - 2] == data[..len - 2];
    var c := ModbusCrc16(data[..len - 2]);
    ok := data[len - 2] == Low(c) && data[len - 1] == High(c);
  }
}
