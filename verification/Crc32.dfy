/** CRC-32 as the Office corpus writer and the PNG encoder compute it: a 256-entry table indexed by
    the low byte of the register.

    The specification is the textbook one: polynomials over GF(2), written as coefficient lists
    with the highest power first, divided by the generator with pencil-and-paper long division.
    Nothing of the shift register or of the table appears in it. */
module Crc32 {
  type Byte = bv8
  type Polynomial = seq<bool>

  /** The powers of x in the CRC-32 generator (section 5.5 of the PNG specification). */
  const GENERATOR_POWERS: set<nat> := {32, 26, 23, 22, 16, 12, 11, 10, 8, 7, 5, 4, 2, 1, 0}

  function Generator(): (g: Polynomial)
  {
    seq(33, i => 32 - i in GENERATOR_POWERS)
  }

  /** Adds `b` to the leading coefficients of `a`. */
  function AddToFront(a: Polynomial, b: Polynomial): (r: Polynomial)
    requires |b| <= |a|
    ensures |r| == |a|
  {
    seq(|a|, i requires 0 <= i < |a| => if i < |b| then a[i] != b[i] else a[i])
  }

  function Zeros(n: nat): (r: Polynomial) { seq(n, _ => false) }

  function Complement(p: Polynomial): (r: Polynomial)
    ensures |r| == |p|
  {
    seq(|p|, i requires 0 <= i < |p| => !p[i])
  }

  /** Long division: the remainder of `dividend` modulo the generator, 32 coefficients. */
  function Remainder(dividend: Polynomial): (r: Polynomial)
    requires |dividend| >= 32
    ensures |r| == 32
    decreases |dividend|
  {
    if |dividend| == 32 then dividend
    else if dividend[0] then Remainder(AddToFront(dividend, Generator())[1..])
    else Remainder(dividend[1..])
  }

  /** The word whose only set bit is bit `i`. */
  function Mask(i: nat): (m: bv32)
    requires i < 32
    ensures m & (m - 1) == 0
  {
    if i == 0 then 1 else Mask(i - 1) << 1
  }

  predicate Bit(c: bv32, i: nat)
    requires i < 32
  {
    c & Mask(i) != 0
  }

  /** A word as coefficients, the least significant bit first. */
  function Bits(c: bv32): (r: Polynomial)
    ensures |r| == 32
  {
    seq(32, i requires 0 <= i < 32 => Bit(c, i))
  }

  /** A message as a polynomial: byte after byte, the least significant bit of each one first. */
  function MessageBits(data: seq<Byte>): (r: Polynomial)
    ensures |r| == 8 * |data|
  {
    if data == [] then [] else MessageBits(data[..|data| - 1]) + Bits(data[|data| - 1] as bv32)[..8]
  }

  /** What is divided: the message times x^32, its first 32 coefficients complemented. */
  function Dividend(data: seq<Byte>): (r: Polynomial)
    ensures |r| >= 32
  {
    AddToFront(MessageBits(data) + Zeros(32), Complement(Zeros(32)))
  }

  /** The standard's checksum: `c`, read least significant bit first, is the complemented remainder. */
  predicate IsCrc32(data: seq<Byte>, c: bv32)
  {
    Bits(c) == Complement(Remainder(Dividend(data)))
  }

  // ----- the shift register, over coefficients --------------------------------------------------

  type Register = r: Polynomial | |r| == 32 witness Zeros(32)

  function Step(r: Register): (s: Register)
  {
    var moved := r[1..] + [false];
    if r[0] then AddToFront(moved, Generator()[1..]) else moved
  }

  function Steps(r: Register, k: nat): (s: Register)
    decreases k
  {
    if k == 0 then r else Step(Steps(r, k - 1))
  }

  /** The register after `message` has passed through it, one bit a step. */
  function Run(r: Register, message: Polynomial): (s: Register)
    decreases |message|
  {
    if message == [] then r else Run(Step(AddToFront(r, message[..1])), message[1..])
  }

  /** Long division of a message with the register added to its front is the register's run. */
  lemma {:induction false} LongDivisionIsRun(r: Register, message: Polynomial)
    ensures Remainder(AddToFront(message + Zeros(32), r)) == Run(r, message)
    decreases |message|
  {
    var d := AddToFront(message + Zeros(32), r);
    if message == [] {
      assert d == r;
    } else {
      var r' := Step(AddToFront(r, message[..1]));
      var next := if d[0] then AddToFront(d, Generator())[1..] else d[1..];
      assert next == AddToFront(message[1..] + Zeros(32), r');
      LongDivisionIsRun(r', message[1..]);
    }
  }

  lemma {:induction false} RunConcat(r: Register, a: Polynomial, b: Polynomial)
    ensures Run(r, a + b) == Run(Run(r, a), b)
    decreases |a|
  {
    if a == [] {
      assert a + b == b;
    } else {
      assert (a + b)[1..] == a[1..] + b && (a + b)[..1] == a[..1];
      RunConcat(Step(AddToFront(r, a[..1])), a[1..], b);
    }
  }

  lemma StepIsLinear(a: Register, b: Register)
    ensures Step(AddToFront(a, b)) == AddToFront(Step(a), Step(b))
  {
  }

  lemma {:induction false} StepsAreLinear(a: Register, b: Register, k: nat)
    ensures Steps(AddToFront(a, b), k) == AddToFront(Steps(a, k), Steps(b, k))
    decreases k
  {
    if k > 0 {
      StepsAreLinear(a, b, k - 1);
      StepIsLinear(Steps(a, k - 1), Steps(b, k - 1));
    }
  }

  lemma {:induction false} StepsFirst(r: Register, k: nat)
    ensures Steps(r, k + 1) == Steps(Step(r), k)
    decreases k
  {
    if k > 0 { StepsFirst(r, k - 1); }
  }

  lemma FoldOne(r: Register, message: Polynomial)
    requires 0 < |message| <= 32
    ensures Step(AddToFront(r, message)) == AddToFront(Step(AddToFront(r, message[..1])), message[1..])
  {
    hide Generator;
    var (all, one) := (AddToFront(r, message), AddToFront(r, message[..1]));
    assert all[0] == one[0];
    forall i | 0 <= i < 32 ensures Step(all)[i] == AddToFront(Step(one), message[1..])[i] {
      assert i + 1 < 32 ==> all[i + 1] == (one[i + 1] != (i + 1 < |message| && message[i + 1]));
    }
  }

  /** Folding up to 32 bits in at once and stepping is running them through one by one. */
  lemma {:induction false} FoldedRun(r: Register, message: Polynomial)
    requires |message| <= 32
    ensures Run(r, message) == Steps(AddToFront(r, message), |message|)
    decreases |message|
  {
    if message == [] {
      assert AddToFront(r, message) == r;
    } else {
      hide Step;
      StepsFirst(AddToFront(r, message), |message| - 1);
      FoldedRun(Step(AddToFront(r, message[..1])), message[1..]);
      FoldOne(r, message);
    }
  }

  /** No coefficient leaves the register while its leading ones are zero. */
  lemma {:induction false} LeadingZerosOnlyMove(r: Register, k: nat)
    requires k <= 32
    requires forall i :: 0 <= i < k ==> !r[i]
    ensures Steps(r, k) == r[k..] + Zeros(k)
    decreases k
  {
    if k > 0 { LeadingZerosOnlyMove(r, k - 1); }
  }

  /** One table lookup does eight steps: the low byte's steps, added to the rest moved by eight. */
  lemma LookupIsEightSteps(r: Register)
    ensures Steps(r, 8) == AddToFront(Steps(r[..8] + Zeros(24), 8), r[8..] + Zeros(8))
  {
    var low, rest := r[..8] + Zeros(24), Zeros(8) + r[8..];
    assert r == AddToFront(low, rest);
    StepsAreLinear(low, rest, 8);
    LeadingZerosOnlyMove(rest, 8);
    assert rest[8..] == r[8..];
  }

  // ----- machine words as coefficients ----------------------------------------------------------

  lemma MaskValues()
    ensures Mask(0) == 0x1 && Mask(1) == 0x2 && Mask(2) == 0x4 && Mask(3) == 0x8
    ensures Mask(4) == 0x10 && Mask(5) == 0x20 && Mask(6) == 0x40 && Mask(7) == 0x80
    ensures Mask(8) == 0x100 && Mask(9) == 0x200 && Mask(10) == 0x400 && Mask(11) == 0x800
    ensures Mask(12) == 0x1000 && Mask(13) == 0x2000 && Mask(14) == 0x4000 && Mask(15) == 0x8000
    ensures Mask(16) == 0x10000 && Mask(17) == 0x20000 && Mask(18) == 0x40000 && Mask(19) == 0x80000
    ensures Mask(20) == 0x100000 && Mask(21) == 0x200000 && Mask(22) == 0x400000 && Mask(23) == 0x800000
    ensures Mask(24) == 0x1000000 && Mask(25) == 0x2000000 && Mask(26) == 0x4000000 && Mask(27) == 0x8000000
    ensures Mask(28) == 0x10000000 && Mask(29) == 0x20000000 && Mask(30) == 0x40000000 && Mask(31) == 0x80000000
  {
    assert Mask(0) == 0x1 && Mask(1) == 0x2 && Mask(2) == 0x4 && Mask(3) == 0x8;
    assert Mask(4) == 0x10 && Mask(5) == 0x20 && Mask(6) == 0x40 && Mask(7) == 0x80;
    assert Mask(8) == 0x100 && Mask(9) == 0x200 && Mask(10) == 0x400 && Mask(11) == 0x800;
    assert Mask(12) == 0x1000 && Mask(13) == 0x2000 && Mask(14) == 0x4000 && Mask(15) == 0x8000;
    assert Mask(16) == 0x10000 && Mask(17) == 0x20000 && Mask(18) == 0x40000 && Mask(19) == 0x80000;
    assert Mask(20) == 0x100000 && Mask(21) == 0x200000 && Mask(22) == 0x400000 && Mask(23) == 0x800000;
    assert Mask(24) == 0x1000000 && Mask(25) == 0x2000000 && Mask(26) == 0x4000000 && Mask(27) == 0x8000000;
    assert Mask(28) == 0x10000000 && Mask(29) == 0x20000000 && Mask(30) == 0x40000000 && Mask(31) == 0x80000000;
  }

  lemma XorAtMask(a: bv32, b: bv32, m: bv32)
    requires m & (m - 1) == 0
    ensures ((a ^ b) & m != 0) == ((a & m != 0) != (b & m != 0))
  {
  }

  lemma BitsOfXor(a: bv32, b: bv32)
    ensures Bits(a ^ b) == AddToFront(Bits(a), Bits(b))
  {
    forall i | 0 <= i < 32 ensures Bit(a ^ b, i) == (Bit(a, i) != Bit(b, i)) {
      XorAtMask(a, b, Mask(i));
    }
  }

  lemma MaskBound(i: nat)
    requires i < 31
    ensures Mask(i) < 0x8000_0000
  {
    MaskValues();
  }

  lemma HalfAt(c: bv32, i: nat)
    requires i < 31
    ensures Bit(c >> 1, i) == Bit(c, i + 1)
  {
    MaskBound(i);
    assert (c >> 1) & Mask(i) == (c & (Mask(i) << 1)) >> 1;
  }

  lemma BitsOfHalf(c: bv32)
    ensures Bits(c >> 1) == Bits(c)[1..] + [false]
  {
    var half := Bits(c >> 1);
    forall i | 0 <= i < 31 ensures half[i] == Bits(c)[1..][i] {
      HalfAt(c, i);
    }
    MaskValues();
  }

  lemma BitsMovedByTwo(c: bv32)
    ensures Bits(c >> 2) == Bits(c)[2..] + Zeros(2)
  {
    BitsOfHalf(c);
    BitsOfHalf(c >> 1);
    assert (c >> 1) >> 1 == c >> 2;
  }

  lemma BitsMovedByFour(c: bv32)
    ensures Bits(c >> 4) == Bits(c)[4..] + Zeros(4)
  {
    BitsMovedByTwo(c);
    BitsMovedByTwo(c >> 2);
    assert (c >> 2) >> 2 == c >> 4;
  }

  lemma BitsOfHighBytes(c: bv32)
    ensures Bits(c >> 8) == Bits(c)[8..] + Zeros(8)
  {
    BitsMovedByFour(c);
    BitsMovedByFour(c >> 4);
    assert (c >> 4) >> 4 == c >> 8;
  }

  lemma BitsOfLowByte(c: bv32)
    ensures Bits(c & 0xff) == Bits(c)[..8] + Zeros(24)
  {
    MaskValues();
  }

  lemma BitsOfGenerator()
    ensures Bits(0xedb88320) == Generator()[1..]
  {
    MaskValues();
  }

  lemma BitsOfOnes()
    ensures Bits(0xffffffff) == Complement(Zeros(32))
  {
    MaskValues();
  }

  lemma NoBitsNoWord(x: bv32)
    requires forall i {:trigger Mask(i)} :: 0 <= i < 32 ==> !Bit(x, i)
    ensures x == 0
  {
    MaskValues();
  }

  lemma ZeroXor(a: bv32, b: bv32)
    requires a ^ b == 0
    ensures a == b
  {
  }

  lemma BitsDetermineWord(a: bv32, b: bv32)
    requires Bits(a) == Bits(b)
    ensures a == b
  {
    var x := a ^ b;
    BitsOfXor(a, b);
    forall i | 0 <= i < 32 ensures !Bit(x, i) {
      assert Bits(x)[i] == (Bits(a)[i] != Bits(b)[i]);
    }
    NoBitsNoWord(x);
    ZeroXor(a, b);
  }

  // ----- the code -------------------------------------------------------------------------------

  /** One shift of a table entry. */
  function Shift(c: bv32): (r: bv32)
  {
    if c & 1 != 0 then 0xedb88320 ^ (c >> 1) else c >> 1
  }

  lemma LowestBit(c: bv32)
    ensures Bits(c)[0] == (c & 1 != 0)
  {
  }

  lemma ShiftIsStep(c: bv32)
    ensures Bits(Shift(c)) == Step(Bits(c))
  {
    LowestBit(c);
    BitsOfHalf(c);
    BitsOfGenerator();
    BitsOfXor(c >> 1, 0xedb88320);
    assert 0xedb88320 ^ (c >> 1) == (c >> 1) ^ 0xedb88320;
  }

  /** A table index as a register with only its low byte set. */
  function IndexWord(n: int): (w: bv32)
    requires 0 <= n < 256
  {
    (n as bv8) as bv32
  }

  lemma ByteRoundTrip(b: Byte)
    ensures (b as int) as bv8 == b
  {
  }

  lemma ByteIndex(b: Byte, n: int)
    requires n == b as int
    ensures IndexWord(n) == b as bv32
  {
    ByteRoundTrip(b);
  }

  /** The table index the loop computes from the register and the next byte. */
  function LowByte(c: bv32): (n: int)
    ensures 0 <= n < 256
  {
    ((c & 0xff) as bv8) as int
  }

  lemma LowByteIndex(c: bv32)
    ensures IndexWord(LowByte(c)) == c & 0xff
  {
    var b := (c & 0xff) as bv8;
    assert b as bv32 == c & 0xff;
    ByteIndex(b, LowByte(c));
  }

  /** Entry `n` of the table holds the eight steps of the byte `n`. */
  predicate IsEntry(n: int, entry: bv32)
    requires 0 <= n < 256
  {
    Bits(entry) == Steps(Bits(IndexWord(n)), 8)
  }

  predicate IsTable(table: seq<bv32>)
  {
    |table| == 256 && forall n: int :: 0 <= n < 256 ==> IsEntry(n, table[n])
  }

  method MakeEntry(n: int) returns (c: bv32)
    requires 0 <= n < 256
    ensures IsEntry(n, c)
  {
    c := IndexWord(n);
    for k := 0 to 8
      invariant Bits(c) == Steps(Bits(IndexWord(n)), k)
    {
      ShiftIsStep(c);
      c := if c & 1 != 0 then 0xedb88320 ^ (c >> 1) else c >> 1;
    }
  }

  method MakeTable() returns (table: array<bv32>)
    ensures fresh(table) && IsTable(table[..])
  {
    hide IsEntry;
    table := new bv32[256];
    for n := 0 to 256
      invariant forall m: int :: 0 <= m < n ==> IsEntry(m, table[m])
    {
      table[n] := MakeEntry(n);
    }
  }

  /** The register after a message, starting from all ones. */
  function RegisterAfter(data: seq<Byte>): (r: Register)
  {
    Run(Complement(Zeros(32)), MessageBits(data))
  }

  lemma ByteBits(b: Byte)
    ensures Bits(b as bv32) == Bits(b as bv32)[..8] + Zeros(24)
  {
    assert (b as bv32) & 0xff == b as bv32;
    BitsOfLowByte(b as bv32);
  }

  lemma BitsWithByte(c: bv32, b: Byte)
    ensures Bits(c ^ (b as bv32)) == AddToFront(Bits(c), Bits(b as bv32)[..8])
  {
    BitsOfXor(c, b as bv32);
    ByteBits(b);
  }

  lemma ByteStaysLow(c: bv32, b: Byte)
    ensures (c ^ (b as bv32)) >> 8 == c >> 8
  {
  }

  /** A byte of the message moves the register by one table lookup. */
  lemma LookupRuns(c: bv32, b: Byte, entry: bv32, before: Register, after: Register)
    requires IsEntry(LowByte(c ^ (b as bv32)), entry)
    requires Bits(c) == before && Run(before, Bits(b as bv32)[..8]) == after
    ensures Bits(entry ^ (c >> 8)) == after
  {
    var x := c ^ (b as bv32);
    LowByteIndex(x);
    BitsOfLowByte(x);
    BitsOfXor(entry, x >> 8);
    BitsOfHighBytes(x);
    LookupIsEightSteps(Bits(x));
    BitsWithByte(c, b);
    ByteStaysLow(c, b);
    FoldedRun(Bits(c), Bits(b as bv32)[..8]);
  }

  lemma RegisterAfterByte(data: seq<Byte>, b: Byte)
    ensures RegisterAfter(data + [b]) == Run(RegisterAfter(data), Bits(b as bv32)[..8])
  {
    assert (data + [b])[..|data|] == data;
    RunConcat(Complement(Zeros(32)), MessageBits(data), Bits(b as bv32)[..8]);
  }

  lemma LoopStep(data: seq<Byte>, b: Byte, c: bv32, entry: bv32)
    requires Bits(c) == RegisterAfter(data)
    requires IsEntry(LowByte(c ^ (b as bv32)), entry)
    ensures Bits(entry ^ (c >> 8)) == RegisterAfter(data + [b])
  {
    RegisterAfterByte(data, b);
    LookupRuns(c, b, entry, RegisterAfter(data), RegisterAfter(data + [b]));
  }

  /** The final complement of the register is the standard's checksum. */
  lemma ComplementedRegister(data: seq<Byte>, c: bv32)
    requires Bits(c) == RegisterAfter(data)
    ensures IsCrc32(data, c ^ 0xffffffff)
  {
    LongDivisionIsRun(Complement(Zeros(32)), MessageBits(data));
    BitsOfXor(c, 0xffffffff);
    BitsOfOnes();
  }

  /** The loop body: the register after one more byte. */
  method Update(table: array<bv32>, c: bv32, b: Byte, ghost data: seq<Byte>) returns (next: bv32)
    requires IsTable(table[..])
    requires Bits(c) == RegisterAfter(data)
    ensures Bits(next) == RegisterAfter(data + [b])
  {
    var entry := table[LowByte(c ^ (b as bv32))];
    LoopStep(data, b, c, entry);
    next := entry ^ (c >> 8);
  }

  method Crc32(table: array<bv32>, buf: seq<Byte>) returns (crc: bv32)
    requires IsTable(table[..])
    ensures IsCrc32(buf, crc)
  {
    var c: bv32 := 0xffffffff;
    BitsOfOnes();
    for i := 0 to |buf|
      invariant Bits(c) == RegisterAfter(buf[..i])
    {
      assert buf[..i + 1] == buf[..i] + [buf[i]];
      c := Update(table, c, buf[i], buf[..i]);
    }
    assert buf[..|buf|] == buf;
    ComplementedRegister(buf, c);
    crc := c ^ 0xffffffff;
  }

  /** The division fixes every bit of the checksum, so both copies of the code return the same word. */
  lemma Crc32IsUnique(data: seq<Byte>, a: bv32, b: bv32)
    requires IsCrc32(data, a) && IsCrc32(data, b)
    ensures a == b
  {
    BitsDetermineWord(a, b);
  }
}
