/** Octets and fixed-width unsigned fields in a byte buffer: `writeUInt16LE`, `writeUInt32LE`,
    `writeUInt32BE` and the readers of what they write. */
module ByteFields {
  import Crc32

  type Octet = n: int | 0 <= n < 256
  type Octets = seq<Octet>

  function ToWord(n: int): (w: bv8)
    requires 0 <= n < 256
  {
    n as bv8
  }

  /** Octets as the words the checksum works on. */
  function Words(s: Octets): (w: seq<bv8>)
  {
    seq(|s|, i requires 0 <= i < |s| => ToWord(s[i]))
  }

  function ToField(w: bv32): (v: int)
    ensures 0 <= v < 0x1_0000_0000
  {
    w as int
  }

  /** `v` is the CRC-32 of `data`, as a 32-bit field value. */
  ghost predicate HasCrc(data: Octets, v: int)
  {
    exists w :: Crc32.IsCrc32(Words(data), w) && v == ToField(w)
  }

  /** `crc32(buf)` as both files call it, on their shared table. */
  method CrcOf(data: Octets) returns (v: int)
    ensures 0 <= v < 0x1_0000_0000 && HasCrc(data, v)
  {
    var table := Crc32.MakeTable();
    var w := Crc32.Crc32(table, Words(data));
    v := ToField(w);
  }

  function Get16(s: Octets, at: nat): (v: int)
    requires at + 2 <= |s|
  {
    (s[at] as int) + 256 * (s[at + 1] as int)
  }

  function Get32(s: Octets, at: nat): (v: int)
    requires at + 4 <= |s|
  {
    (s[at] as int) + 256 * (s[at + 1] as int) + 0x1_0000 * (s[at + 2] as int) + 0x100_0000 * (s[at + 3] as int)
  }

  function Get32BE(s: Octets, at: nat): (v: int)
    requires at + 4 <= |s|
  {
    0x100_0000 * (s[at] as int) + 0x1_0000 * (s[at + 1] as int) + 256 * (s[at + 2] as int) + (s[at + 3] as int)
  }

  lemma SplitField(v: int)
    requires 0 <= v < 0x1_0000_0000
    ensures v == v % 256 + 256 * (v / 256 % 256) + 0x1_0000 * (v / 0x1_0000 % 256) + 0x100_0000 * (v / 0x100_0000)
    ensures v / 0x100_0000 < 256
  {
    assert v / 0x1_0000 == v / 256 / 256;
    assert v / 0x100_0000 == v / 0x1_0000 / 256;
  }

  /** The fields that lie outside the `width` octets changed at `at` read as before. */
  lemma KeepsOthers(before: Octets, after: Octets, at: nat, width: nat)
    requires |after| == |before|
    requires forall i :: 0 <= i < |after| && !(at <= i < at + width) ==> after[i] == before[i]
    ensures OthersKept(before, after, at, width)
  {
  }

  /** Every field outside the `width` octets at `at` reads as before. */
  ghost predicate OthersKept(before: Octets, after: Octets, at: nat, width: nat)
  {
    && |after| == |before|
    && (forall p: nat :: p + 2 <= |after| && (p + 2 <= at || at + width <= p) ==> Get16(after, p) == Get16(before, p))
    && (forall p: nat :: p + 4 <= |after| && (p + 4 <= at || at + width <= p) ==> Get32(after, p) == Get32(before, p))
  }

  /** `Buffer.writeUInt16LE`: the two octets at `at`, and nothing else. */
  method Put16(a: array<Octet>, v: int, at: nat)
    requires at + 2 <= a.Length && 0 <= v < 0x1_0000
    modifies a
    ensures Get16(a[..], at) == v
    ensures OthersKept(old(a[..]), a[..], at, 2)
  {
    a[at], a[at + 1] := v % 256, v / 256;
  }

  /** `Buffer.writeUInt32LE`: the four octets at `at`, and nothing else. */
  method Put32(a: array<Octet>, v: int, at: nat)
    requires at + 4 <= a.Length && 0 <= v < 0x1_0000_0000
    modifies a
    ensures Get32(a[..], at) == v
    ensures OthersKept(old(a[..]), a[..], at, 4)
  {
    SplitField(v);
    a[at], a[at + 1], a[at + 2], a[at + 3] := v % 256, v / 256 % 256, v / 0x1_0000 % 256, v / 0x100_0000;
    KeepsOthers(old(a[..]), a[..], at, 4);
  }

  /** `Buffer.writeUInt32BE` into a buffer of four. */
  method Put32BE(v: int) returns (a: array<Octet>)
    requires 0 <= v < 0x1_0000_0000
    ensures fresh(a) && a.Length == 4 && Get32BE(a[..], 0) == v
  {
    a := new Octet[4];
    SplitField(v);
    a[0], a[1], a[2], a[3] := v / 0x100_0000, v / 0x1_0000 % 256, v / 256 % 256, v % 256;
  }
}
