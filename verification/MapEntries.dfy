/** Reading the serialised entries of the hunk map. */
module MapEntries {
  import opened Bits
  import V5Map

  /** A big-endian number. */
  function Number(s: seq<byte>): nat {
    if s == [] then 0 else 256 * Number(s[..|s| - 1]) + s[|s| - 1]
  }

  function Kind(raw: seq<byte>): nat
    requires |raw| >= 1
  {
    raw[0]
  }

  function Length(raw: seq<byte>): nat
    requires |raw| >= 12
  {
    Number(raw[1..4])
  }

  function Offset(raw: seq<byte>): nat
    requires |raw| >= 12
  {
    Number(raw[4..10])
  }

  function Checksum(raw: seq<byte>): nat
    requires |raw| >= 12
  {
    Number(raw[10..12])
  }

  /** Reading an entry gives back what the map decoder wrote, cut to the widths of its fields. */
  lemma EntryRead(e: V5Map.Entry)
    ensures var raw := V5Map.EntryBytes(e);
            && Kind(raw) == e.kind % 256 && Length(raw) == e.length % 0x100_0000
            && Offset(raw) == e.offset % 0x1_0000_0000_0000 && Checksum(raw) == e.crc % 0x1_0000
  {
    hide Number;
    var raw := V5Map.EntryBytes(e);
    assert raw[1..4] == LowBytes(e.length, 3) by { Low3(e.length); }
    assert raw[4..10] == LowBytes(e.offset, 6) by { Low6(e.offset); }
    assert raw[10..12] == LowBytes(e.crc, 2) by { Low2(e.crc); }
    NumberLow3(e.length);
    NumberLow6(e.offset);
    NumberLow2(e.crc);
  }

  /** The k lowest bytes of a number, most significant first. */
  function LowBytes(x: nat, k: nat): (s: seq<byte>)
    ensures |s| == k
  {
    if k == 0 then [] else LowBytes(x / 256, k - 1) + [x % 256]
  }

  lemma Low2(x: nat)
    ensures LowBytes(x, 2) == [V5Map.ByteOf(x, 0x100), V5Map.ByteOf(x, 1)]
  {
    assert LowBytes(x / 256 / 256, 0) == [];
    assert LowBytes(x / 256, 1) == [(x / 256) % 256];
  }

  lemma Low3(x: nat)
    ensures LowBytes(x, 3) == [V5Map.ByteOf(x, 0x1_0000), V5Map.ByteOf(x, 0x100), V5Map.ByteOf(x, 1)]
  {
    Low2(x / 256);
    assert x / 256 / 256 == x / 0x1_0000;
  }

  lemma Low6(x: nat)
    ensures LowBytes(x, 6) == [V5Map.ByteOf(x, 0x100_0000_0000), V5Map.ByteOf(x, 0x1_0000_0000), V5Map.ByteOf(x, 0x100_0000),
                               V5Map.ByteOf(x, 0x1_0000), V5Map.ByteOf(x, 0x100), V5Map.ByteOf(x, 1)]
  {
    var y := x / 0x100_0000;
    assert x / 256 / 256 / 256 == y;
    Low3(y);
    Low3(x);
    assert y / 0x1_0000 == x / 0x100_0000_0000 && y / 0x100 == x / 0x1_0000_0000;
    LowSplit(x);
  }

  lemma LowSplit(x: nat)
    ensures LowBytes(x, 6) == LowBytes(x / 256 / 256 / 256, 3) + LowBytes(x, 3)
  {
    var a, b := x / 256, x / 256 / 256;
    assert LowBytes(x, 6) == LowBytes(a, 5) + [x % 256];
    assert LowBytes(a, 5) == LowBytes(b, 4) + [a % 256];
    assert LowBytes(b, 4) == LowBytes(b / 256, 3) + [b % 256];
    assert LowBytes(x, 3) == LowBytes(a, 2) + [x % 256];
    assert LowBytes(a, 2) == LowBytes(b, 1) + [a % 256];
    assert LowBytes(b, 1) == [b % 256];
  }

  /** An entry is its type, 24 bits of length, 48 bits of offset and 16 bits of checksum, each big-endian. */
  lemma EntryLayout(e: V5Map.Entry)
    ensures V5Map.EntryBytes(e) == LowBytes(e.kind, 1) + LowBytes(e.length, 3) + LowBytes(e.offset, 6) + LowBytes(e.crc, 2)
  {
    Low2(e.crc);
    Low3(e.length);
    Low6(e.offset);
    assert LowBytes(e.kind / 256, 0) == [];
  }

  lemma NumberStep(x: nat, k: nat)
    ensures Number(LowBytes(x, k + 1)) == 256 * Number(LowBytes(x / 256, k)) + x % 256
  {
    assert LowBytes(x, k + 1)[..k] == LowBytes(x / 256, k);
  }

  lemma NumberLow2(x: nat)
    ensures Number(LowBytes(x, 2)) == x % 0x1_0000
  {
    hide LowBytes;
    NumberStep(x, 1);
    NumberStep(x / 256, 0);
    assert Number(LowBytes(x / 256 / 256, 0)) == 0;
    Carry2(x / 256, x % 256);
  }

  lemma NumberLow3(x: nat)
    ensures Number(LowBytes(x, 3)) == x % 0x100_0000
  {
    hide LowBytes, Number;
    NumberStep(x, 2);
    NumberLow2(x / 256);
    Carry3(x / 256, x % 256);
  }

  lemma NumberLow6(x: nat)
    ensures Number(LowBytes(x, 6)) == x % 0x1_0000_0000_0000
  {
    hide LowBytes, Number;
    NumberStep(x, 5);
    NumberStep(x / 256, 4);
    NumberStep(x / 256 / 256, 3);
    NumberLow3(x / 256 / 256 / 256);
    Carry6(x / 0x100_0000, x % 0x100_0000);
    ThreeBytes(x);
  }

  lemma ThreeBytes(x: nat)
    ensures x / 256 / 256 / 256 == x / 0x100_0000
    ensures 256 * (256 * (x / 256 / 256 % 256) + x / 256 % 256) + x % 256 == x % 0x100_0000
    ensures x == 0x100_0000 * (x / 0x100_0000) + x % 0x100_0000
  {
  }

  lemma Carry2(y: nat, b: nat)
    requires b < 256
    ensures 256 * (y % 256) + b == (256 * y + b) % 0x1_0000
  {
    Rest2(y / 256, 256 * (y % 256) + b);
  }

  lemma Rest2(h: nat, r: nat)
    requires r < 0x1_0000
    ensures (0x1_0000 * h + r) % 0x1_0000 == r
  {
  }

  lemma Carry3(y: nat, b: nat)
    requires b < 256
    ensures 256 * (y % 0x1_0000) + b == (256 * y + b) % 0x100_0000
  {
    Rest3(y / 0x1_0000, 256 * (y % 0x1_0000) + b);
  }

  lemma Rest3(h: nat, r: nat)
    requires r < 0x100_0000
    ensures (0x100_0000 * h + r) % 0x100_0000 == r
  {
  }

  lemma Carry6(y: nat, b: nat)
    requires b < 0x100_0000
    ensures 0x100_0000 * (y % 0x100_0000) + b == (0x100_0000 * y + b) % 0x1_0000_0000_0000
  {
    Rest6(y / 0x100_0000, 0x100_0000 * (y % 0x100_0000) + b);
  }

  lemma Rest6(h: nat, r: nat)
    requires r < 0x1_0000_0000_0000
    ensures (0x1_0000_0000_0000 * h + r) % 0x1_0000_0000_0000 == r
  {
  }
}
