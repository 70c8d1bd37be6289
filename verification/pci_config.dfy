/** Reads of the cached PCI configuration-space snapshot. Multi-byte values
    are composed little-endian (the byte order of the x86/x64 hosts the driver
    runs on). */
module PciConfig {
  import opened Types
  import opened Adapter

  /** The status code (always 0) and the value stored through the out pointer. */
  datatype ConfigRead<T> = ConfigRead(status: int, value: T)

  function Pow256(n: nat): (p: nat)
    ensures p >= 1
  {
    if n == 0 then 1 else 0x100 * Pow256(n - 1)
  }

  /** The unsigned integer whose little-endian encoding is `bs`. */
  function LittleEndian(bs: seq<u8>): nat
  {
    if |bs| == 0 then 0 else bs[0] + 0x100 * LittleEndian(bs[1..])
  }

  /** The `n`-byte little-endian encoding of `v` (higher bytes dropped). */
  function ToLittleEndian(v: nat, n: nat): (bs: seq<u8>)
    ensures |bs| == n
  {
    if n == 0 then [] else [v % 0x100] + ToLittleEndian(v / 0x100, n - 1)
  }

  lemma {:induction false} LittleEndianBound(bs: seq<u8>)
    ensures LittleEndian(bs) < Pow256(|bs|)
  {
    if |bs| > 0 {
      LittleEndianBound(bs[1..]);
      assert LittleEndian(bs[1..]) + 1 <= Pow256(|bs| - 1);
      assert 0x100 * (LittleEndian(bs[1..]) + 1) <= 0x100 * Pow256(|bs| - 1);
    }
  }

  /** Encoding then decoding a value that fits in `n` bytes gives it back. */
  lemma {:induction false} DecodeEncode(v: nat, n: nat)
    requires v < Pow256(n)
    ensures LittleEndian(ToLittleEndian(v, n)) == v
  {
    if n > 0 {
      assert v / 0x100 < Pow256(n - 1);
      DecodeEncode(v / 0x100, n - 1);
      assert ToLittleEndian(v, n)[1..] == ToLittleEndian(v / 0x100, n - 1);
    }
  }

  /** Decoding then encoding at the same width gives the bytes back. */
  lemma {:induction false} EncodeDecode(bs: seq<u8>)
    ensures ToLittleEndian(LittleEndian(bs), |bs|) == bs
  {
    if |bs| > 0 {
      EncodeDecode(bs[1..]);
      var v := LittleEndian(bs);
      assert v % 0x100 == bs[0];
      assert v / 0x100 == LittleEndian(bs[1..]);
      assert ToLittleEndian(v, |bs|) == [bs[0]] + bs[1..];
    }
  }

  /** Two consecutive little-endian fields compose. */
  lemma {:induction false} LittleEndianAppend(a: seq<u8>, b: seq<u8>)
    ensures LittleEndian(a + b) == LittleEndian(a) + Pow256(|a|) * LittleEndian(b)
  {
    if |a| > 0 {
      assert (a + b)[1..] == a[1..] + b;
      LittleEndianAppend(a[1..], b);
      var t, p := LittleEndian(a[1..]), Pow256(|a| - 1);
      assert LittleEndian(a) == a[0] + 0x100 * t;
      assert Pow256(|a|) == 0x100 * p;
      calc {
        LittleEndian(a + b);
        a[0] + 0x100 * (t + p * LittleEndian(b));
        a[0] + 0x100 * t + (0x100 * p) * LittleEndian(b);
      }
    } else {
      assert a + b == b;
    }
  }

  /** `pci_read_config_byte`. */
  function PciReadConfigByte(s: AdapterExtension, where: int): (r: ConfigRead<u8>)
    requires 0 <= where < |s.pciConfigBuf|
    ensures r.status == 0
    ensures r.value == s.pciConfigBuf[where]
    ensures ToLittleEndian(r.value, 1) == s.pciConfigBuf[where..where + 1]
  {
    ConfigRead(0, s.pciConfigBuf[where])
  }

  /** `pci_read_config_word`: two bytes at `where`, low byte first. */
  function PciReadConfigWord(s: AdapterExtension, where: int): (r: ConfigRead<u16>)
    requires 0 <= where && where + 2 <= |s.pciConfigBuf|
    ensures r.status == 0
    ensures r.value == LittleEndian(s.pciConfigBuf[where..where + 2])
    ensures ToLittleEndian(r.value, 2) == s.pciConfigBuf[where..where + 2]
  {
    var b := s.pciConfigBuf;
    var v := b[where] as int + 0x100 * (b[where + 1] as int);
    assert v == LittleEndian(b[where..where + 2]) by {
      var w := b[where..where + 2];
      assert LittleEndian(w) == w[0] + 0x100 * LittleEndian(w[1..]);
      assert LittleEndian(w[1..]) == w[1] + 0x100 * LittleEndian(w[2..]);
      assert LittleEndian(w[2..]) == 0;
    }
    EncodeDecode(b[where..where + 2]);
    ConfigRead(0, v)
  }

  /** `pci_read_config_dword`: four bytes at `where`, low byte first. */
  function PciReadConfigDword(s: AdapterExtension, where: int): (r: ConfigRead<u32>)
    requires 0 <= where && where + 4 <= |s.pciConfigBuf|
    ensures r.status == 0
    ensures r.value == LittleEndian(s.pciConfigBuf[where..where + 4])
    ensures ToLittleEndian(r.value, 4) == s.pciConfigBuf[where..where + 4]
  {
    var b := s.pciConfigBuf;
    var v := b[where] as int + 0x100 * (b[where + 1] as int) + 0x1_0000 * (b[where + 2] as int) + 0x100_0000 * (b[where + 3] as int);
    assert v == LittleEndian(b[where..where + 4]) by {
      var w := b[where..where + 4];
      assert LittleEndian(w) == w[0] + 0x100 * LittleEndian(w[1..]);
      assert LittleEndian(w[1..]) == w[1] + 0x100 * LittleEndian(w[2..]);
      assert LittleEndian(w[2..]) == w[2] + 0x100 * LittleEndian(w[3..]);
      assert LittleEndian(w[3..]) == w[3] + 0x100 * LittleEndian(w[4..]);
      assert LittleEndian(w[4..]) == 0;
    }
    EncodeDecode(b[where..where + 4]);
    ConfigRead(0, v)
  }

  /** A dword read is the word at `where` plus the word after it shifted up by
      16 bits. */
  lemma DwordIsTwoWords(s: AdapterExtension, where: int)
    requires 0 <= where && where + 4 <= |s.pciConfigBuf|
    ensures PciReadConfigDword(s, where).value
         == PciReadConfigWord(s, where).value + 0x1_0000 * PciReadConfigWord(s, where + 2).value
  {
    var b := s.pciConfigBuf;
    assert b[where..where + 4] == b[where..where + 2] + b[where + 2..where + 4];
    LittleEndianAppend(b[where..where + 2], b[where + 2..where + 4]);
  }

  /** A snapshot holding the little-endian encoding of `v` at `where` reads
      back as `v`. */
  lemma ReadWordOfEncoded(s: AdapterExtension, where: int, v: u16)
    requires 0 <= where && where + 2 <= |s.pciConfigBuf|
    requires s.pciConfigBuf[where..where + 2] == ToLittleEndian(v, 2)
    ensures PciReadConfigWord(s, where).value == v
  {
    DecodeEncode(v, 2);
  }

  lemma ReadDwordOfEncoded(s: AdapterExtension, where: int, v: u32)
    requires 0 <= where && where + 4 <= |s.pciConfigBuf|
    requires s.pciConfigBuf[where..where + 4] == ToLittleEndian(v, 4)
    ensures PciReadConfigDword(s, where).value == v
  {
    DecodeEncode(v, 4);
  }

  /** Bytes 0x34, 0x12 at offsets 0x2E and 0x2F read as the word 0x1234. */
  lemma WordScenario(s: AdapterExtension)
    requires |s.pciConfigBuf| == 256
    requires s.pciConfigBuf[0x2E] == 0x34 && s.pciConfigBuf[0x2F] == 0x12
    ensures PciReadConfigWord(s, 0x2E).value == 0x1234
  {
    var w := s.pciConfigBuf[0x2E..0x30];
    assert w[1..][1..] == [];
    assert w[0] == 0x34 && w[1..][0] == 0x12;
  }
}
