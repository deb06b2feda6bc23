/** The boot sector, the layout arithmetic of fat16_format and fat16_mount, and what a formatted disk is
    (src/fs/fat16.c). */
module Fat16Format {
  import opened Bytes
  import opened Fat16Names
  import opened Fat16Chains
  import opened Fat16Volume
  import opened Fat16Files

  /** Subtraction of unsigned 32-bit numbers. */
  function Sub32(a: int, b: int): u32 {
    (a - b) % TWO_TO_THE_32
  }

  /** What fat16_mount stores in fs for a boot sector (src/fs/fat16.c:185-199). */
  function ParseBpb(sec: Sector): Geometry
    requires sec[13] != 0
  {
    var numFats, fatSize := sec[16] as nat, Le16(sec, 22) as nat;
    var total: nat := if Le16(sec, 19) != 0 then Le16(sec, 19) else Le32(sec, 32);
    var rootStart := Le16(sec, 14) + Times(numFats, fatSize);
    var rootSectors := (Le16(sec, 17) as nat * 32 + 511) / 512;
    var dataStart := rootStart + rootSectors;
    Geometry(sec[13], Le16(sec, 14), numFats, Le16(sec, 17), fatSize, total,
             Le16(sec, 14), rootStart, rootSectors, dataStart, Sub32(total, dataStart) / sec[13] as int)
  }

  /** The same in bytes and numbers; a data region that begins behind the last sector wraps around. */
  lemma ParsedBytes(sec: Sector)
    requires sec[13] != 0
    ensures var g := ParseBpb(sec);
            && g.spc == sec[13] && g.reserved == g.fatStart == sec[14] as int + 0x100 * sec[15] as int
            && g.numFats == sec[16] && g.rootEntries == sec[17] as int + 0x100 * sec[18] as int
            && g.fatSize == sec[22] as int + 0x100 * sec[23] as int
            && g.rootStart == g.fatStart + g.numFats * g.fatSize
            && 32 * g.rootEntries <= 512 * g.rootSectors < 32 * g.rootEntries + 512
            && g.dataStart == g.rootStart + g.rootSectors
    ensures var small := sec[19] as int + 0x100 * sec[20] as int;
            var large := sec[32] as int + 0x100 * sec[33] as int + 0x1_0000 * sec[34] as int +
                         0x100_0000 * sec[35] as int;
            ParseBpb(sec).totalSectors == if small != 0 then small else large
    ensures var g := ParseBpb(sec);
            var left := g.totalSectors - g.dataStart + if g.dataStart <= g.totalSectors then 0 else 0x1_0000_0000;
            g.clusters * g.spc <= left < g.clusters * g.spc + g.spc
  {
    var g := ParseBpb(sec);
    TimesIsProduct(g.numFats, g.fatSize);
    ProductBelow(g.numFats, g.fatSize);
    Clusters(g.totalSectors, g.dataStart, g.spc);
  }

  lemma Clusters(total: u32, start: nat, spc: nat)
    requires spc > 0 && start < TWO_TO_THE_32
    ensures var n, left := Sub32(total, start) / spc, total - start + if start <= total then 0 else 0x1_0000_0000;
            n * spc <= left < n * spc + spc
  {
    Quotient(Sub32(total, start), spc);
  }

  lemma ProductBelow(a: nat, b: nat)
    requires a <= 0x100 && b <= 0x1_0000
    ensures a * b <= 0x100_0000
  {
  }

  lemma Quotient(a: nat, b: nat)
    requires b > 0
    ensures a / b * b <= a < a / b * b + b
  {
  }

  /** The checks of fat16_mount. */
  predicate Mountable(sec: Sector) {
    && sec[510] == 0x55 && sec[511] == 0xAA
    && Le16(sec, 11) == 512
    && sec[13] != 0 && 4085 <= ParseBpb(sec).clusters < 65525
  }

  const ROOT_SECTORS := 32

  /** The FAT size fat16_format computes before the FATs are subtracted, stored in 16 bits (src/fs/fat16.c:546-550). */
  function FormatFatSize(total: u32): nat {
    (Sub32(total, 1 + ROOT_SECTORS) / 4 * 2 + 511) / 512 % 0x1_0000
  }

  function FormatClusters(total: u32): nat {
    Sub32(total, 1 + 2 * FormatFatSize(total) + ROOT_SECTORS) / 4
  }

  /** The sizes fat16_format accepts (src/fs/fat16.c:532-560). */
  predicate Formattable(total: u32) {
    total >= 8192 && 4085 <= FormatClusters(total) < 65525
  }

  function FormatGeometry(total: u32): Geometry {
    var f := FormatFatSize(total);
    Geometry(4, 1, 2, 512, f, total, 1, 1 + 2 * f, ROOT_SECTORS, 1 + 2 * f + ROOT_SECTORS, FormatClusters(total))
  }

  /** Whenever format accepts a size, the regions it lays out follow one another and fit on the disk, the FAT has room
      for every cluster although its size was computed before the FATs were subtracted, the 16-bit FAT size was not
      truncated, and no cluster number reaches the bad-cluster mark 0xFFF7. */
  lemma FormatLayout(total: u32)
    requires Formattable(total)
    ensures var g := FormatGeometry(total);
            && LayoutOk(g, total)
            && g.fatSize == ((total - 33) / 4 * 2 + 511) / 512
            && g.clusters + 1 < 0xFFF7
            && 0 < g.fatStart < g.rootStart < g.dataStart < g.dataStart + 4 * g.clusters <= total
  {
    var f := FormatFatSize(total);
    var c0 := (total - 33) / 4;
    assert Sub32(total, 33) == total - 33;
    FatSizeFits(total);
    assert Times(2, f) == 2 * f by {
      assert Times(2, f) == Times(1, f) + f && Times(1, f) == Times(0, f) + f;
    }
    TimesIsProduct(FormatClusters(total), 4);
  }

  lemma FatSizeFits(total: u32)
    requires Formattable(total)
    ensures var f := FormatFatSize(total);
            && f == ((total - 33) / 4 * 2 + 511) / 512 < 0x1_0000
            && 1 <= f && 33 + 2 * f < total
            && FormatClusters(total) == (total - 33 - 2 * f) / 4
            && FormatClusters(total) + 2 <= 256 * f
  {
    var whole := ((total - 33) / 4 * 2 + 511) / 512;
    var f := FormatFatSize(total);
    assert Sub32(total, 33) == total - 33;
    assert f == whole % 0x1_0000 && f <= whole;
    assert 33 + 2 * f < total;
    assert Sub32(total, 1 + 2 * f + 32) == total - 33 - 2 * f;
    assert total - 33 - 2 * f < 4 * 65525;
    assert total < 4 * 65525 + 33 + 2 * 0x1_0000;
  }

  /** In sectors: from a little above 8 MB to a little above 128 MB. A smaller disk has too few clusters,
      a larger one too many. */
  lemma FormattableExactly(total: u32)
    ensures Formattable(total) <==> 16405 <= total <= 262646
  {
    if total >= 8192 {
      assert Sub32(total, 33) == total - 33;
      var whole := ((total - 33) / 4 * 2 + 511) / 512;
      var f := FormatFatSize(total);
      assert f == whole % 0x1_0000 && f <= whole;
      assert 33 + 2 * f < total;
      assert Sub32(total, 1 + 2 * f + 32) == total - 33 - 2 * f;
      assert FormatClusters(total) == (total - 33 - 2 * f) / 4;
      if total > 1_000_000 {
        assert 2 * f < 0x2_0000;
      } else {
        assert f == whole;
      }
    }
  }

  /** An eleven-byte label field. */
  function LabelField(volume: Option<CString>): (r: seq<byte>)
    ensures |r| == 11
  {
    match volume
    case Some(s) => Pad(Upper(Take(s, 11)), 11)
    case None => [0x4E, 0x4F, 0x20, 0x4E, 0x41, 0x4D, 0x45, 0x20, 0x20, 0x20, 0x20]
  }

  const OEM_NAME: seq<byte> := [0x43, 0x47, 0x4F, 0x53, 0x20, 0x20, 0x20, 0x20]
  const FS_TYPE: seq<byte> := [0x46, 0x41, 0x54, 0x31, 0x36, 0x20, 0x20, 0x20]

  /** The numeric fields of the boot sector, at offsets 11 to 42 (src/fs/fat16.h:16-33): bytes per sector, sectors per
      cluster, reserved sectors, number of FATs, root entries, 16-bit total, media type, FAT size, sectors per track,
      heads, hidden sectors, 32-bit total, drive number, a reserved byte, the extended signature, the volume id. */
  function BpbFields(total: u32, fatSize: u16): (r: seq<byte>)
    ensures |r| == 32
  {
    var small, large := if total <= 65535 then total else 0, if total > 65535 then total else 0;
    [0x00, 0x02, 4, 1, 0, 2, 0x00, 0x02, small % 0x100, small / 0x100, 0xF8, fatSize % 0x100, fatSize / 0x100,
     63, 0, 16, 0, 0, 0, 0, 0,
     large % 0x100, large / 0x100 % 0x100, large / 0x1_0000 % 0x100, large / 0x100_0000,
     0x80, 0, 0x29, 0x78, 0x56, 0x34, 0x12]
  }

  /** The boot sector fat16_format writes (src/fs/fat16.c:565-614). */
  ghost predicate IsBootSector(sec: seq<byte>, total: u32, volume: Option<CString>) {
    && |sec| == 512
    && sec[0..3] == [0xEB, 0x3C, 0x90]
    && sec[3..11] == OEM_NAME
    && sec[11..43] == BpbFields(total, FormatFatSize(total))
    && sec[43..54] == LabelField(volume)
    && sec[54..62] == FS_TYPE
    && (forall i :: 62 <= i < 510 ==> sec[i] == 0)
    && sec[510..512] == [0x55, 0xAA]
  }

  lemma SplitWord(w: u32)
    ensures w == w % 0x100 + 0x100 * (w / 0x100 % 0x100) + 0x1_0000 * (w / 0x1_0000 % 0x100) +
            0x100_0000 * (w / 0x100_0000)
  {
  }

  /** What a mount reads back from the numeric fields alone. */
  lemma FieldValues(total: u32, fatSize: u16)
    ensures var f := BpbFields(total, fatSize);
            && Le16(f, 0) == 512 && f[2] == 4 && Le16(f, 3) == 1 && f[5] == 2 && Le16(f, 6) == 512
            && Le16(f, 8) == (if total <= 65535 then total else 0) && Le16(f, 11) == fatSize
            && Le32(f, 21) == (if total > 65535 then total else 0)
  {
    var f, large := BpbFields(total, fatSize), if total > 65535 then total else 0;
    assert f[21] == large % 0x100 && f[22] == large / 0x100 % 0x100;
    assert f[23] == large / 0x1_0000 % 0x100 && f[24] == large / 0x100_0000;
    SplitWord(large);
  }

  /** What fat16_mount reads back from the boot sector. */
  lemma BootFields(sec: Sector, total: u32, volume: Option<CString>)
    requires IsBootSector(sec, total, volume)
    ensures sec[510] == 0x55 && sec[511] == 0xAA && Le16(sec, 11) == 512 && sec[13] == 4 && Le16(sec, 14) == 1
    ensures sec[16] == 2 && Le16(sec, 17) == 512 && Le16(sec, 22) == FormatFatSize(total)
    ensures Le16(sec, 19) == (if total <= 65535 then total else 0)
    ensures Le32(sec, 32) == (if total > 65535 then total else 0)
  {
    FieldValues(total, FormatFatSize(total));
    assert forall i :: 11 <= i < 43 ==> sec[i] == sec[11..43][i - 11];
    assert sec[510] == sec[510..512][0] && sec[511] == sec[510..512][1];
  }

  /** The fields that a mount does not read: names, media type, disk geometry, drive, signature and serial number. */
  lemma BootConstants(sec: seq<byte>, total: u32, volume: Option<CString>)
    requires IsBootSector(sec, total, volume)
    ensures sec[..3] == [0xEB, 0x3C, 0x90] && sec[3..11] == [0x43, 0x47, 0x4F, 0x53, 0x20, 0x20, 0x20, 0x20]
    ensures sec[21] == 0xF8 && Le16(sec, 24) == 63 && Le16(sec, 26) == 16 && Le32(sec, 28) == 0
    ensures sec[36] == 0x80 && sec[37] == 0 && sec[38] == 0x29 && Le32(sec, 39) == 0x1234_5678
    ensures volume == None ==> sec[43..54] == [0x4E, 0x4F, 0x20, 0x4E, 0x41, 0x4D, 0x45, 0x20, 0x20, 0x20, 0x20]
    ensures sec[54..62] == [0x46, 0x41, 0x54, 0x31, 0x36, 0x20, 0x20, 0x20]
  {
    assert forall i :: 11 <= i < 43 ==> sec[i] == sec[11..43][i - 11];
    assert sec[..3] == sec[0..3];
  }

  /** A label is stored in capitals and padded with spaces: eleven characters in the boot sector, eight in the root
      directory. */
  lemma LabelBytes(sec: seq<byte>, total: u32, name: CString, i: nat)
    requires IsBootSector(sec, total, Some(name)) && i < 11
    ensures var c: byte := if i >= |name| then 0x20 else if 0x61 <= name[i] <= 0x7A then name[i] - 32 else name[i];
            && sec[43 + i] == c && LabelEntry(name)[i] == (if i < 8 then c else 0x20)
            && LabelEntry(name)[11] == 0x08 && forall j :: 12 <= j < 32 ==> LabelEntry(name)[j] == 0
  {
    assert sec[43 + i] == sec[43..54][i];
  }

  /** The volume-label entry: the first eight characters of the label and a blank extension (src/fs/fat16.c:657-669). */
  function LabelEntry(volume: CString): Entry {
    Pad(Upper(Take(volume, 8)), 8) + [SPACE, SPACE, SPACE, 0x08] + seq(20, _ => 0)
  }

  /** The first sector of the first FAT: the two reserved entries. */
  function FatHead(): Sector {
    [0xF8, 0xFF, 0xFF, 0xFF] + seq(508, _ => 0)
  }

  function RootHead(volume: Option<CString>): Sector {
    match volume
    case Some(s) => LabelEntry(s) + seq(480, _ => 0)
    case None => ZeroSector()
  }

  /** What fat16_format makes of the disk d0: the second FAT copy lacks the reserved entries of the first. */
  ghost predicate Formatted(d0: Disk, d: Disk, volume: Option<CString>)
    requires |d0| < TWO_TO_THE_32
  {
    var f := FormatFatSize(|d0|);
    && |d| == |d0| && 33 + 2 * f < |d|
    && IsBootSector(d[0], |d0|, volume)
    && d[1] == FatHead()
    && (forall l :: 2 <= l < 1 + 2 * f ==> d[l] == ZeroSector())
    && d[1 + 2 * f] == RootHead(volume)
    && (forall l :: 2 + 2 * f <= l < 33 + 2 * f ==> d[l] == ZeroSector())
    && (forall l :: 33 + 2 * f <= l < |d| ==> d[l] == d0[l])
  }

  lemma FormatGeometryOk(total: u32)
    requires Formattable(total)
    ensures LayoutOk(FormatGeometry(total), total)
  {
    var f := FormatFatSize(total);
    FatSizeFits(total);
    FormatLayout(total);
    assert Times(2, f) == 2 * f by {
      assert Times(2, f) == Times(1, f) + f && Times(1, f) == Times(0, f) + f;
    }
  }

  /** Mounting the formatted disk gives back the geometry that format worked with. */
  lemma FormattedMounts(d0: Disk, d: Disk, volume: Option<CString>)
    requires |d0| < TWO_TO_THE_32 && Formattable(|d0|) && Formatted(d0, d, volume)
    ensures Mountable(d[0]) && ParseBpb(d[0]) == FormatGeometry(|d0|)
    ensures LayoutOk(FormatGeometry(|d0|), |d|)
  {
    FormatGeometryOk(|d0|);
    FatSizeFits(|d0|);
    BootFields(d[0], |d0|, volume);
  }

  /** Every FAT entry from 2 on is free, in both copies. */
  lemma FormattedFat(d0: Disk, d: Disk, volume: Option<CString>, i: nat, c: nat)
    requires |d0| < TWO_TO_THE_32 && Formattable(|d0|) && Formatted(d0, d, volume)
    requires i < 2 && 2 <= c < 256 * FormatFatSize(|d0|)
    ensures LayoutOk(FormatGeometry(|d0|), |d|)
    ensures FatCell(d, FormatGeometry(|d0|), i, c) == FREE && FatEntry(d, FormatGeometry(|d0|), c) == FREE
  {
    var g := FormatGeometry(|d0|);
    FormatGeometryOk(|d0|);
    assert Times(0, g.fatSize) == 0 && Times(1, g.fatSize) == Times(0, g.fatSize) + g.fatSize;
  }

  /** The two copies of a formatted FAT agree on exactly the entries from 2 on: the buffer is cleared after the first
      copy, so the second one lacks both reserved entries. */
  lemma FormattedCopies(d0: Disk, d: Disk, volume: Option<CString>, c: nat)
    requires |d0| < TWO_TO_THE_32 && Formattable(|d0|) && Formatted(d0, d, volume) && c < 256 * FormatFatSize(|d0|)
    ensures LayoutOk(FormatGeometry(|d0|), |d|)
    ensures FatCell(d, FormatGeometry(|d0|), 1, c) == FatCell(d, FormatGeometry(|d0|), 0, c) <==> c >= 2
  {
    var g := FormatGeometry(|d0|);
    FormatGeometryOk(|d0|);
    if c >= 2 {
      FormattedFat(d0, d, volume, 0, c);
      FormattedFat(d0, d, volume, 1, c);
    } else {
      ReservedCells(d0, d, volume, c);
    }
  }

  lemma ReservedCells(d0: Disk, d: Disk, volume: Option<CString>, c: nat)
    requires |d0| < TWO_TO_THE_32 && Formattable(|d0|) && Formatted(d0, d, volume) && c < 2
    ensures LayoutOk(FormatGeometry(|d0|), |d|) && 2 <= 256 * FormatFatSize(|d0|)
    ensures FatCell(d, FormatGeometry(|d0|), 0, c) == (if c == 0 then 0xFFF8 else 0xFFFF)
    ensures FatCell(d, FormatGeometry(|d0|), 1, c) == 0
  {
    var g := FormatGeometry(|d0|);
    FormatGeometryOk(|d0|);
    FatSizeFits(|d0|);
    assert Times(0, g.fatSize) == 0 && Times(1, g.fatSize) == Times(0, g.fatSize) + g.fatSize;
    assert d[1 + g.fatSize] == ZeroSector();
  }

  lemma FormattedSector(d0: Disk, d: Disk, volume: Option<CString>, i: nat)
    requires |d0| < TWO_TO_THE_32 && Formattable(|d0|) && Formatted(d0, d, volume) && i < 32
    ensures var g := FormatGeometry(|d0|);
            && LayoutOk(g, |d|) && g.rootStart + i < |d| && 16 * g.rootSectors == 512
            && d[g.rootStart + i] == if i == 0 then RootHead(volume) else ZeroSector()
  {
    FormatGeometryOk(|d0|);
  }

  lemma FormattedSlot(d0: Disk, d: Disk, volume: Option<CString>, k: nat)
    requires |d0| < TWO_TO_THE_32 && Formattable(|d0|) && Formatted(d0, d, volume) && k < 512
    ensures LayoutOk(FormatGeometry(|d0|), |d|)
    ensures var e := Dir(d, FormatGeometry(|d0|))[k];
            && !Live(e) && (k > 0 ==> First(e) == 0)
            && (k == 0 ==> First(e) == if volume == None then 0 else First(LabelEntry(volume.value)))
  {
    FormattedSector(d0, d, volume, k / 16);
    DirAt(d, FormatGeometry(|d0|), k);
    RootEntry(volume, k);
  }

  /** The slots that the format leaves: none is live, and the first holds the label if there is one. */
  lemma RootEntry(volume: Option<CString>, k: nat)
    requires k < 512
    ensures var sec := if k / 16 == 0 then RootHead(volume) else ZeroSector();
            var e := sec[32 * (k % 16)..32 * (k % 16) + 32];
            && !Live(e) && (k > 0 ==> First(e) == 0)
            && (k == 0 ==> First(e) == if volume == None then 0 else First(LabelEntry(volume.value)))
  {
    if k == 0 && volume.Some? {
      assert RootHead(volume)[11] == 0x08;
    }
  }

  /** A freshly formatted volume is well-formed, with every cluster free and no file in it. */
  lemma FormattedWellFormed(d0: Disk, d: Disk, volume: Option<CString>)
    requires |d0| < TWO_TO_THE_32 && Formattable(|d0|) && Formatted(d0, d, volume)
    ensures var g := FormatGeometry(|d0|);
            && WellFormed(d, g, seq(512, _ => []), map[])
            && CountFree(Fat(d, g)) == g.clusters
            && (forall name: CString :: Lookup(Dir(d, g), name) == None)
  {
    var g := FormatGeometry(|d0|);
    FormattedMounts(d0, d, volume);
    forall i, c | 0 <= i < g.numFats && 2 <= c < 256 * g.fatSize
      ensures FatCell(d, g, i, c) == FatEntry(d, g, c)
    {
      FormattedFat(d0, d, volume, i, c);
    }
    forall c | 2 <= c < g.clusters + 2
      ensures Fat(d, g)[c] == FREE
    {
      FatAt(d, g, c);
      FormattedFat(d0, d, volume, 0, c);
    }
    AllZeros(Fat(d, g), g.clusters + 2);
    forall k | 0 <= k < 512
      ensures !Live(Dir(d, g)[k]) && (k > 0 ==> First(Dir(d, g)[k]) == 0)
    {
      FormattedSlot(d0, d, volume, k);
    }
  }

  lemma {:induction false} AllZeros(fat: seq<u16>, n: nat)
    requires 2 <= n <= |fat| && forall c :: 2 <= c < n ==> fat[c] == FREE
    ensures Zeros(fat, n) == n - 2
  {
    if n > 2 {
      AllZeros(fat, n - 1);
    }
  }
}
