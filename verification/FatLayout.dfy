/** The arithmetic of formatting a whole disk as FAT32 (internal/fatfmt/fatfmt.go:29-58,
    79-80, 108-163). Multiples are binary: KB is 1024 bytes. */
module FatLayout {
  import opened Arith

  const PARTITION_START := 1048576
  const MAX_DISK_SIZE := 0x200_0000_0000
  const MIN_CLUSTERS := 65525
  /** The largest cluster count a FAT32 volume may have. */
  const MAX_CLUSTERS := 0x0FFF_FFF5
  const RESERVED := 32
  const KB := 1024
  const MB := 1048576
  const GB := 1073741824
  const TWO_32 := 0x1_0000_0000

  /** Division of Go: toward zero. */
  function Quotient(a: int, b: int): int
    requires b > 0
  {
    if a >= 0 then a / b else -(-a / b)
  }

  predicate SectorOk(sector: int) {
    sector == 512 || sector == 4096
  }

  function ClusterBytes(partSize: int): int {
    if partSize <= 260 * MB then 512
    else if partSize <= 8 * GB then 4 * KB
    else if partSize <= 16 * GB then 8 * KB
    else if partSize <= 32 * GB then 16 * KB
    else 32 * KB
  }

  function SectorsPerCluster(partSize: int, sector: int): int
    requires SectorOk(sector)
  {
    var n := ClusterBytes(partSize) / sector;
    if n > 1 then n else 1
  }

  function FatSectors(total: int, spc: int, sector: int): int
    requires SectorOk(sector) && spc > 0
  {
    var denom := sector * spc + 8;
    Quotient(4 * (total - RESERVED) + 8 * spc + denom - 1, denom)
  }

  function Clusters(total: int, spc: int, sector: int): int
    requires SectorOk(sector) && spc > 0
  {
    Quotient(total - RESERVED - 2 * FatSectors(total, spc, sector), spc)
  }

  /** checkLayout. */
  predicate LayoutOk(partSize: int, sector: int)
    requires SectorOk(sector)
  {
    var spc, total := SectorsPerCluster(partSize, sector), Quotient(partSize, sector);
    total > RESERVED && Clusters(total, spc, sector) >= MIN_CLUSTERS
  }

  /** The table has an entry for every cluster and two more, and everything fits. */
  predicate FatFits(total: int, spc: int, sector: int, fat: int, clusters: int) {
    && fat * sector >= 4 * (clusters + 2)
    && RESERVED + 2 * fat + clusters * spc <= total
  }

  /** For one cluster size, all of this is linear. */
  lemma FatFitsFor512(total: int, spc: int)
    requires spc in {1, 8, 16, 32, 64} && total > RESERVED
    requires Clusters(total, spc, 512) > 0
    ensures FatFits(total, spc, 512, FatSectors(total, spc, 512), Clusters(total, spc, 512))
  {
    var fat, clusters := FatSectors(total, spc, 512), Clusters(total, spc, 512);
    if spc == 1 {
    } else if spc == 8 {
    } else if spc == 16 {
    } else if spc == 32 {
    } else {
      assert spc == 64;
    }
  }

  lemma FatFitsFor4096(total: int, spc: int)
    requires spc in {1, 2, 4, 8} && total > RESERVED
    requires Clusters(total, spc, 4096) > 0
    ensures FatFits(total, spc, 4096, FatSectors(total, spc, 4096), Clusters(total, spc, 4096))
  {
    if spc == 1 {
    } else if spc == 2 {
    } else if spc == 4 {
    } else {
      assert spc == 8;
    }
  }

  lemma SectorsPerClusterOneOf(partSize: int, sector: int)
    requires SectorOk(sector)
    ensures var spc := SectorsPerCluster(partSize, sector);
            && (sector == 512 ==> spc in {1, 8, 16, 32, 64})
            && (sector == 4096 ==> spc in {1, 2, 4, 8})
            && (partSize <= 260 * MB ==> spc == 1)
            && (sector == 512 && partSize > 260 * MB ==> spc >= 8)
            && (sector == 512 && partSize > 8 * GB ==> spc >= 16)
            && (sector == 512 && partSize > 16 * GB ==> spc >= 32)
            && (sector == 512 && partSize > 32 * GB ==> spc == 64)
            && (sector == 4096 && partSize > 32 * GB ==> spc == 8)
  {
  }

  lemma ClustersBelow(total: int, spc: int, sector: int)
    requires SectorOk(sector) && spc > 0 && total > RESERVED
    requires Clusters(total, spc, sector) > 0
    ensures FatSectors(total, spc, sector) >= 0
    ensures Clusters(total, spc, sector) * spc <= total
  {
    assert sector * spc > 0;
    QuotientAtLeast(4 * (total - RESERVED) + 8 * spc + sector * spc + 8 - 1, sector * spc + 8);
    QuotientAtMost(total - RESERVED - 2 * FatSectors(total, spc, sector), spc);
  }

  lemma QuotientAtLeast(a: int, b: int)
    requires a >= 0 && b > 0
    ensures Quotient(a, b) >= 0
  {
  }

  lemma QuotientAtMost(a: int, b: int)
    requires b > 0 && Quotient(a, b) >= 0
    ensures Quotient(a, b) * b <= if a > 0 then a else 0
  {
  }

  /** A layout that is accepted is a FAT32 volume that fits its partition. */
  lemma AcceptedIsFat32(partSize: int, sector: int)
    requires SectorOk(sector) && partSize <= MAX_DISK_SIZE && LayoutOk(partSize, sector)
    ensures var spc, total := SectorsPerCluster(partSize, sector), Quotient(partSize, sector);
            var fat, clusters := FatSectors(total, spc, sector), Clusters(total, spc, sector);
            && fat * sector >= 4 * (clusters + 2)
            && RESERVED + 2 * fat + clusters * spc <= total
            && MIN_CLUSTERS <= clusters <= MAX_CLUSTERS
  {
    var spc, total := SectorsPerCluster(partSize, sector), Quotient(partSize, sector);
    SectorsPerClusterOneOf(partSize, sector);
    ClustersBelow(total, spc, sector);
    if sector == 512 {
      FatFitsFor512(total, spc);
    } else {
      FatFitsFor4096(total, spc);
    }
    CountBelow(partSize, sector, spc, total, Clusters(total, spc, sector));
  }

  lemma CountBelow(partSize: int, sector: int, spc: int, total: int, clusters: int)
    requires SectorOk(sector) && 0 < partSize <= MAX_DISK_SIZE && total == partSize / sector
    requires spc == SectorsPerCluster(partSize, sector) && clusters * spc <= total
    ensures clusters <= MAX_CLUSTERS
  {
    SectorsPerClusterOneOf(partSize, sector);
    hide SectorsPerCluster;
    assert total <= partSize / 512;
    if spc > 1 {
      assert spc == 2 || spc == 4 || spc == 8 || spc == 16 || spc == 32 || spc == 64;
    }
  }

  // ---- the partition entry

  function Wrap32(v: int): (r: nat)
    ensures r < TWO_32
  {
    v % TWO_32
  }

  /** 255 heads and 63 sectors per track; beyond that 1023/254/63. */
  function Chs(lba: nat): (nat, nat, nat) {
    var c, h, s := lba / (255 * 63), lba / 63 % 255, lba % 63 + 1;
    var c', h', s' := if c > 1023 then 1023 else c, if c > 1023 then 254 else h, if c > 1023 then 63 else s;
    (h', s' + c' / 256 % 4 * 64, c' % 256)
  }

  /** The sector number a CHS address on disk stands for. */
  function ChsToLba(a: (nat, nat, nat)): int {
    ((a.1 / 64 * 256 + a.2) * 255 + a.0) * 63 + a.1 % 64 - 1
  }

  lemma ChsRoundTrip(lba: nat)
    ensures var a := Chs(lba); a.0 < 256 && a.1 < 256 && a.2 < 256
    ensures lba < 1024 * 255 * 63 ==> ChsToLba(Chs(lba)) == lba
    ensures lba >= 1024 * 255 * 63 ==> Chs(lba) == (254, 255, 255)
    ensures var (head, sector, cylinder) := Chs(lba);
            && 0 <= head < 255 && 1 <= sector % 64 <= 63
            && (lba < 16450560 ==>
                  lba == ((sector / 64 * 256 + cylinder) * 255 + head) * 63 + sector % 64 - 1)
  {
    var c := lba / (255 * 63);
    assert lba / 63 == c * 255 + lba / 63 % 255;
    if c <= 1023 {
      assert c / 256 % 4 == c / 256;
    }
  }

  datatype Partition = Partition(start: nat, size: nat, first: (nat, nat, nat), last: (nat, nat, nat))

  /** Both sums are of 32-bit words, as in the source. */
  function PartitionEntry(start: nat, sectors: nat): Partition {
    Partition(start, sectors, Chs(start), Chs(Wrap32(Wrap32(start + sectors) - 1)))
  }

  /** What Format works out before it touches the disk. */
  function Plan(diskSize: int, sector: int): Option<Partition> {
    if !SectorOk(sector) || diskSize > MAX_DISK_SIZE then None
    else
      var size := Quotient(diskSize, sector) * sector;
      var partSize := size - PARTITION_START;
      if !LayoutOk(partSize, sector) then None
      else Some(PartitionEntry(Wrap32(PARTITION_START / sector), Wrap32(Quotient(partSize, sector))))
  }

  lemma LayoutIsPositive(partSize: int, sector: int)
    requires SectorOk(sector) && LayoutOk(partSize, sector)
    ensures partSize > 0
  {
    hide Clusters, SectorsPerCluster;
    assert Quotient(partSize, sector) > 0;
  }

  lemma PlanFor512(diskSize: int, partSize: int)
    requires diskSize <= MAX_DISK_SIZE && partSize == Quotient(diskSize, 512) * 512 - PARTITION_START && partSize > 0
    ensures var start, sectors := Wrap32(PARTITION_START / 512), Wrap32(Quotient(partSize, 512));
            && start * 512 == PARTITION_START
            && start + sectors == diskSize / 512 <= TWO_32
            && Wrap32(Wrap32(start + sectors) - 1) == diskSize / 512 - 1
  {
  }

  lemma PlanFor4096(diskSize: int, partSize: int)
    requires diskSize <= MAX_DISK_SIZE && partSize == Quotient(diskSize, 4096) * 4096 - PARTITION_START && partSize > 0
    ensures var start, sectors := Wrap32(PARTITION_START / 4096), Wrap32(Quotient(partSize, 4096));
            && start * 4096 == PARTITION_START
            && start + sectors == diskSize / 4096 <= TWO_32
            && Wrap32(Wrap32(start + sectors) - 1) == diskSize / 4096 - 1
  {
  }

  lemma PlanFor(diskSize: int, sector: int, partSize: int)
    requires SectorOk(sector) && diskSize <= MAX_DISK_SIZE
    requires partSize == Quotient(diskSize, sector) * sector - PARTITION_START && partSize > 0
    ensures var start, sectors := Wrap32(PARTITION_START / sector), Wrap32(Quotient(partSize, sector));
            && start * sector == PARTITION_START
            && start + sectors == diskSize / sector <= TWO_32
            && Wrap32(Wrap32(start + sectors) - 1) == diskSize / sector - 1
  {
    hide Wrap32, Quotient;
    if sector == 512 {
      PlanFor512(diskSize, partSize);
    } else {
      assert sector == 4096;
      PlanFor4096(diskSize, partSize);
    }
  }

  /** The entry covers exactly the sectors from the start to the end of the disk, even at
      2 TiB, where the sum of start and size no longer fits 32 bits. */
  lemma PlanIsExact(diskSize: int, sector: int)
    requires Plan(diskSize, sector).Some?
    ensures var p, disk := Plan(diskSize, sector).value, diskSize / sector;
            && p.start * sector == 1048576
            && p.start + p.size == disk <= 0x1_0000_0000
            && p.first == Chs(p.start) && p.last == Chs(disk - 1)
  {
    hide LayoutOk, Chs;
    var partSize := Quotient(diskSize, sector) * sector - PARTITION_START;
    LayoutIsPositive(partSize, sector);
    PlanFor(diskSize, sector, partSize);
    hide Quotient, Wrap32;
  }

  // ---- which disks are taken

  lemma PartitionSectors(diskSize: int, sector: int)
    requires SectorOk(sector) && diskSize >= 0
    ensures Quotient(Quotient(diskSize, sector) * sector - PARTITION_START, sector) ==
            diskSize / sector - PARTITION_START / sector
    ensures (Quotient(diskSize, sector) * sector - PARTITION_START) % sector == 0
  {
    if sector == 512 {
    } else {
      assert sector == 4096;
    }
  }

  /** Enough clusters, for each size of cluster. */
  lemma Enough512(total: int)
    requires total > RESERVED
    ensures Clusters(total, 1, 512) >= 65525 <==> total >= 66581
    ensures total > 532000 ==> Clusters(total, 8, 512) >= 65525
    ensures total > 16000000 ==> Clusters(total, 16, 512) >= 65525 && Clusters(total, 32, 512) >= 65525
    ensures total > 60000000 ==> Clusters(total, 64, 512) >= 65525
  {
  }

  lemma Enough4096(total: int)
    requires total > RESERVED
    ensures Clusters(total, 1, 4096) >= 65525 <==> total >= 65685
    ensures total > 2000000 ==> Clusters(total, 2, 4096) >= 65525 && Clusters(total, 4, 4096) >= 65525
    ensures total > 8000000 ==> Clusters(total, 8, 4096) >= 65525
  {
  }

  /** A disk with 512-byte sectors can be formatted exactly from 35138048 bytes to 2 TiB,
      one with 4096-byte sectors exactly from 270094336 bytes, and no other disk. */
  lemma AcceptedExactly(diskSize: int, sector: int)
    ensures Plan(diskSize, sector).Some? <==>
            diskSize <= 2199023255552 &&
            ((sector == 512 && diskSize >= 35138048) || (sector == 4096 && diskSize >= 270094336))
  {
    hide LayoutOk;
    if SectorOk(sector) && diskSize <= MAX_DISK_SIZE {
      if diskSize < 0 {
        NegativeRefused(diskSize, sector);
      } else if sector == 512 {
        Accepted512(diskSize);
      } else {
        assert sector == 4096;
        Accepted4096(diskSize);
      }
    }
  }

  lemma Accepted512(diskSize: nat)
    ensures LayoutOk(Quotient(diskSize, 512) * 512 - PARTITION_START, 512) <==> diskSize >= 35138048
  {
    PartitionSectors(diskSize, 512);
    var total := diskSize / 512 - 2048;
    if total > RESERVED {
      Enough512(total);
    }
    hide Clusters;
  }

  lemma Accepted4096(diskSize: nat)
    ensures LayoutOk(Quotient(diskSize, 4096) * 4096 - PARTITION_START, 4096) <==> diskSize >= 270094336
  {
    PartitionSectors(diskSize, 4096);
    var total := diskSize / 4096 - 256;
    if total > RESERVED {
      Enough4096(total);
    }
    hide Clusters;
  }

  lemma NegativeRefused(diskSize: int, sector: int)
    requires SectorOk(sector) && diskSize < 0
    ensures !LayoutOk(Quotient(diskSize, sector) * sector - PARTITION_START, sector)
  {
    hide Clusters, SectorsPerCluster;
    if sector == 512 {
    } else {
      assert sector == 4096;
    }
  }

  /** The clusters by size of partition, in sectors. */
  lemma ClusterSizes(partSize: int)
    ensures SectorsPerCluster(partSize, 512) ==
            if partSize <= 272629760 then 1 else if partSize <= 8589934592 then 8
            else if partSize <= 17179869184 then 16 else if partSize <= 34359738368 then 32 else 64
    ensures SectorsPerCluster(partSize, 4096) ==
            if partSize <= 8589934592 then 1 else if partSize <= 17179869184 then 2
            else if partSize <= 34359738368 then 4 else 8
  {
  }

  /** The FAT is the smallest that has four bytes for every remaining cluster, counting the
      two copies of itself among what it maps. */
  lemma FatIsLeast(total: int, spc: int, sector: int)
    requires SectorOk(sector) && spc > 0 && total > 32
    ensures var fat, need := FatSectors(total, spc, sector), 4 * (total - 32) + 8 * spc;
            (fat - 1) * (sector * spc + 8) < need <= fat * (sector * spc + 8)
  {
    assert sector * spc > 0;
    CeilingIs(4 * (total - 32) + 8 * spc, sector * spc + 8);
  }

  lemma CeilingIs(a: int, b: int)
    requires a > 0 && b > 0
    ensures ((a + b - 1) / b - 1) * b < a <= (a + b - 1) / b * b
  {
    var q := (a + b - 1) / b;
    assert q * b <= a + b - 1 < q * b + b;
    assert (q - 1) * b == q * b - b;
  }

  lemma WrapsAtTwoTiB()
    ensures Plan(MAX_DISK_SIZE, 512).Some?
    ensures var p := Plan(MAX_DISK_SIZE, 512).value; Wrap32(p.start + p.size) == 0
  {
    var partSize := MAX_DISK_SIZE - PARTITION_START;
    assert SectorsPerCluster(partSize, 512) == 64;
    var total := partSize / 512;
    assert total == 0xFFFF_F800;
    assert LayoutOk(partSize, 512);
  }
}
