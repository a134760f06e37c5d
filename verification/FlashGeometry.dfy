/** The erase sectors of a flash device: lib/drivers/include/drivers/peripheral/flash/pal_flash_dev.h, and the
    geometry checks of lib/drivers/src/peripheral/flash/hal_flash.c. */
module FlashGeometry {
  import opened RingArithmetic

  /** A run of `count` sectors of `size` bytes. */
  datatype Region = Region(offset: nat, size: nat, count: nat)

  /** `sectorSize` of 0 means the region table. */
  datatype Geometry = Geometry(capacity: nat, sectorSize: nat, regions: seq<Region>, erasedValue: nat)

  function Bytes(regions: seq<Region>): nat {
    if regions == [] then 0
    else Bytes(regions[..|regions| - 1]) + regions[|regions| - 1].size * regions[|regions| - 1].count
  }

  ghost predicate Follows(regions: seq<Region>, i: nat)
    requires i < |regions|
  {
    regions[i].size > 0 && regions[i].count > 0 && regions[i].offset == Bytes(regions[..i])
  }

  /** Regions that follow each other without a gap from 0 on. */
  ghost predicate Contiguous(regions: seq<Region>) {
    forall i: nat :: i < |regions| ==> Follows(regions, i)
  }

  /** What flash_register checks. */
  ghost predicate Valid(g: Geometry) {
    0 < g.capacity < U32 &&
    if g.sectorSize > 0 then g.capacity % g.sectorSize == 0 else Contiguous(g.regions) && Bytes(g.regions) == g.capacity
  }

  // ----- sectors one by one -----

  function Repeated(size: nat, count: nat): (s: seq<nat>)
    ensures |s| == count && forall i :: 0 <= i < count ==> s[i] == size
  {
    seq(count, _ => size)
  }

  function SectorsOf(regions: seq<Region>): seq<nat> {
    if regions == [] then []
    else SectorsOf(regions[..|regions| - 1]) + Repeated(regions[|regions| - 1].size, regions[|regions| - 1].count)
  }

  /** The sizes of all sectors of the device, in order. */
  function Sectors(g: Geometry): seq<nat> {
    if g.sectorSize > 0 then Repeated(g.sectorSize, g.capacity / g.sectorSize) else SectorsOf(g.regions)
  }

  function Sum(s: seq<nat>): nat {
    if s == [] then 0 else Sum(s[..|s| - 1]) + s[|s| - 1]
  }

  /** Sector a starts at byte x, or the last one ends there. */
  predicate StartsAt(sectors: seq<nat>, a: nat, x: nat) {
    a <= |sectors| && Sum(sectors[..a]) == x
  }

  ghost predicate Boundary(g: Geometry, x: nat) {
    exists a: nat :: StartsAt(Sectors(g), a, x)
  }

  // ----- sums -----

  lemma SumNext(s: seq<nat>, a: nat)
    requires a < |s|
    ensures Sum(s[..a + 1]) == Sum(s[..a]) + s[a]
  {
    assert s[..a + 1][..a] == s[..a];
  }

  lemma {:induction false} SumAppend(s: seq<nat>, t: seq<nat>)
    ensures Sum(s + t) == Sum(s) + Sum(t)
  {
    if t == [] {
      assert s + t == s;
    } else {
      SumAppend(s, t[..|t| - 1]);
      assert (s + t)[..|s + t| - 1] == s + t[..|t| - 1];
    }
  }

  lemma {:induction false} SumRepeated(size: nat, count: nat)
    ensures Sum(Repeated(size, count)) == count * size
  {
    if count > 0 {
      SumRepeated(size, count - 1);
      assert Repeated(size, count)[..count - 1] == Repeated(size, count - 1);
      assert count * size == (count - 1) * size + size;
    }
  }

  ghost predicate AllPositive(s: seq<nat>) {
    forall i :: 0 <= i < |s| ==> s[i] > 0
  }

  /** Later sectors start later. */
  lemma {:induction false} StartsGrow(s: seq<nat>, a: nat, b: nat)
    requires AllPositive(s) && a < b <= |s|
    ensures Sum(s[..a]) < Sum(s[..b])
  {
    SumNext(s, b - 1);
    if a < b - 1 {
      StartsGrow(s, a, b - 1);
    }
  }

  // ----- sectors of a region -----

  lemma {:induction false} PositiveSectors(regions: seq<Region>)
    requires forall i :: 0 <= i < |regions| ==> regions[i].size > 0
    ensures AllPositive(SectorsOf(regions))
  {
    if regions != [] {
      PositiveSectors(regions[..|regions| - 1]);
    }
  }

  lemma SectorsPositive(g: Geometry)
    requires Valid(g)
    ensures AllPositive(Sectors(g))
  {
    if g.sectorSize == 0 {
      forall j | 0 <= j < |g.regions| ensures g.regions[j].size > 0 { assert Follows(g.regions, j); }
      PositiveSectors(g.regions);
    }
  }

  lemma {:induction false} SectorsSplit(regions: seq<Region>, i: nat)
    requires i < |regions|
    ensures |SectorsOf(regions[..i])| + regions[i].count <= |SectorsOf(regions)|
    ensures SectorsOf(regions[..i]) + Repeated(regions[i].size, regions[i].count) ==
            SectorsOf(regions)[..|SectorsOf(regions[..i])| + regions[i].count]
  {
    var front := regions[..|regions| - 1];
    if i < |front| {
      SectorsSplit(front, i);
      assert front[..i] == regions[..i];
      assert SectorsOf(regions) == SectorsOf(front) + Repeated(regions[|front|].size, regions[|front|].count);
    } else {
      assert regions[..i] == front;
    }
  }

  lemma {:induction false} SumSectors(regions: seq<Region>)
    ensures Sum(SectorsOf(regions)) == Bytes(regions)
  {
    if regions != [] {
      var r := regions[|regions| - 1];
      SumSectors(regions[..|regions| - 1]);
      SumAppend(SectorsOf(regions[..|regions| - 1]), Repeated(r.size, r.count));
      SumRepeated(r.size, r.count);
    }
  }

  /** Sector k of region i, and the end of the region for k == count. */
  lemma InsideRegion(regions: seq<Region>, i: nat, k: nat)
    requires i < |regions| && k <= regions[i].count
    ensures var a := |SectorsOf(regions[..i])| + k;
            StartsAt(SectorsOf(regions), a, Bytes(regions[..i]) + k * regions[i].size) &&
            (k < regions[i].count ==> a < |SectorsOf(regions)| && SectorsOf(regions)[a] == regions[i].size)
  {
    var before, r := SectorsOf(regions[..i]), regions[i];
    var all := SectorsOf(regions);
    SectorsSplit(regions, i);
    var upTo := before + Repeated(r.size, r.count);
    assert all[..|before| + k] == upTo[..|before| + k] == before + Repeated(r.size, k);
    SumSectors(regions[..i]);
    SumAppend(before, Repeated(r.size, k));
    SumRepeated(r.size, k);
    assert k < r.count ==> all[|before| + k] == upTo[|before| + k];
  }

  lemma Quotient(x: nat, size: nat)
    requires size > 0
    ensures x == (x / size) * size + x % size && x % size < size
    ensures x % size == 0 ==> x == (x / size) * size
  {
  }

  /** x is no multiple of the size, so it lies strictly inside a sector. */
  lemma BetweenStarts(s: seq<nat>, a: nat, x: nat)
    requires AllPositive(s) && a < |s| && Sum(s[..a]) < x < Sum(s[..a + 1])
    ensures forall b: nat :: !StartsAt(s, b, x)
  {
    forall b: nat ensures !StartsAt(s, b, x) {
      if StartsAt(s, b, x) {
        if b < a { StartsGrow(s, b, a); }
        if b > a + 1 { StartsGrow(s, a + 1, b); }
      }
    }
  }

  lemma QuotientBelow(x: nat, size: nat, count: nat)
    requires size > 0 && x < size * count
    ensures x / size < count
  {
    Quotient(x, size);
    if x / size >= count { MulMono(count, x / size, size); }
  }

  /** The sector a byte of a region lies in: it starts there exactly when the offset in the region is a multiple of
      the sector size. */
  lemma RegionSector(regions: seq<Region>, i: nat, x: nat) returns (a: nat)
    requires Contiguous(regions) && i < |regions|
    requires Bytes(regions[..i]) <= x < Bytes(regions[..i]) + regions[i].size * regions[i].count
    ensures var s, d := SectorsOf(regions), (x - Bytes(regions[..i])) % regions[i].size;
            a < |s| && s[a] == regions[i].size && d <= x && StartsAt(s, a, x - d) &&
            (d == 0 <==> exists b: nat :: StartsAt(s, b, x))
  {
    var r, rel := regions[i], x - Bytes(regions[..i]);
    assert Follows(regions, i);
    var k := rel / r.size;
    Quotient(rel, r.size);
    QuotientBelow(rel, r.size, r.count);
    InsideRegion(regions, i, k);
    a := |SectorsOf(regions[..i])| + k;
    forall j | 0 <= j < |regions| ensures regions[j].size > 0 { assert Follows(regions, j); }
    PositiveSectors(regions);
    SumNext(SectorsOf(regions), a);
    if rel % r.size != 0 {
      BetweenStarts(SectorsOf(regions), a, x);
    }
  }

  lemma {:induction false} BytesPrefix(regions: seq<Region>, i: nat)
    requires i < |regions|
    ensures Bytes(regions[..i + 1]) == Bytes(regions[..i]) + regions[i].size * regions[i].count
    ensures Bytes(regions[..i + 1]) <= Bytes(regions)
    decreases |regions| - i
  {
    assert regions[..i + 1][..i] == regions[..i];
    if i + 1 < |regions| {
      BytesPrefix(regions, i + 1);
    } else {
      assert regions[..i + 1] == regions;
    }
  }

  // ----- uniform sectors -----

  /** The same for a uniform device. */
  lemma UniformSector(g: Geometry, x: nat) returns (a: nat)
    requires Valid(g) && g.sectorSize > 0 && x < g.capacity
    ensures var s, d := Sectors(g), x % g.sectorSize;
            a < |s| && s[a] == g.sectorSize && d <= x && StartsAt(s, a, x - d) && (d == 0 <==> Boundary(g, x))
  {
    var n := g.capacity / g.sectorSize;
    Quotient(g.capacity, g.sectorSize);
    var regions := [Region(0, g.sectorSize, n)];
    assert regions[..0] == [];
    assert SectorsOf(regions) == [] + Repeated(g.sectorSize, n) == Sectors(g);
    assert n > 0;
    assert Contiguous(regions);
    a := RegionSector(regions, 0, x);
  }

  lemma SumAll(g: Geometry)
    requires Valid(g)
    ensures StartsAt(Sectors(g), |Sectors(g)|, g.capacity) && Boundary(g, g.capacity)
  {
    var s := Sectors(g);
    assert s[..|s|] == s;
    if g.sectorSize > 0 {
      Quotient(g.capacity, g.sectorSize);
      SumRepeated(g.sectorSize, g.capacity / g.sectorSize);
    } else {
      SumSectors(g.regions);
    }
    assert StartsAt(s, |s|, g.capacity);
  }

  // ----- hal_flash.c -----

  /** The check of the region table in flash_register: a contiguous cover of the capacity.  `table` may go on
      behind the cover. */
  method ValidateRegions(capacity: nat, table: seq<Region>) returns (ok: bool, used: nat)
    requires 0 < capacity < U32 && (Contiguous(table) ==> Bytes(table) >= capacity)
    ensures ok ==> used <= |table| && Contiguous(table[..used]) && Bytes(table[..used]) == capacity
    ensures !ok ==> forall n: nat :: n <= |table| ==> !(Contiguous(table[..n]) && Bytes(table[..n]) == capacity)
  {
    ok, used := false, 0;
    var covered := 0;
    while covered != capacity
      invariant used <= |table| && Contiguous(table[..used]) && covered == Bytes(table[..used]) <= capacity
      decreases |table| - used
    {
      assert table[..|table|] == table;
      var r := table[used];
      BytesPrefix(table, used);
      if r.size == 0 || r.count == 0 || r.offset != covered || r.size * r.count > capacity - covered {
        NoCover(capacity, table, used);
        return;
      }
      covered := covered + r.size * r.count;
      ContiguousNext(table, used);
      used := used + 1;
    }
    ok := true;
  }

  lemma ContiguousNext(table: seq<Region>, n: nat)
    requires n < |table| && Contiguous(table[..n]) && table[n].size > 0 && table[n].count > 0
    requires table[n].offset == Bytes(table[..n])
    ensures Contiguous(table[..n + 1])
  {
    var less, more := table[..n], table[..n + 1];
    forall i: nat | i < |more| ensures Follows(more, i) {
      assert more[..i] == table[..i];
      if i < n { assert less[..i] == table[..i] && Follows(less, i); }
    }
  }

  lemma {:induction false} BytesGrow(table: seq<Region>, m: nat, n: nat)
    requires m <= n <= |table|
    ensures Bytes(table[..m]) <= Bytes(table[..n])
  {
    if m < n {
      BytesGrow(table, m, n - 1);
      assert table[..n][..n - 1] == table[..n - 1];
    }
  }

  lemma NoCover(capacity: nat, table: seq<Region>, used: nat)
    requires used < |table| && Bytes(table[..used]) < capacity
    requires var r := table[used];
             r.size == 0 || r.count == 0 || r.offset != Bytes(table[..used]) ||
               r.size * r.count > capacity - Bytes(table[..used])
    ensures forall n: nat :: n <= |table| ==> !(Contiguous(table[..n]) && Bytes(table[..n]) == capacity)
  {
    forall n: nat | n <= |table| ensures !(Contiguous(table[..n]) && Bytes(table[..n]) == capacity) {
      if n <= used {
        BytesGrow(table, n, used);
      } else {
        assert table[..n][..used] == table[..used];
        assert Contiguous(table[..n]) ==> Follows(table[..n], used);
        BytesGrow(table, used + 1, n);
        BytesPrefix(table, used);
      }
    }
  }

  /** Sector a, of this start and size, holds the byte x. */
  ghost predicate Holds(g: Geometry, a: nat, x: nat, start: nat, size: nat) {
    a < |Sectors(g)| && StartsAt(Sectors(g), a, start) && Sectors(g)[a] == size && start <= x < start + size &&
    (start == x <==> Boundary(g, x))
  }

  lemma RegionHolds(g: Geometry, i: nat, x: nat, r: Region) returns (a: nat, start: nat)
    requires Valid(g) && g.sectorSize == 0 && i < |g.regions| && r == g.regions[i]
    requires Bytes(g.regions[..i]) <= x < Bytes(g.regions[..i]) + r.size * r.count
    ensures r.size > 0 && Bytes(g.regions[..i]) == r.offset && start == x - (x - r.offset) % r.size
    ensures Holds(g, a, x, start, r.size)
  {
    assert Follows(g.regions, i) && Sectors(g) == SectorsOf(g.regions);
    a := RegionSector(g.regions, i, x);
    Quotient(x - r.offset, r.size);
    start := x - (x - r.offset) % r.size;
  }

  /** The loop of flash_geom_sector_at over the region table. */
  method RegionSectorAt(g: Geometry, addr: nat) returns (start: nat, size: nat, ghost a: nat)
    requires Valid(g) && g.sectorSize == 0 && addr < g.capacity
    ensures Holds(g, a, addr, start, size)
    ensures start <= addr < start + size && (start == addr <==> Boundary(g, addr))
  {
    var i := 0;
    while true
      invariant i < |g.regions| && Bytes(g.regions[..i]) <= addr
      decreases |g.regions| - i
    {
      var r := g.regions[i];
      BytesPrefix(g.regions, i);
      assert Follows(g.regions, i);
      if r.offset <= addr < r.offset + r.size * r.count {
        ghost var begins;
        a, begins := RegionHolds(g, i, addr, r);
        Quotient(addr - r.offset, r.size);
        start, size := r.offset + ((addr - r.offset) / r.size) * r.size, r.size;
        return;
      }
      assert g.regions[..|g.regions|] == g.regions;
      i := i + 1;
    }
  }

  /** flash_geom_sector_at: the sector the address lies in. */
  method SectorAt(g: Geometry, addr: nat) returns (found: bool, start: nat, size: nat, ghost a: nat)
    requires Valid(g)
    ensures found <==> addr < g.capacity
    ensures found ==> start <= addr < start + size && (start == addr <==> Boundary(g, addr))
    ensures found ==> Holds(g, a, addr, start, size)
  {
    found, start, size, a := addr < g.capacity, 0, 0, 0;
    if !found {
      return;
    }
    if g.sectorSize > 0 {
      a := UniformSector(g, addr);
      Quotient(addr, g.sectorSize);
      start, size := (addr / g.sectorSize) * g.sectorSize, g.sectorSize;
    } else {
      start, size, a := RegionSectorAt(g, addr);
    }
  }

  /** flash_geom_is_sector_boundary */
  method IsSectorBoundary(g: Geometry, off: nat) returns (yes: bool)
    requires Valid(g)
    ensures yes <==> off <= g.capacity && Boundary(g, off)
  {
    if off >= g.capacity {
      SumAll(g);
      return off == g.capacity;
    }
    var found, start, _, _ := SectorAt(g, off);
    return found && off == start;
  }
}
