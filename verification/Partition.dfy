/** lib/drivers/src/storage/partition.c: when a partition window falls on erase sectors, and the walk over its
    erase units. */
module Partition {
  import opened RingArithmetic
  import opened FlashGeometry

  const IS_ERASED_CHUNK := 64  // PARTITION_IS_ERASED_CHUNK

  // ----- boundaries in terms of regions -----

  lemma ModAdd(a: nat, b: nat, s: nat)
    requires 0 < s && a % s == 0
    ensures (a + b) % s == b % s
  {
    Quotient(a, s);
    Quotient(b, s);
    assert (a / s + b / s) * s == (a / s) * s + (b / s) * s;
    ModUnique(s, a / s + b / s, b % s);
  }

  lemma ModMultiple(k: nat, s: nat)
    requires 0 < s
    ensures (s * k) % s == 0
  {
    ModUnique(s, k, 0);
  }

  /** Inside a region, and at its end, a boundary is a multiple of the sector size. */
  lemma RegionBoundary(g: Geometry, i: nat, x: nat)
    requires Valid(g) && g.sectorSize == 0 && i < |g.regions|
    requires Bytes(g.regions[..i]) <= x <= Bytes(g.regions[..i + 1])
    ensures g.regions[i].size > 0 && (Boundary(g, x) <==> (x - Bytes(g.regions[..i])) % g.regions[i].size == 0)
  {
    assert Follows(g.regions, i) && Sectors(g) == SectorsOf(g.regions);
    BytesPrefix(g.regions, i);
    if x < Bytes(g.regions[..i + 1]) {
      var a := RegionSector(g.regions, i, x);
    } else {
      RegionEnds(g, i);
    }
  }

  lemma RegionEnds(g: Geometry, i: nat)
    requires Valid(g) && g.sectorSize == 0 && i < |g.regions|
    ensures g.regions[i].size > 0 && Boundary(g, Bytes(g.regions[..i + 1]))
    ensures (Bytes(g.regions[..i + 1]) - Bytes(g.regions[..i])) % g.regions[i].size == 0
  {
    assert Follows(g.regions, i);
    var r := g.regions[i];
    BytesPrefix(g.regions, i);
    ModMultiple(r.count, r.size);
    InsideRegion(g.regions, i, r.count);
    assert StartsAt(Sectors(g), |SectorsOf(g.regions[..i])| + r.count, Bytes(g.regions[..i + 1]));
  }

  lemma UniformBoundary(g: Geometry, x: nat)
    requires Valid(g) && g.sectorSize > 0 && x <= g.capacity
    ensures Boundary(g, x) <==> x % g.sectorSize == 0
  {
    if x < g.capacity {
      var a := UniformSector(g, x);
    } else {
      SumAll(g);
    }
  }

  // ----- is_partition_sector_aligned -----

  /** One step of the region loop, for a window part that begins in the region at `cur`. */
  lemma AlignStep(g: Geometry, i: nat, cur: nat, take: nat)
    requires Valid(g) && g.sectorSize == 0 && i < |g.regions| && Boundary(g, cur)
    requires Bytes(g.regions[..i]) <= cur && cur + take <= Bytes(g.regions[..i + 1])
    ensures g.regions[i].size > 0 && (take % g.regions[i].size == 0 <==> Boundary(g, cur + take))
    ensures cur + take == Bytes(g.regions[..i + 1]) ==> Boundary(g, cur + take)
  {
    var r, start := g.regions[i], Bytes(g.regions[..i]);
    RegionBoundary(g, i, cur);
    RegionBoundary(g, i, cur + take);
    RegionEnds(g, i);
    ModAdd(cur - start, take, r.size);
    assert cur + take - start == (cur - start) + take;
  }

  /** What the region loop knows before region i, with the window consumed up to cur. */
  ghost predicate Consumed(g: Geometry, off: nat, end: nat, i: nat, cur: nat) {
    off <= cur <= end && (cur < end ==> i < |g.regions| && Bytes(g.regions[..i]) <= cur) &&
    (cur == off || (Boundary(g, off) && Boundary(g, cur) && (cur < end ==> cur == Bytes(g.regions[..i]))))
  }

  lemma ConsumedNext(g: Geometry, off: nat, end: nat, i: nat, cur: nat)
    requires Valid(g) && g.sectorSize == 0 && end <= g.capacity && Consumed(g, off, end, i, cur) && cur < end
    ensures Follows(g.regions, i) &&
            Bytes(g.regions[..i + 1]) == g.regions[i].offset + g.regions[i].size * g.regions[i].count
    ensures cur >= Bytes(g.regions[..i + 1]) ==> Consumed(g, off, end, i + 1, cur)
    ensures cur < Bytes(g.regions[..i + 1]) ==>
              ((cur - g.regions[i].offset) % g.regions[i].size == 0 <==> Boundary(g, cur))
    ensures cur < Bytes(g.regions[..i + 1]) && !Boundary(g, cur) ==> cur == off
  {
    assert Follows(g.regions, i);
    BytesPrefix(g.regions, i);
    assert g.regions[..|g.regions|] == g.regions;
    if cur < Bytes(g.regions[..i + 1]) { RegionBoundary(g, i, cur); }
  }

  /** Taking up to the end of the window or of the region. */
  lemma ConsumedTake(g: Geometry, off: nat, end: nat, i: nat, cur: nat, take: nat)
    requires Valid(g) && g.sectorSize == 0 && end <= g.capacity && Consumed(g, off, end, i, cur) && Boundary(g, cur)
    requires cur < end && cur < Bytes(g.regions[..i + 1])
    requires take == if end < Bytes(g.regions[..i + 1]) then end - cur else Bytes(g.regions[..i + 1]) - cur
    ensures g.regions[i].size > 0 && (take % g.regions[i].size == 0 ==> Consumed(g, off, end, i + 1, cur + take))
    ensures take % g.regions[i].size != 0 ==> !Boundary(g, end)
  {
    AlignStep(g, i, cur, take);
    assert g.regions[..|g.regions|] == g.regions;
  }

  /** The region loop of is_partition_sector_aligned.  It has no bound of its own: that it stays in the table follows
      from the window lying in the capacity. */
  method AlignedInRegions(g: Geometry, off: nat, size: nat) returns (yes: bool)
    requires Valid(g) && g.sectorSize == 0 && off + size <= g.capacity
    ensures yes <==> size == 0 || (Boundary(g, off) && Boundary(g, off + size))
  {
    var remaining: nat, cur: nat, i: nat := size, off, 0;
    while remaining > 0
      invariant cur + remaining == off + size && Consumed(g, off, off + size, i, cur)
      decreases |g.regions| - i
    {
      ConsumedNext(g, off, off + size, i, cur);
      var r := g.regions[i];
      var rStart, rLen := r.offset, r.size * r.count;
      if cur >= rStart + rLen {
        i := i + 1;
        continue;
      }
      if cur < rStart || (cur - rStart) % r.size != 0 {
        return false;
      }
      var avail := rStart + rLen - cur;
      var take := if remaining < avail then remaining else avail;
      ConsumedTake(g, off, off + size, i, cur, take);
      if take % r.size != 0 {
        return false;
      }
      remaining := remaining - take;
      cur := cur + take;
      i := i + 1;
    }
    return true;
  }

  /** is_partition_sector_aligned: both ends of the window are sector boundaries.  An empty window is let through
      wherever it lies in a region table. */
  method IsSectorAligned(g: Geometry, off: nat, size: nat) returns (yes: bool)
    requires Valid(g) && off + size <= g.capacity
    ensures yes <==> (size == 0 && g.sectorSize == 0) || (Boundary(g, off) && Boundary(g, off + size))
  {
    if g.sectorSize > 0 {
      UniformBoundary(g, off);
      UniformBoundary(g, off + size);
      if off % g.sectorSize == 0 { ModAdd(off, size, g.sectorSize); }
      return off % g.sectorSize == 0 && size % g.sectorSize == 0;
    }
    yes := AlignedInRegions(g, off, size);
  }

  /** partition_geom_check, which every open goes through, for a registered device. */
  method GeomCheck(g: Geometry, off: nat, size: nat) returns (ok: bool)
    requires Valid(g)
    ensures ok <==> off < g.capacity && off + size <= g.capacity &&
                    ((size == 0 && g.sectorSize == 0) || (Boundary(g, off) && Boundary(g, off + size)))
  {
    if off >= g.capacity || size > g.capacity - off {
      return false;
    }
    ok := IsSectorAligned(g, off, size);
  }

  // ----- flash_erase_unit_size_at -----

  /** The size of the first sector from the a-th on that starts at x; 0 when none does. */
  function SizeFrom(sectors: seq<nat>, a: nat, x: nat): nat
    decreases |sectors| - a
  {
    if a >= |sectors| then 0
    else if Sum(sectors[..a]) == x then sectors[a]
    else SizeFrom(sectors, a + 1, x)
  }

  /** The size of the sector that starts at cur; 0 when none does. */
  function UnitSize(g: Geometry, cur: nat): nat {
    SizeFrom(Sectors(g), 0, cur)
  }

  lemma {:induction false} SizeFound(s: seq<nat>, from: nat, a: nat, x: nat)
    requires AllPositive(s) && from <= a < |s| && StartsAt(s, a, x)
    ensures SizeFrom(s, from, x) == s[a]
    decreases a - from
  {
    if from < a {
      StartsGrow(s, from, a);
      SizeFound(s, from + 1, a, x);
    }
  }

  lemma {:induction false} SizeStarts(s: seq<nat>, from: nat, x: nat)
    ensures SizeFrom(s, from, x) > 0 ==> exists a: nat :: a < |s| && StartsAt(s, a, x)
    decreases |s| - from
  {
    if from < |s| && Sum(s[..from]) != x {
      SizeStarts(s, from + 1, x);
    } else if from < |s| {
      assert StartsAt(s, from, x);
    }
  }

  lemma UnitSizeIs(g: Geometry, a: nat, cur: nat)
    requires Valid(g) && a < |Sectors(g)| && StartsAt(Sectors(g), a, cur)
    ensures UnitSize(g, cur) == Sectors(g)[a] > 0
  {
    SectorsPositive(g);
    SizeFound(Sectors(g), 0, a, cur);
  }

  /** A boundary inside the device is where a sector starts. */
  lemma NoUnit(g: Geometry, cur: nat)
    requires !Boundary(g, cur)
    ensures UnitSize(g, cur) == 0
  {
    SizeStarts(Sectors(g), 0, cur);
  }

  /** flash_erase_unit_size_at */
  method UnitSizeAt(g: Geometry, cur: nat) returns (size: nat)
    requires Valid(g) && cur < g.capacity
    ensures size == UnitSize(g, cur)
  {
    if g.sectorSize > 0 {
      var a := UniformSector(g, cur);
      if cur % g.sectorSize == 0 { UnitSizeIs(g, a, cur); } else { NoUnit(g, cur); }
      return if cur % g.sectorSize == 0 then g.sectorSize else 0;
    }
    var i, rStart := 0, 0;
    while true
      invariant i < |g.regions| && rStart == Bytes(g.regions[..i]) <= cur
      decreases |g.regions| - i
    {
      var r := g.regions[i];
      BytesPrefix(g.regions, i);
      assert Follows(g.regions, i);
      var rLen := r.size * r.count;
      if cur < rStart + rLen {
        var a := RegionSector(g.regions, i, cur);
        if (cur - rStart) % r.size == 0 { UnitSizeIs(g, a, cur); } else { NoUnit(g, cur); }
        return if (cur - rStart) % r.size == 0 then r.size else 0;
      }
      assert g.regions[..|g.regions|] == g.regions;
      rStart := rStart + rLen;
      i := i + 1;
    }
  }

  // ----- the walk over a window -----

  /** The erase units from cur on that fit below end. */
  function Walk(g: Geometry, cur: nat, end: nat): seq<nat>
    decreases end - cur
  {
    if cur >= end then []
    else
      var unit := UnitSize(g, cur);
      if unit == 0 || unit > end - cur then [] else [unit] + Walk(g, cur + unit, end)
  }

  /** Between two boundaries the walk meets exactly the sectors in between: no gap and no overlap. */
  lemma {:induction false} WalkIsSectors(g: Geometry, a: nat, b: nat)
    requires Valid(g) && a <= b <= |Sectors(g)|
    ensures Walk(g, Sum(Sectors(g)[..a]), Sum(Sectors(g)[..b])) == Sectors(g)[a..b]
    decreases b - a
  {
    var s := Sectors(g);
    if a < b {
      SectorsPositive(g);
      StartsGrow(s, a, b);
      var cur, end := Sum(s[..a]), Sum(s[..b]);
      UnitSizeIs(g, a, cur);
      SumNext(s, a);
      if a + 1 < b { StartsGrow(s, a + 1, b); }
      WalkIsSectors(g, a + 1, b);
      assert Walk(g, cur, end) == [s[a]] + Walk(g, cur + s[a], end);
      assert s[a..b] == [s[a]] + s[a + 1..b];
    }
  }

  lemma SumSlice(s: seq<nat>, a: nat, b: nat)
    requires a <= b <= |s|
    ensures Sum(s[..b]) == Sum(s[..a]) + Sum(s[a..b])
  {
    SumAppend(s[..a], s[a..b]);
    assert s[..a] + s[a..b] == s[..b];
  }

  lemma SumCons(x: nat, s: seq<nat>)
    ensures Sum([x] + s) == x + Sum(s)
  {
    SumAppend([x], s);
    assert [x][..0] == [];
  }

  lemma {:induction false} WalkWithin(g: Geometry, cur: nat, end: nat)
    requires Valid(g) && cur <= end <= g.capacity
    ensures Sum(Walk(g, cur, end)) <= end - cur && AllPositive(Walk(g, cur, end))
    ensures cur < end && Sum(Walk(g, cur, end)) == end - cur ==> Boundary(g, cur) && Boundary(g, end)
    decreases end - cur
  {
    if cur < end {
      var unit := UnitSize(g, cur);
      if 0 < unit <= end - cur {
        var rest := Walk(g, cur + unit, end);
        WalkWithin(g, cur + unit, end);
        SumCons(unit, rest);
        UnitEnds(g, cur);
        assert Walk(g, cur, end) == [unit] + rest && AllPositive([unit] + rest);
        if cur + unit == end { assert rest == []; }
      }
    }
  }

  /** A sector starts and ends at boundaries. */
  lemma UnitEnds(g: Geometry, cur: nat)
    requires Valid(g) && UnitSize(g, cur) > 0
    ensures Boundary(g, cur) && Boundary(g, cur + UnitSize(g, cur))
  {
    SizeStarts(Sectors(g), 0, cur);
    var a: nat :| a < |Sectors(g)| && StartsAt(Sectors(g), a, cur);
    UnitSizeIs(g, a, cur);
    SumNext(Sectors(g), a);
    assert StartsAt(Sectors(g), a + 1, cur + UnitSize(g, cur));
  }

  lemma BoundaryIndices(g: Geometry, off: nat, end: nat) returns (a: nat, b: nat)
    requires Valid(g) && off <= end && Boundary(g, off) && Boundary(g, end)
    ensures a <= b <= |Sectors(g)| && StartsAt(Sectors(g), a, off) && StartsAt(Sectors(g), b, end)
  {
    a :| StartsAt(Sectors(g), a, off);
    b :| StartsAt(Sectors(g), b, end);
    SectorsPositive(g);
    if b < a { StartsGrow(Sectors(g), b, a); }
  }

  /** The erase units tile the window, leaving nothing over, exactly when both its ends are sector boundaries; and
      then they are the device's sectors from the one to the other. */
  lemma TiledExactlyWhenAligned(g: Geometry, off: nat, size: nat)
    requires Valid(g) && 0 < size && off + size <= g.capacity
    ensures Sum(Walk(g, off, off + size)) == size <==> Boundary(g, off) && Boundary(g, off + size)
    ensures Boundary(g, off) && Boundary(g, off + size) ==>
              exists a: nat, b: nat :: a <= b && StartsAt(Sectors(g), a, off) && StartsAt(Sectors(g), b, off + size) &&
                                       Walk(g, off, off + size) == Sectors(g)[a..b]
  {
    WalkWithin(g, off, off + size);
    if Boundary(g, off) && Boundary(g, off + size) {
      var a, b := BoundaryIndices(g, off, off + size);
      WalkIsSectors(g, a, b);
      SumSlice(Sectors(g), a, b);
    }
  }

  // ----- the queries -----

  /** `cur` is where unit k of the walk starts, and the rest of the walk follows. */
  ghost predicate Reached(g: Geometry, units: seq<nat>, off: nat, end: nat, cur: nat, k: nat) {
    k <= |units| && off <= cur <= end && cur == off + Sum(units[..k]) && Walk(g, cur, end) == units[k..]
  }

  lemma ReachedStart(g: Geometry, off: nat, end: nat)
    requires off <= end
    ensures Reached(g, Walk(g, off, end), off, end, off, 0)
  {
    assert Walk(g, off, end)[..0] == [];
  }

  lemma SliceNext(units: seq<nat>, k: nat, unit: nat, rest: seq<nat>)
    requires k <= |units| && units[k..] == [unit] + rest
    ensures k < |units| && units[k] == unit && units[k + 1..] == rest && Sum(units[..k + 1]) == Sum(units[..k]) + unit
  {
    assert units[k..][0] == unit && units[k + 1..] == units[k..][1..];
    SumNext(units, k);
  }

  /** A unit that fits is the next of the walk. */
  lemma ReachedNext(g: Geometry, units: seq<nat>, off: nat, end: nat, cur: nat, k: nat)
    requires Reached(g, units, off, end, cur, k) && cur < end && 0 < UnitSize(g, cur) <= end - cur
    ensures k < |units| && units[k] == UnitSize(g, cur) && Reached(g, units, off, end, cur + UnitSize(g, cur), k + 1)
  {
    SliceNext(units, k, UnitSize(g, cur), Walk(g, cur + UnitSize(g, cur), end));
  }

  /** Where no unit fits the walk ends. */
  lemma ReachedStop(g: Geometry, units: seq<nat>, off: nat, end: nat, cur: nat, k: nat)
    requires Reached(g, units, off, end, cur, k) && cur < end && !(0 < UnitSize(g, cur) <= end - cur)
    ensures k == |units| && Sum(units) < end - off
  {
    assert units[k..] == [];
    assert units[..k] == units;
  }

  lemma ReachedEnd(g: Geometry, units: seq<nat>, off: nat, end: nat, k: nat)
    requires Reached(g, units, off, end, end, k)
    ensures k == |units| && Sum(units) == end - off
  {
    assert units[..k] == units;
  }

  datatype EraseUnit = EraseUnit(offset: nat, size: nat)

  /** u is unit k of the window: its size, and where it starts in the window. */
  ghost predicate IsUnit(units: seq<nat>, k: nat, u: EraseUnit) {
    k < |units| && u == EraseUnit(Sum(units[..k]), units[k])
  }

  datatype Outcome = Found(unit: EraseUnit) | NotFound | OutOfRange | Invalid

  /** flash_erase_unit_size_at at the place the walk has reached: the next unit, if it fits. */
  method NextUnit(g: Geometry, ghost units: seq<nat>, ghost off: nat, end: nat, cur: nat, ghost k: nat)
    returns (unit: nat)
    requires Valid(g) && end <= g.capacity && cur < end && Reached(g, units, off, end, cur, k)
    ensures if 0 < unit <= end - cur then
              k < |units| && units[k] == unit && Reached(g, units, off, end, cur + unit, k + 1)
            else k == |units| && Sum(units) < end - off
  {
    unit := UnitSizeAt(g, cur);
    if 0 < unit <= end - cur {
      ReachedNext(g, units, off, end, cur, k);
    } else {
      ReachedStop(g, units, off, end, cur, k);
    }
  }

  /** om_partition_erase_unit_count */
  method EraseUnitCount(g: Geometry, off: nat, size: nat) returns (n: nat)
    requires Valid(g) && off + size <= g.capacity
    ensures n == |Walk(g, off, off + size)|
  {
    var cur, end := off, off + size;
    n := 0;
    ghost var units := Walk(g, off, end);
    ReachedStart(g, off, end);
    while cur < end
      invariant Reached(g, units, off, end, cur, n)
    {
      var unit := NextUnit(g, units, off, end, cur, n);
      if unit == 0 || unit > end - cur {
        return;
      }
      cur := cur + unit;
      n := n + 1;
    }
    ReachedEnd(g, units, off, end, n);
  }

  /** partition_erase_unit_probe and om_partition_erase_unit_at: unit `index` and where it starts. */
  method EraseUnitAt(g: Geometry, off: nat, size: nat, index: nat) returns (r: Outcome)
    requires Valid(g) && off + size <= g.capacity
    ensures var units := Walk(g, off, off + size);
            r == if index < |units| then Found(EraseUnit(Sum(units[..index]), units[index])) else NotFound
  {
    var cur, end, i := off, off + size, 0;
    ghost var units := Walk(g, off, end);
    ReachedStart(g, off, end);
    while cur < end
      invariant Reached(g, units, off, end, cur, i) && i <= index
    {
      var unit := NextUnit(g, units, off, end, cur, i);
      if unit == 0 || unit > end - cur {
        return NotFound;
      }
      if i == index {
        return Found(EraseUnit(cur - off, unit));
      }
      cur := cur + unit;
      i := i + 1;
    }
    ReachedEnd(g, units, off, end, i);
    return NotFound;
  }

  lemma {:induction false} PrefixSum(s: seq<nat>, k: nat)
    requires k <= |s|
    ensures Sum(s[..k]) <= Sum(s)
    decreases |s| - k
  {
    if k < |s| {
      SumNext(s, k);
      PrefixSum(s, k + 1);
    } else {
      assert s[..k] == s;
    }
  }

  /** om_partition_erase_unit_covering: the unit that holds byte `at` of the window. */
  method EraseUnitCovering(g: Geometry, off: nat, size: nat, at: nat) returns (r: Outcome, ghost k: nat)
    requires Valid(g) && off + size <= g.capacity
    ensures r.OutOfRange? <==> at >= size
    ensures r.Found? <==> at < Sum(Walk(g, off, off + size))
    ensures r.Invalid? <==> Sum(Walk(g, off, off + size)) <= at < size
    ensures r.Found? ==>
              IsUnit(Walk(g, off, off + size), k, r.unit) && r.unit.offset <= at < r.unit.offset + r.unit.size
  {
    k := 0;
    WalkWithin(g, off, off + size);
    if at >= size {
      return OutOfRange, 0;
    }
    var cur, end := off, off + size;
    ghost var units := Walk(g, off, end);
    ReachedStart(g, off, end);
    while cur < end
      invariant Reached(g, units, off, end, cur, k) && cur - off <= at
    {
      var unit := NextUnit(g, units, off, end, cur, k);
      if unit == 0 || unit > end - cur {
        assert units[..k] == units;
        return Invalid, 0;
      }
      var rel := cur - off;
      if rel <= at < rel + unit {
        PrefixSum(units, k + 1);
        return Found(EraseUnit(rel, unit)), k;
      }
      cur := cur + unit;
      k := k + 1;
    }
    assert false;
  }

  /** On an aligned window every byte has its unit. */
  lemma CoveringNeverInvalid(g: Geometry, off: nat, size: nat, at: nat)
    requires Valid(g) && off + size <= g.capacity && at < size && Boundary(g, off) && Boundary(g, off + size)
    ensures Sum(Walk(g, off, off + size)) > at
  {
    TiledExactlyWhenAligned(g, off, size);
  }

  ghost predicate AllEqual(s: seq<nat>) {
    forall i, j :: 0 <= i < |s| && 0 <= j < |s| ==> s[i] == s[j]
  }

  /** om_partition_is_uniform: the window is tiled, by units of one size. */
  method IsUniform(g: Geometry, off: nat, size: nat) returns (yes: bool)
    requires Valid(g) && off + size <= g.capacity
    ensures yes <==> Sum(Walk(g, off, off + size)) == size && AllEqual(Walk(g, off, off + size))
  {
    var cur, end, first := off, off + size, 0;
    ghost var k := 0;
    ghost var units := Walk(g, off, end);
    ReachedStart(g, off, end);
    while cur < end
      invariant Reached(g, units, off, end, cur, k) && (first == 0 <==> k == 0) &&
                forall i :: 0 <= i < k ==> units[i] == first
    {
      var unit := NextUnit(g, units, off, end, cur, k);
      if unit == 0 || unit > end - cur {
        return false;
      }
      if first == 0 {
        first := unit;
      } else if unit != first {
        assert units[0] != units[k];
        return false;
      }
      cur := cur + unit;
      k := k + 1;
    }
    ReachedEnd(g, units, off, end, k);
    return true;
  }

  /** om_partition_max_erase_unit */
  method MaxEraseUnit(g: Geometry, off: nat, size: nat) returns (max: nat)
    requires Valid(g) && off + size <= g.capacity
    ensures var units := Walk(g, off, off + size);
            (forall i :: 0 <= i < |units| ==> units[i] <= max) && (if units == [] then max == 0 else max in units)
  {
    var cur, end := off, off + size;
    ghost var k := 0;
    max := 0;
    ghost var units := Walk(g, off, end);
    ReachedStart(g, off, end);
    while cur < end
      invariant Reached(g, units, off, end, cur, k) && (forall i :: 0 <= i < k ==> units[i] <= max)
      invariant if k == 0 then max == 0 else max in units
    {
      var unit := NextUnit(g, units, off, end, cur, k);
      if unit == 0 || unit > end - cur {
        return;
      }
      if unit > max {
        max := unit;
      }
      cur := cur + unit;
      k := k + 1;
    }
    ReachedEnd(g, units, off, end, k);
  }

  // ----- erasing -----

  /** flash_erase_validate of hal_flash.c */
  method EraseValidate(g: Geometry, addr: nat, len: nat) returns (ok: bool)
    requires Valid(g)
    ensures ok <==> len == 0 || (addr + len <= g.capacity && Boundary(g, addr) && Boundary(g, addr + len))
  {
    if len == 0 {
      return true;
    }
    if addr > g.capacity || len > g.capacity - addr {
      return false;
    }
    var low := IsSectorBoundary(g, addr);
    var high := IsSectorBoundary(g, addr + len);
    return low && high;
  }

  /** Every unit of the walk can be erased on its own: it starts and ends at sector boundaries. */
  lemma UnitsErasable(g: Geometry, off: nat, size: nat, k: nat)
    requires Valid(g) && off + size <= g.capacity && k < |Walk(g, off, off + size)|
    ensures var units := Walk(g, off, off + size); var start := off + Sum(units[..k]);
            start + units[k] <= off + size && Boundary(g, start) && Boundary(g, start + units[k])
  {
    var units := Walk(g, off, off + size);
    var cur := off + Sum(units[..k]);
    UnitReached(g, units, off, off + size, k);
    assert Walk(g, cur, off + size)[0] == units[k];
    UnitEnds(g, cur);
  }

  lemma {:induction false} UnitReached(g: Geometry, units: seq<nat>, off: nat, end: nat, k: nat)
    requires off <= end && units == Walk(g, off, end) && k <= |units|
    ensures off + Sum(units[..k]) <= end && Reached(g, units, off, end, off + Sum(units[..k]), k)
  {
    if k == 0 {
      ReachedStart(g, off, end);
    } else {
      var cur := off + Sum(units[..k - 1]);
      UnitReached(g, units, off, end, k - 1);
      OneUnitFurther(g, units, off, end, cur, k - 1);
      SumNext(units, k - 1);
    }
  }

  lemma OneUnitFurther(g: Geometry, units: seq<nat>, off: nat, end: nat, cur: nat, k: nat)
    requires k < |units| && cur <= end && Reached(g, units, off, end, cur, k)
    ensures cur + units[k] <= end && Reached(g, units, off, end, cur + units[k], k + 1)
  {
    assert Walk(g, cur, end) != [];
    ReachedNext(g, units, off, end, cur, k);
  }

  // ----- om_partition_is_erased -----

  datatype ReadOutcome = Ok | RangeError | ReadError

  /** The bytes of the device, and the addresses whose reading fails. */
  datatype Medium = Medium(data: seq<nat>, bad: set<nat>)

  ghost predicate Readable(m: Medium, from: nat, to: nat) {
    forall p :: from <= p < to ==> p !in m.bad
  }

  ghost predicate AllErased(m: Medium, erased: nat, from: nat, to: nat) {
    to <= |m.data| && forall p :: from <= p < to ==> m.data[p] == erased
  }

  /** flash_read, within the capacity. */
  method Read(m: Medium, addr: nat, len: nat) returns (ok: bool, buf: seq<nat>)
    requires addr + len <= |m.data|
    ensures ok <==> Readable(m, addr, addr + len)
    ensures ok ==> buf == m.data[addr..addr + len]
  {
    var i := 0;
    ok, buf := true, [];
    while i < len
      invariant 0 <= i <= len && Readable(m, addr, addr + i)
    {
      if addr + i in m.bad {
        return false, [];
      }
      i := i + 1;
    }
    buf := m.data[addr..addr + len];
  }

  /** The chunk at n of the `len` bytes from start cannot be read, and everything before it is erased. */
  ghost predicate StoppedAt(m: Medium, erased: nat, start: nat, len: nat, n: nat) {
    n < len && n % IS_ERASED_CHUNK == 0 && AllErased(m, erased, start, start + n) && Readable(m, start, start + n) &&
    !Readable(m, start + n, start + if len - n < IS_ERASED_CHUNK then len else n + IS_ERASED_CHUNK)
  }

  /** om_partition_is_erased, for the window [base, base + size): the answer is right whenever there is one, and
      there is none only if a chunk cannot be read while everything before it is erased. */
  method IsErased(m: Medium, erased: nat, base: nat, size: nat, off: nat, len: nat)
    returns (r: ReadOutcome, all: bool, ghost stop: nat)
    requires base + size <= |m.data|
    ensures r == RangeError <==> off >= size || len > size - off
    ensures r == Ok ==> (all <==> AllErased(m, erased, base + off, base + off + len))
    ensures r == Ok && all ==> Readable(m, base + off, base + off + len)
    ensures r == ReadError ==> StoppedAt(m, erased, base + off, len, stop)
  {
    all, stop := false, 0;
    if off >= size || len > size - off {
      return RangeError, false, 0;
    }
    var start := base + off;
    var cur, remaining := start, len;
    all := true;
    while remaining > 0 && all
      invariant cur + remaining == start + len && start <= cur &&
                (all && remaining > 0 ==> (cur - start) % IS_ERASED_CHUNK == 0)
      invariant if all then AllErased(m, erased, start, cur) && Readable(m, start, cur)
                else !AllErased(m, erased, start, start + len)
    {
      var take := if remaining < IS_ERASED_CHUNK then remaining else IS_ERASED_CHUNK;
      var ok, buf := Read(m, cur, take);
      if !ok {
        return ReadError, false, cur - start;
      }
      var i := 0;
      while i < take
        invariant 0 <= i <= take && all && forall j :: 0 <= j < i ==> buf[j] == erased
      {
        if buf[i] != erased {
          assert m.data[cur + i] != erased;
          all := false;
          break;
        }
        i := i + 1;
      }
      if all {
        forall p | cur <= p < cur + take ensures m.data[p] == erased { assert buf[p - cur] == erased; }
      }
      cur := cur + take;
      remaining := remaining - take;
    }
    r := Ok;
  }
}
