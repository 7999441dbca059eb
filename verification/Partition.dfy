/**
  How a column file is split over servers and then over the NUMA nodes (or GPUs) of
  each server (core/storage/lib/storage-manager.cpp), and how each part is read
  (core/storage/lib/mmap-file.cpp).

  Sizes are computed in units, the bytes of a 4-byte column, and scaled by
  type_size / 4.  The two products involved have names, so that the proofs about
  parts can work from their laws instead of unfolding nonlinear arithmetic.
 */
module Partition {
  import opened Basics

  /** A part of a file, in bytes. */
  datatype Range = Range(offset: nat, size: nat)

  function Factor(typeSize: nat): (f: nat)
    ensures typeSize >= 4 ==> f >= 1
  {
    typeSize / 4
  }

  /** Bytes that `units` units take. */
  function Bytes(units: nat, factor: nat): nat { units * factor }

  /** Whole units in `bytes` bytes. */
  function Units(bytes: nat, factor: nat): nat
    requires factor > 0
  {
    bytes / factor
  }

  /** First unit of device `d`. */
  function Start(part: nat, d: nat): nat { part * d }

  /** Units per device, rounded up so that parts start on multiples of the alignment. */
  function PartSize(units: nat, align: nat, devices: nat): nat
    requires align > 0 && devices > 0
  {
    CeilDiv(CeilDiv(units, align), devices) * align
  }

  /** Parts of the first `d` devices. */
  function Shares(units: nat, part: nat, factor: nat, offset: nat, d: nat): seq<Range>
    decreases d
  {
    if d == 0 then []
    else
      var start := Start(part, d - 1);
      Shares(units, part, factor, offset, d - 1) +
      if start < units
      then [Range(Bytes(start, factor) + offset, Bytes(Min(part, units - start), factor))]
      else []
  }

  /** The parts of one server's devices: one per device that gets any data. */
  function Split(typeSize: nat, bytes: nat, offset: nat, devices: nat, align: nat): seq<Range>
    requires typeSize >= 4 && devices > 0 && align > 0
  {
    var units := Units(bytes, Factor(typeSize));
    Shares(units, PartSize(units, align, devices), Factor(typeSize), offset, devices)
  }

  /** loadToCpus; loadToGpus computes the same over GPUs. */
  method LoadToDevices(typeSize: nat, bytes: nat, offset: nat, devices: nat, align: nat) returns (parts: seq<Range>)
    requires typeSize >= 4 && devices > 0 && align > 0
    ensures parts == Split(typeSize, bytes, offset, devices, align)
    ensures Tiles(parts, offset, offset + Bytes(Units(bytes, Factor(typeSize)), Factor(typeSize)))
    ensures var part := PartSize(Units(bytes, Factor(typeSize)), align, devices);
            && Least(part, Units(bytes, Factor(typeSize)), align, devices)
            && Even(parts, Bytes(part, Factor(typeSize)))
  {
    hide Start, Bytes, Units, PartSize, Factor, Tiles, Least, Even;
    var factor := Factor(typeSize);
    var units := Units(bytes, factor);
    var part := PartSize(units, align, devices);
    parts := [];
    var d := 0;
    while d < devices
      invariant 0 <= d <= devices
      invariant parts == Shares(units, part, factor, offset, d)
    {
      if Start(part, d) < units {
        parts := parts + [Range(Bytes(Start(part, d), factor) + offset,
                                Bytes(Min(part, units - Start(part, d)), factor))];
      }
      d := d + 1;
    }
    SplitTiles(typeSize, bytes, offset, devices, align);
    PartIsLeast(units, align, devices);
    SharesEven(units, part, factor, offset, devices);
  }

  /** loadDistributed on one server: its share of the file, split over its own devices. */
  method LoadDistributed(fileBytes: nat, typeSize: nat, servers: nat, server: nat, devices: nat, align: nat)
    returns (parts: seq<Range>)
    requires typeSize >= 4 && devices > 0 && align > 0 && server < servers
    ensures parts == ServerParts(fileBytes, typeSize, servers, server, devices, align)
    ensures AllAligned(parts, align)
    ensures var factor := Factor(typeSize);
            var units := Units(fileBytes, factor);
            var part := PartSize(units, align, servers);
            if Start(part, server) < units
            then Tiles(parts, Bytes(Start(part, server), factor), Bytes(Min(Start(part, server + 1), units), factor))
            else parts == []
    ensures var factor := Factor(typeSize);
            var units := Units(fileBytes, factor);
            var part := PartSize(units, align, servers);
            var size := ServerUnits(units, part, server);
            var inner := PartSize(size, align, devices);
            && Least(part, units, align, servers) && Least(inner, size, align, devices)
            && Even(parts, Bytes(inner, factor))
  {
    hide Start, Bytes, Units, PartSize, Factor, Tiles, AllAligned, Split, Least, Even;
    ServerTiles(fileBytes, typeSize, servers, server, devices, align);
    PartIsLeast(Units(fileBytes, Factor(typeSize)), align, servers);
    UnitsOfBytes(ServerUnits(Units(fileBytes, Factor(typeSize)),
                             PartSize(Units(fileBytes, Factor(typeSize)), align, servers), server), Factor(typeSize));
    var factor := Factor(typeSize);
    var units := Units(fileBytes, factor);
    var part := PartSize(units, align, servers);
    // protect from the underflow
    var rem := if Start(part, server) < units then units - Start(part, server) else 0;
    parts := LoadToDevices(typeSize, Bytes(Min(part, rem), factor), Bytes(Start(part, server), factor), devices, align);
  }

  /** Units that fall to one server. */
  function ServerUnits(units: nat, part: nat, server: nat): nat {
    Min(part, if Start(part, server) < units then units - Start(part, server) else 0)
  }

  function ServerParts(fileBytes: nat, typeSize: nat, servers: nat, server: nat, devices: nat, align: nat): seq<Range>
    requires typeSize >= 4 && devices > 0 && align > 0 && server < servers
  {
    var units := Units(fileBytes, Factor(typeSize));
    var part := PartSize(units, align, servers);
    Split(typeSize, Bytes(ServerUnits(units, part, server), Factor(typeSize)),
          Bytes(Start(part, server), Factor(typeSize)), devices, align)
  }

  /** Every server has at least one device. */
  predicate Equipped(devices: seq<nat>) {
    forall i :: 0 <= i < |devices| ==> devices[i] > 0
  }

  /** Parts of the first `n` servers, server by server; `devices` says how many each server has. */
  function ClusterParts(fileBytes: nat, typeSize: nat, devices: seq<nat>, n: nat, align: nat): seq<Range>
    requires typeSize >= 4 && Equipped(devices) && align > 0 && n <= |devices|
  {
    if n == 0 then []
    else ClusterParts(fileBytes, typeSize, devices, n - 1, align)
         + ServerParts(fileBytes, typeSize, |devices|, n - 1, devices[n - 1], align)
  }

  // ----- laws of the products and quotients

  lemma StartLaws(part: nat, d: nat)
    ensures Start(part, 0) == 0
    ensures Start(part, d + 1) == Start(part, d) + part
    ensures d > 0 ==> Start(part, d) == Start(part, d - 1) + part
  {
  }

  lemma BytesLaws(a: nat, b: nat, factor: nat)
    ensures Bytes(a + b, factor) == Bytes(a, factor) + Bytes(b, factor)
    ensures Bytes(0, factor) == 0 && Bytes(a, 1) == a
    ensures a > 0 && factor > 0 ==> Bytes(a, factor) > 0
    ensures a <= b ==> Bytes(a, factor) <= Bytes(b, factor)
    ensures a < b && factor > 0 ==> Bytes(a, factor) < Bytes(b, factor)
    ensures Bytes(Min(a, b), factor) == Min(Bytes(a, factor), Bytes(b, factor))
  {
    MulOrder(a, b, factor);
    MulOrder(b, a, factor);
  }

  lemma BytesNested(a: nat, k: nat, factor: nat)
    ensures Bytes(Bytes(a, k), factor) == Bytes(a, Bytes(k, factor))
  {
  }

  lemma StartOfBytes(part: nat, d: nat, k: nat)
    ensures Start(Bytes(part, k), d) == Bytes(Start(part, d), k)
  {
    assert part * k * d == part * d * k;
  }

  lemma UnitsOfBytes(units: nat, factor: nat)
    requires factor > 0
    ensures Units(Bytes(units, factor), factor) == units
  {
    DivUnique(units * factor, factor, units);
  }

  lemma BytesOfUnits(bytes: nat, factor: nat)
    requires factor > 0
    ensures Bytes(Units(bytes, factor), factor) <= bytes
    ensures Bytes(Units(bytes, factor), factor) == bytes <==> bytes % factor == 0
  {
    assert bytes == bytes / factor * factor + bytes % factor;
  }

  lemma MultipleMod(k: nat, m: nat)
    requires m > 0
    ensures (k * m) % m == 0
  {
    var n := k * m;
    DivUnique(n, m, k);
    assert n == n / m * m + n % m;
  }

  lemma CeilDivBounds(a: nat, b: nat)
    requires b > 0
    ensures a <= CeilDiv(a, b) * b < a + b
    ensures a == 0 ==> CeilDiv(a, b) == 0
  {
    var n := a + b - 1;
    var q, r := n / b, n % b;
    assert n == q * b + r;
    if a == 0 { DivUnique(n, b, 0); }
  }

  /** Enough parts for every unit, each a multiple of the alignment, and never more than one alignment per device too many. */
  lemma PartLaws(units: nat, align: nat, devices: nat)
    requires align > 0 && devices > 0
    ensures Start(PartSize(units, align, devices), devices) >= units
    ensures Start(PartSize(units, align, devices), devices) < units + align + devices * align
    ensures PartSize(units, align, devices) % align == 0
    ensures units == 0 <==> PartSize(units, align, devices) == 0
  {
    hide CeilDiv;
    var pages := CeilDiv(units, align);
    var per := CeilDiv(pages, devices);
    CeilDivBounds(units, align);
    CeilDivBounds(pages, devices);
    PartBounds(units, pages, per, align, devices);
    MultipleMod(per, align);
  }

  /** `q` alignments per device are enough. */
  predicate Enough(q: nat, units: nat, align: nat, devices: nat) { q * align * devices >= units }

  /** The least multiple of the alignment that is enough for every device together. */
  ghost predicate Least(part: nat, units: nat, align: nat, devices: nat)
    requires align > 0
  {
    && part % align == 0 && Start(part, devices) >= units
    && forall q: nat :: Enough(q, units, align, devices) ==> part <= q * align
  }

  lemma PartIsLeast(units: nat, align: nat, devices: nat)
    requires align > 0 && devices > 0
    ensures Least(PartSize(units, align, devices), units, align, devices)
  {
    PartLaws(units, align, devices);
    forall q: nat | Enough(q, units, align, devices) ensures PartSize(units, align, devices) <= q * align {
      NoLessPart(units, align, devices, q);
    }
  }

  lemma NoLessPart(units: nat, align: nat, devices: nat, q: nat)
    requires align > 0 && devices > 0 && q * align * devices >= units
    ensures PartSize(units, align, devices) <= q * align
  {
    hide CeilDiv;
    var pages := CeilDiv(units, align);
    var per := CeilDiv(pages, devices);
    CeilDivBounds(units, align);
    CeilDivBounds(pages, devices);
    MulSwap(q, align, devices);
    NoLess(pages, q * devices, align, units);
    NoLess(per, q, devices, pages);
    MulOrder(per, q, align);
  }

  /** A quotient rounded up is not above any number that is enough. */
  lemma NoLess(quotient: nat, enough: nat, b: nat, a: nat)
    requires b > 0 && quotient * b < a + b && enough * b >= a
    ensures quotient <= enough
  {
    MulOrder(enough + 1, quotient, b);
    MulAdd(enough, 1, b);
  }

  /** All ranges but the last have the given size, and the last no more. */
  predicate Even(rs: seq<Range>, size: nat) {
    forall i :: 0 <= i < |rs| ==> rs[i].size <= size && (i < |rs| - 1 ==> rs[i].size == size)
  }

  /** One part per device until the units run out. */
  lemma {:induction false} SharesEven(units: nat, part: nat, factor: nat, offset: nat, d: nat)
    ensures var rs := Shares(units, part, factor, offset, d);
            && Even(rs, Bytes(part, factor))
            && |rs| <= d && (Start(part, d) < units ==> |rs| == d)
            && (Start(part, d) <= units ==> forall i :: 0 <= i < |rs| ==> rs[i].size == Bytes(part, factor))
    decreases d
  {
    hide Start, Bytes;
    if d > 0 {
      var start := Start(part, d - 1);
      SharesEven(units, part, factor, offset, d - 1);
      StartLaws(part, d);
      if start < units {
        BytesLaws(Min(part, units - start), part, factor);
      }
    }
  }

  lemma PartBounds(units: nat, pages: nat, per: nat, align: nat, devices: nat)
    requires align > 0 && devices > 0
    requires units <= pages * align < units + align && pages <= per * devices < pages + devices
    ensures units <= per * align * devices < units + align + devices * align
    ensures units > 0 ==> per * align > 0
    ensures per * align > 0 ==> per > 0
  {
    MulOrder(pages, per * devices, align);
    MulOrder(per * devices, pages + devices, align);
    MulSwap(per, devices, align);
    MulAdd(pages, devices, align);
    MulOrder(0, per, align);
    assert per == 0 ==> pages == 0;
  }

  lemma MulSwap(a: nat, b: nat, c: nat)
    ensures a * b * c == a * c * b
  {
  }

  lemma MulAdd(a: nat, b: nat, c: nat)
    ensures (a + b) * c == a * c + b * c
  {
  }

  /** Every sum and product of the loader stays below 2^64 when the file size and one alignment per device and one more do. */
  lemma NoOverflow(fileBytes: nat, typeSize: nat, align: nat, devices: nat, d: nat)
    requires typeSize >= 4 && align > 0 && devices > 0 && d <= devices
    requires fileBytes + Bytes(align + devices * align, Factor(typeSize)) <= 0x1_0000_0000_0000_0000
    ensures var units := Units(fileBytes, Factor(typeSize));
            var part := PartSize(units, align, devices);
            && units + align - 1 < 0x1_0000_0000_0000_0000
            && CeilDiv(units, align) + devices - 1 < 0x1_0000_0000_0000_0000
            && Start(part, d) <= Bytes(Start(part, d), Factor(typeSize)) < 0x1_0000_0000_0000_0000
  {
    var factor := Factor(typeSize);
    var units := Units(fileBytes, factor);
    var pages := CeilDiv(units, align);
    CeilDivBounds(units, align);
    AtLeast(pages, align);
    AtLeast(devices, align);
    hide Start, Bytes, Units, PartSize, Factor, CeilDiv;
    var part := PartSize(units, align, devices);
    PartLaws(units, align, devices);
    var slack := align + devices * align;
    StartOrder(part, d, devices);
    BytesLaws(Start(part, d), Start(part, devices), factor);
    BytesLaws(Start(part, devices), units + slack, factor);
    BytesLaws(units, slack, factor);
    BytesOfUnits(fileBytes, factor);
    BytesAtLeast(Start(part, d), factor);
    BytesAtLeast(units + slack, factor);
  }

  /** The offset of a device's part within its server's, plus the server's own, fits when both excesses do. */
  lemma OffsetsFit(fileBytes: nat, typeSize: nat, align: nat, servers: nat, server: nat, devices: nat, d: nat)
    requires typeSize >= 4 && align > 0 && devices > 0 && server < servers && d <= devices
    requires fileBytes + Bytes(align + servers * align, Factor(typeSize)) <= 0x1_0000_0000_0000_0000
    requires fileBytes + Bytes(align + devices * align, Factor(typeSize)) <= 0x1_0000_0000_0000_0000
    ensures var factor := Factor(typeSize);
            var units := Units(fileBytes, factor);
            var part := PartSize(units, align, servers);
            var size := ServerUnits(units, part, server);
            Bytes(Start(PartSize(size, align, devices), d), factor) + Bytes(Start(part, server), factor)
              < 0x1_0000_0000_0000_0000
  {
    hide Start, Bytes, Units, PartSize, Factor, CeilDiv;
    var factor := Factor(typeSize);
    var units := Units(fileBytes, factor);
    var part := PartSize(units, align, servers);
    var start, size := Start(part, server), ServerUnits(units, part, server);
    var inner := PartSize(size, align, devices);
    PartLaws(units, align, servers);
    PartLaws(size, align, devices);
    StartOrder(part, server, servers);
    StartOrder(inner, d, devices);
    BytesOfUnits(fileBytes, factor);
    BytesLaws(Start(inner, d), start, factor);
    var slack := align + (if start < units then devices else servers) * align;
    if start >= units { NoStart(d); }
    assert Start(inner, d) + start < units + slack;
    BytesLaws(Start(inner, d) + start, units + slack, factor);
    BytesLaws(units, slack, factor);
  }

  lemma NoStart(d: nat)
    ensures Start(0, d) == 0
  {
  }

  lemma AtLeast(a: nat, b: nat)
    requires b > 0
    ensures a <= a * b
  {
    MulOrder(1, b, a);
  }

  lemma BytesAtLeast(a: nat, factor: nat)
    requires factor > 0
    ensures a <= Bytes(a, factor)
  {
    AtLeast(a, factor);
  }

  lemma StartOrder(part: nat, d: nat, e: nat)
    requires d <= e
    ensures Start(part, d) <= Start(part, e)
  {
    MulOrder(d, e, part);
  }

  // ----- tilings

  /** The ranges are non-empty and follow each other without gap or overlap from `lo` to `hi`. */
  predicate Tiles(rs: seq<Range>, lo: nat, hi: nat)
    decreases rs
  {
    if rs == [] then lo == hi
    else
      var last := rs[|rs| - 1];
      last.size > 0 && last.offset + last.size == hi && Tiles(rs[..|rs| - 1], lo, last.offset)
  }

  lemma {:induction false} TilesSnoc(rs: seq<Range>, r: Range, lo: nat)
    requires Tiles(rs, lo, r.offset) && r.size > 0
    ensures Tiles(rs + [r], lo, r.offset + r.size)
  {
    assert (rs + [r])[..|rs|] == rs;
  }

  lemma {:induction false} TilesConcat(a: seq<Range>, b: seq<Range>, lo: nat, mid: nat, hi: nat)
    requires Tiles(a, lo, mid) && Tiles(b, mid, hi)
    ensures Tiles(a + b, lo, hi)
    decreases b
  {
    if b == [] {
      assert a + b == a;
    } else {
      var last := b[|b| - 1];
      TilesConcat(a, b[..|b| - 1], lo, mid, last.offset);
      assert (a + b)[..|a + b| - 1] == a + b[..|b| - 1];
    }
  }

  predicate Covered(rs: seq<Range>, x: nat) {
    exists i :: 0 <= i < |rs| && rs[i].offset <= x < rs[i].offset + rs[i].size
  }

  /** What a tiling means: every range lies inside, ranges are in order and disjoint, and every byte is covered. */
  lemma {:induction false} TilesMeans(rs: seq<Range>, lo: nat, hi: nat)
    requires Tiles(rs, lo, hi)
    ensures lo <= hi
    ensures forall i :: 0 <= i < |rs| ==> rs[i].size > 0 && lo <= rs[i].offset && rs[i].offset + rs[i].size <= hi
    ensures forall i, j :: 0 <= i < j < |rs| ==> rs[i].offset + rs[i].size <= rs[j].offset
    ensures forall x: nat :: lo <= x < hi ==> Covered(rs, x)
    decreases rs
  {
    if rs != [] {
      var last := rs[|rs| - 1];
      var init := rs[..|rs| - 1];
      TilesMeans(init, lo, last.offset);
      assert forall i :: 0 <= i < |init| ==> rs[i] == init[i];
      assert forall i :: 0 <= i < |rs| ==> i < |init| || rs[i] == last;
      forall x: nat | lo <= x < hi ensures Covered(rs, x) {
        if x < last.offset {
          assert Covered(init, x);
          var i :| 0 <= i < |init| && init[i].offset <= x < init[i].offset + init[i].size;
          assert rs[i] == init[i];
        } else {
          assert rs[|rs| - 1].offset <= x;
        }
      }
    }
  }

  // ----- one server

  lemma {:induction false} SharesTile(units: nat, part: nat, factor: nat, offset: nat, d: nat)
    requires factor > 0 && (units > 0 ==> part > 0)
    ensures Tiles(Shares(units, part, factor, offset, d), offset, offset + Bytes(Min(Start(part, d), units), factor))
    decreases d
  {
    hide Start, Bytes, Tiles;
    BytesLaws(0, 0, factor);
    StartLaws(part, d);
    if d == 0 {
      NoTiles(offset);
    } else {
      SharesTile(units, part, factor, offset, d - 1);
      var start := Start(part, d - 1);
      if start < units {
        var size := Min(part, units - start);
        BytesLaws(start, size, factor);
        BytesLaws(size, 0, factor);
        TilesSnoc(Shares(units, part, factor, offset, d - 1), Range(Bytes(start, factor) + offset, Bytes(size, factor)), offset);
      } else {
        assert Shares(units, part, factor, offset, d) == Shares(units, part, factor, offset, d - 1);
      }
    }
  }

  lemma NoTiles(lo: nat)
    ensures Tiles([], lo, lo)
  {
  }

  /** The parts of one server tile exactly the whole units of what it was given. */
  lemma {:induction false} SplitTiles(typeSize: nat, bytes: nat, offset: nat, devices: nat, align: nat)
    requires typeSize >= 4 && devices > 0 && align > 0
    ensures Tiles(Split(typeSize, bytes, offset, devices, align), offset,
                  offset + Bytes(Units(bytes, Factor(typeSize)), Factor(typeSize)))
  {
    hide Start, Bytes, Units, PartSize, Factor, Tiles, Shares;
    var units := Units(bytes, Factor(typeSize));
    PartLaws(units, align, devices);
    SharesTile(units, PartSize(units, align, devices), Factor(typeSize), offset, devices);
  }

  predicate AllAligned(rs: seq<Range>, align: nat)
    requires align > 0
  {
    forall i :: 0 <= i < |rs| ==> rs[i].offset % align == 0
  }

  lemma ModAdd(a: nat, b: nat, m: nat)
    requires m > 0 && a % m == 0 && b % m == 0
    ensures (a + b) % m == 0
  {
    var p, q := a / m, b / m;
    assert a + b == (p + q) * m;
    MultipleMod(p + q, m);
  }

  lemma ScaledAligned(part: nat, d: nat, factor: nat, align: nat)
    requires align > 0 && part % align == 0
    ensures Bytes(Start(part, d), factor) % align == 0
  {
    var p := part / align;
    assert part * d * factor == p * d * factor * align;
    MultipleMod(p * d * factor, align);
  }

  lemma {:induction false} SharesAligned(units: nat, part: nat, factor: nat, offset: nat, d: nat, align: nat)
    requires align > 0 && part % align == 0 && offset % align == 0
    ensures AllAligned(Shares(units, part, factor, offset, d), align)
  {
    hide Start, Bytes;
    if d > 0 {
      SharesAligned(units, part, factor, offset, d - 1, align);
      ScaledAligned(part, d - 1, factor, align);
      ModAdd(Bytes(Start(part, d - 1), factor), offset, align);
    }
  }

  // ----- the whole cluster

  lemma {:induction false} ServerTiles(fileBytes: nat, typeSize: nat, servers: nat, server: nat, devices: nat, align: nat)
    requires typeSize >= 4 && devices > 0 && align > 0 && server < servers
    ensures var factor := Factor(typeSize);
            var units := Units(fileBytes, factor);
            var part := PartSize(units, align, servers);
            var parts := ServerParts(fileBytes, typeSize, servers, server, devices, align);
            && AllAligned(parts, align)
            && if Start(part, server) < units
               then Tiles(parts, Bytes(Start(part, server), factor), Bytes(Min(Start(part, server + 1), units), factor))
               else parts == []
  {
    hide Start, Bytes, Units, PartSize, Factor, Tiles, Shares, AllAligned;
    var factor := Factor(typeSize);
    var units := Units(fileBytes, factor);
    var part := PartSize(units, align, servers);
    var start, size := Start(part, server), ServerUnits(units, part, server);
    UnitsOfBytes(size, factor);
    SplitTiles(typeSize, Bytes(size, factor), Bytes(start, factor), devices, align);
    PartLaws(units, align, servers);
    PartLaws(size, align, devices);
    ScaledAligned(part, server, factor, align);
    SharesAligned(size, PartSize(size, align, devices), factor, Bytes(start, factor), devices, align);
    StartLaws(part, server);
    BytesLaws(start, size, factor);
    if start >= units {
      BytesLaws(0, 0, factor);
      EmptyTiling(Split(typeSize, Bytes(size, factor), Bytes(start, factor), devices, align), Bytes(start, factor));
    }
  }

  lemma EmptyTiling(rs: seq<Range>, lo: nat)
    requires Tiles(rs, lo, lo)
    ensures rs == []
  {
    if rs != [] {
      TilesMeans(rs[..|rs| - 1], lo, rs[|rs| - 1].offset);
      assert false;
    }
  }

  lemma {:induction false} ClusterTiles(fileBytes: nat, typeSize: nat, devices: seq<nat>, n: nat, align: nat)
    requires typeSize >= 4 && Equipped(devices) && align > 0 && n <= |devices| && devices != []
    ensures var factor := Factor(typeSize);
            var units := Units(fileBytes, factor);
            var part := PartSize(units, align, |devices|);
            var parts := ClusterParts(fileBytes, typeSize, devices, n, align);
            Tiles(parts, 0, Bytes(Min(Start(part, n), units), factor)) && AllAligned(parts, align)
    decreases n
  {
    hide Start, Bytes, Units, PartSize, Factor, Tiles, ServerParts;
    var factor := Factor(typeSize);
    var units := Units(fileBytes, factor);
    var part := PartSize(units, align, |devices|);
    BytesLaws(0, 0, factor);
    StartLaws(part, n);
    NoTiles(0);
    if n > 0 {
      var ahead := ClusterParts(fileBytes, typeSize, devices, n - 1, align);
      var parts := ServerParts(fileBytes, typeSize, |devices|, n - 1, devices[n - 1], align);
      ClusterTiles(fileBytes, typeSize, devices, n - 1, align);
      ServerTiles(fileBytes, typeSize, |devices|, n - 1, devices[n - 1], align);
      if Start(part, n - 1) < units {
        TilesConcat(ahead, parts, 0, Bytes(Start(part, n - 1), factor), Bytes(Min(Start(part, n), units), factor));
      } else {
        assert ahead + parts == ahead;
      }
    }
  }

  /**
    Over all servers and all their devices, the parts tile the file from its start, at
    aligned offsets; they cover it exactly when the type width divides it as the loader assumes.
   */
  lemma {:induction false} NestedTiling(fileBytes: nat, typeSize: nat, devices: seq<nat>, align: nat)
    requires typeSize >= 4 && Equipped(devices) && align > 0 && devices != []
    ensures var factor := Factor(typeSize);
            var covered := Bytes(Units(fileBytes, factor), factor);
            var parts := ClusterParts(fileBytes, typeSize, devices, |devices|, align);
            && Tiles(parts, 0, covered) && AllAligned(parts, align)
            && covered <= fileBytes
            && (covered == fileBytes <==> fileBytes % factor == 0)
  {
    hide Start, Bytes, Units, PartSize, Factor, Tiles, ClusterParts, AllAligned;
    var factor := Factor(typeSize);
    PartLaws(Units(fileBytes, factor), align, |devices|);
    ClusterTiles(fileBytes, typeSize, devices, |devices|, align);
    BytesOfUnits(fileBytes, factor);
  }

  // ----- rows

  function Scale(rs: seq<Range>, k: nat): seq<Range> {
    seq(|rs|, i requires 0 <= i < |rs| => Range(Bytes(rs[i].offset, k), Bytes(rs[i].size, k)))
  }

  lemma {:induction false} SharesScale(units: nat, part: nat, offset: nat, k: nat, factor: nat, d: nat)
    requires k > 0
    ensures Shares(Bytes(units, k), Bytes(part, k), factor, Bytes(offset, Bytes(k, factor)), d)
         == Scale(Shares(units, part, 1, offset, d), Bytes(k, factor))
    decreases d
  {
    hide Start, Bytes;
    if d > 0 {
      var all := Bytes(k, factor);
      SharesScale(units, part, offset, k, factor, d - 1);
      var a := Start(part, d - 1);
      StartOfBytes(part, d - 1, k);
      BytesLaws(a, units, k);
      BytesLaws(units, a, k);
      if a < units {
        var size := Min(part, units - a);
        BytesLaws(a, units - a, k);
        BytesLaws(part, units - a, k);
        BytesNested(a, k, factor);
        BytesNested(size, k, factor);
        BytesLaws(a, offset, all);
        BytesLaws(a, 0, 1);
        BytesLaws(size, 0, 1);
        var last := Range(a + offset, size);
        var init := Shares(units, part, 1, offset, d - 1);
        assert Shares(units, part, 1, offset, d) == init + [last];
        assert Scale(init + [last], all) == Scale(init, all) + [Range(Bytes(a + offset, all), Bytes(size, all))];
      } else {
        assert Shares(units, part, 1, offset, d) == Shares(units, part, 1, offset, d - 1);
      }
    }
  }

  lemma CeilDivScale(a: nat, b: nat, k: nat)
    requires b > 0 && k > 0
    ensures b * k > 0 && CeilDiv(a * k, b * k) == CeilDiv(a, b)
  {
    var q := CeilDiv(a, b);
    CeilDivBounds(a, b);
    ScaledBounds(q, a, b, k);
    MulOrder(0, b, k);
    DivUnique(a * k + b * k - 1, b * k, q);
  }

  lemma ScaledBounds(q: nat, a: nat, b: nat, k: nat)
    requires a <= q * b < a + b && k > 0
    ensures q * (b * k) <= a * k + b * k - 1 < (q + 1) * (b * k)
  {
    MulOrder(a, q * b, k);
    MulOrder(q * b, a + b - 1, k);
    MulAssoc(q, b, k);
    MulAssoc(q + 1, b, k);
    assert (a + b - 1) * k == a * k + b * k - k;
    assert (q + 1) * b * k == q * b * k + b * k;
  }

  lemma MulAssoc(a: nat, b: nat, c: nat)
    ensures a * b * c == a * (b * c)
  {
  }

  lemma PartSizeScale(units: nat, align: nat, devices: nat, k: nat)
    requires align > 0 && devices > 0 && k > 0
    ensures Bytes(align, k) > 0
    ensures PartSize(Bytes(units, k), Bytes(align, k), devices) == Bytes(PartSize(units, align, devices), k)
  {
    CeilDivScale(units, align, k);
    var per := CeilDiv(CeilDiv(units, align), devices);
    assert per * (align * k) == per * align * k;
  }

  /** Row ranges of one server's parts, computed from the row count alone. */
  function RowParts(rows: nat, servers: nat, server: nat, devices: nat, rowAlign: nat): seq<Range>
    requires devices > 0 && rowAlign > 0 && server < servers
  {
    var part := PartSize(rows, rowAlign, servers);
    var size := ServerUnits(rows, part, server);
    Shares(size, PartSize(size, rowAlign, devices), 1, Start(part, server), devices)
  }

  lemma ServerUnitsScale(units: nat, part: nat, server: nat, k: nat)
    requires k > 0
    ensures ServerUnits(Bytes(units, k), Bytes(part, k), server) == Bytes(ServerUnits(units, part, server), k)
  {
    hide Start, Bytes;
    var a := Start(part, server);
    StartOfBytes(part, server, k);
    BytesLaws(a, units, k);
    BytesLaws(units, a, k);
    BytesLaws(part, 0, k);
    if a < units {
      BytesLaws(a, units - a, k);
      BytesLaws(part, units - a, k);
    }
  }

  /**
    Columns of one relation are cut at the same rows on every server and device: the parts
    of a column of any width that is a multiple of 4 are the common row ranges times its width.
   */
  lemma {:induction false} ColumnAlignment(rows: nat, width: nat, servers: nat, server: nat, devices: nat, rowAlign: nat)
    requires width >= 4 && width % 4 == 0 && devices > 0 && rowAlign > 0 && server < servers
    ensures Bytes(rowAlign, 4) > 0
    ensures ServerParts(Bytes(rows, width), width, servers, server, devices, Bytes(rowAlign, 4))
         == Scale(RowParts(rows, servers, server, devices, rowAlign), width)
  {
    var factor := Factor(width);
    assert width == Bytes(4, factor);
    hide Start, Bytes, Units, PartSize, Factor, Shares, Scale, ServerUnits;
    BytesNested(rows, 4, factor);
    UnitsOfBytes(Bytes(rows, 4), factor);
    PartSizeScale(rows, rowAlign, servers, 4);
    var part := PartSize(rows, rowAlign, servers);
    ServerUnitsScale(rows, part, server, 4);
    var size := ServerUnits(rows, part, server);
    UnitsOfBytes(Bytes(size, 4), factor);
    PartSizeScale(size, rowAlign, devices, 4);
    StartOfBytes(part, server, 4);
    BytesNested(Start(part, server), 4, factor);
    SharesScale(size, PartSize(size, rowAlign, devices), Start(part, server), 4, factor, devices);
  }

  /** Every part of every server and device is a range of rows that does not depend on the width. */
  ghost predicate CutAtRows(width: nat, rowAlign: nat)
    requires width >= 4 && Bytes(rowAlign, 4) > 0
  {
    forall rows: nat, servers: nat, server: nat, devices: nat | rowAlign > 0 && devices > 0 && server < servers ::
      ServerParts(Bytes(rows, width), width, servers, server, devices, Bytes(rowAlign, 4))
      == Scale(RowParts(rows, servers, server, devices, rowAlign), width)
  }

  /** Columns are cut at common rows exactly for widths that are multiples of 4, whatever the alignment. */
  lemma {:induction false} AlignedExactly(width: nat, rowAlign: nat)
    requires width >= 4 && rowAlign > 0
    ensures Bytes(rowAlign, 4) > 0
    ensures CutAtRows(width, rowAlign) <==> width % 4 == 0
  {
    BytesLaws(rowAlign, 0, 4);
    hide Bytes, ServerParts, RowParts, Scale;
    if width % 4 == 0 {
      forall rows: nat, servers: nat, server: nat, devices: nat | devices > 0 && server < servers
        ensures ServerParts(Bytes(rows, width), width, servers, server, devices, Bytes(rowAlign, 4))
             == Scale(RowParts(rows, servers, server, devices, rowAlign), width)
      {
        ColumnAlignment(rows, width, servers, server, devices, rowAlign);
      }
    } else {
      ColumnMisalignment(width, rowAlign);
    }
  }

  /**
    The columns that are not: with two alignments' worth of rows on two servers of one device, the
    second server's part of any other column starts at another row than the common one, or inside a row.
   */
  lemma {:induction false} ColumnMisalignment(width: nat, rowAlign: nat)
    requires width >= 4 && width % 4 != 0 && rowAlign > 0
    ensures Bytes(rowAlign, 4) > 0
    ensures var parts := ServerParts(Bytes(2 * rowAlign, width), width, 2, 1, 1, Bytes(rowAlign, 4));
            var rows := RowParts(2 * rowAlign, 2, 1, 1, rowAlign);
            && parts != [] && rows != []
            && rows[0].offset == rowAlign
            && parts[0].offset != Bytes(rowAlign, width)
            && parts != Scale(rows, width)
  {
    BytesLaws(rowAlign, 0, 4);
    var factor, align := Factor(width), Bytes(rowAlign, 4);
    var units := Units(Bytes(2 * rowAlign, width), factor);
    var part := PartSize(units, align, 2);
    TwoAlignments(width, rowAlign);
    HalfFits(units, align);
    NotCommon(width, rowAlign, CeilDiv(CeilDiv(units, align), 2));
    hide Start, Bytes, Units, PartSize, Factor, Tiles, AllAligned, ServerParts, RowParts;
    SecondStarts(Bytes(2 * rowAlign, width), width, align);
    TwoRowParts(rowAlign);
  }

  /** The scaled offset of a multiple of the alignment is never the common row's. */
  lemma NotCommon(width: nat, rowAlign: nat, c: nat)
    requires width >= 4 && width % 4 != 0 && rowAlign > 0
    ensures Bytes(c * Bytes(rowAlign, 4), Factor(width)) != Bytes(rowAlign, width)
  {
    var q := c * Factor(width);
    assert Bytes(c * Bytes(rowAlign, 4), Factor(width)) == rowAlign * (4 * q);
    assert 4 * q != width;
    MulOrder(4 * q, width, rowAlign);
    MulOrder(width, 4 * q, rowAlign);
  }

  lemma TwoAlignments(width: nat, rowAlign: nat)
    requires width >= 4 && rowAlign > 0
    ensures Units(Bytes(2 * rowAlign, width), Factor(width)) >= 2 * Bytes(rowAlign, 4)
  {
    var factor := Factor(width);
    MulOrder(4 * factor, width, 2 * rowAlign);
    assert 8 * rowAlign * factor <= Bytes(2 * rowAlign, width);
    DivAtLeast(Bytes(2 * rowAlign, width), factor, 8 * rowAlign);
  }

  lemma DivAtLeast(n: nat, m: nat, q: nat)
    requires m > 0 && q * m <= n
    ensures n / m >= q
  {
    var p, r := n / m, n % m;
    assert n == p * m + r;
    MulOrder(p + 1, q, m);
    MulStep(m, p + 1);
  }

  /** Half of at least two alignments, rounded up, leaves something for the other half. */
  lemma HalfFits(units: nat, align: nat)
    requires align > 0 && units >= 2 * align
    ensures PartSize(units, align, 2) < units
  {
    var pages := CeilDiv(units, align);
    CeilDivBounds(units, align);
    MulOrder(pages, 1, align);
    assert pages >= 2;
    var per := CeilDiv(pages, 2);
    assert per <= pages - 1;
    MulOrder(per, pages - 1, align);
    MulStep(align, pages);
  }

  lemma SecondStarts(fileBytes: nat, typeSize: nat, align: nat)
    requires typeSize >= 4 && align > 0
    requires PartSize(Units(fileBytes, Factor(typeSize)), align, 2) < Units(fileBytes, Factor(typeSize))
    ensures var parts := ServerParts(fileBytes, typeSize, 2, 1, 1, align);
            && parts != []
            && parts[0].offset == Bytes(PartSize(Units(fileBytes, Factor(typeSize)), align, 2), Factor(typeSize))
  {
    hide Start, Bytes, Units, PartSize, Factor, Tiles, AllAligned, ServerParts;
    var factor := Factor(typeSize);
    var units := Units(fileBytes, factor);
    var part := PartSize(units, align, 2);
    StartLaws(part, 0);
    StartLaws(part, 1);
    ServerTiles(fileBytes, typeSize, 2, 1, 1, align);
    PartLaws(units, align, 2);
    BytesLaws(part, Min(Start(part, 2), units), factor);
    TilesFirst(ServerParts(fileBytes, typeSize, 2, 1, 1, align), Bytes(part, factor), Bytes(Min(Start(part, 2), units), factor));
  }

  lemma {:induction false} TilesFirst(rs: seq<Range>, lo: nat, hi: nat)
    requires Tiles(rs, lo, hi) && lo < hi
    ensures rs != [] && rs[0].offset == lo
    decreases rs
  {
    var init, last := rs[..|rs| - 1], rs[|rs| - 1];
    if init != [] {
      TilesMeans(init, lo, last.offset);
      assert init[0].size > 0;
      TilesFirst(init, lo, last.offset);
    }
  }

  /** Row ranges are the parts of a column with one unit per row. */
  lemma RowsAreParts(rows: nat, servers: nat, server: nat, devices: nat, rowAlign: nat)
    requires devices > 0 && rowAlign > 0 && server < servers
    ensures RowParts(rows, servers, server, devices, rowAlign) == ServerParts(rows, 4, servers, server, devices, rowAlign)
  {
    hide Start, Bytes, Units, PartSize, Shares, ServerUnits;
    var part := PartSize(rows, rowAlign, servers);
    var size := ServerUnits(rows, part, server);
    BytesLaws(rows, 0, 1);
    BytesLaws(size, 0, 1);
    BytesLaws(Start(part, server), 0, 1);
    UnitsOfBytes(rows, 1);
    UnitsOfBytes(size, 1);
  }

  lemma TwoRowParts(rowAlign: nat)
    requires rowAlign > 0
    ensures var rows := RowParts(2 * rowAlign, 2, 1, 1, rowAlign); rows != [] && rows[0].offset == rowAlign
  {
    DivUnique(2 * rowAlign + rowAlign - 1, rowAlign, 2);
    assert PartSize(2 * rowAlign, rowAlign, 2) == rowAlign;
    hide Start, Bytes, Units, PartSize, ServerParts, RowParts;
    RowsAreParts(2 * rowAlign, 2, 1, 1, rowAlign);
    BytesLaws(2 * rowAlign, 0, 1);
    UnitsOfBytes(2 * rowAlign, 1);
    BytesLaws(rowAlign, 0, 1);
    SecondStarts(2 * rowAlign, 4, rowAlign);
  }

  // ----- loadEverywhere

  /** loadEverywhere scales by the type width without first dividing the file size. */
  function EverywhereParts(fileBytes: nat, typeSize: nat, devices: nat, align: nat): seq<Range>
    requires typeSize >= 4 && devices > 0 && align > 0
  {
    Shares(fileBytes, PartSize(fileBytes, align, devices), Factor(typeSize), 0, devices)
  }

  /** It tiles the file, and stays inside it, exactly for types of 4 to 7 bytes or an empty file. */
  lemma {:induction false} EverywhereTiles(fileBytes: nat, typeSize: nat, devices: nat, align: nat)
    requires typeSize >= 4 && devices > 0 && align > 0
    ensures var parts := EverywhereParts(fileBytes, typeSize, devices, align);
            && (Tiles(parts, 0, fileBytes) <==> typeSize < 8 || fileBytes == 0)
            && ((forall i :: 0 <= i < |parts| ==> parts[i].offset + parts[i].size <= fileBytes)
                <==> typeSize < 8 || fileBytes == 0)
            && var part := PartSize(fileBytes, align, devices);
            && Least(part, fileBytes, align, devices) && Even(parts, Bytes(part, Factor(typeSize)))
  {
    hide Start, Bytes, PartSize, Shares, Least, Even;
    PartIsLeast(fileBytes, align, devices);
    SharesEven(fileBytes, PartSize(fileBytes, align, devices), Factor(typeSize), 0, devices);
    var factor := Factor(typeSize);
    var parts := EverywhereParts(fileBytes, typeSize, devices, align);
    PartLaws(fileBytes, align, devices);
    SharesTile(fileBytes, PartSize(fileBytes, align, devices), factor, 0, devices);
    var end := Bytes(fileBytes, factor);
    TilesMeans(parts, 0, end);
    BytesLaws(fileBytes, 0, factor);
    if typeSize >= 8 && fileBytes > 0 {
      BytesGrow(fileBytes, factor);
      assert parts != [] && parts[|parts| - 1].offset + parts[|parts| - 1].size == end;
    }
  }

  lemma BytesGrow(units: nat, factor: nat)
    requires units > 0 && factor >= 2
    ensures Bytes(units, factor) > units
  {
    MulOrder(2, factor, units);
  }

  // ----- reading the parts

  datatype ReadResult = Complete | Failed(errno: int) | UnexpectedEof

  /** What one pread call returns: an error, or at most what was asked for and is there. */
  function Pread(file: seq<byte>, asked: nat, offs: nat, kernel: int): int {
    if kernel < 0 then kernel
    else Min(Min(kernel, asked), if offs < |file| then |file| - offs else 0)
  }

  /**
    The read loop of a pinned partition.  The k-th pread call is offered `kernel(k)` bytes by the
    system; the buffer ends up holding the range exactly, or an error or early end is reported.
   */
  method ReadAll(file: seq<byte>, buffer: array<byte>, offset: nat, kernel: nat -> int) returns (r: ReadResult)
    modifies buffer
    ensures r.Complete? && buffer.Length > 0 ==>
              offset + buffer.Length <= |file| && buffer[..] == file[offset..offset + buffer.Length]
    ensures (forall k :: kernel(k) > 0) ==>
              if offset + buffer.Length <= |file| || buffer.Length == 0 then r.Complete? else r.UnexpectedEof?
    ensures r.Failed? ==> r.errno < 0 && exists k: nat :: kernel(k) == r.errno
    ensures r.UnexpectedEof? ==> offset + buffer.Length > |file| || exists k: nat :: kernel(k) == 0
  {
    var done, offs, size, calls := 0, offset, buffer.Length, 0;
    while size > 0
      invariant 0 <= done && 0 <= size && done + size == buffer.Length && offs == offset + done && calls >= 0
      invariant done > 0 ==> offs <= |file|
      invariant forall i :: 0 <= i < done ==> buffer[i] == file[offset + i]
    {
      var rd := Pread(file, size, offs, kernel(calls));
      if rd < 0 {
        return Failed(rd);
      }
      if rd == 0 {
        return UnexpectedEof;
      }
      forall i | done <= i < done + rd {
        buffer[i] := file[offset + i];
      }
      done, offs, size, calls := done + rd, offs + rd, size - rd, calls + 1;
    }
    return Complete;
  }

  /** Every byte of every range lies in the file. */
  predicate Inside(parts: seq<Range>, fileBytes: nat) {
    forall i :: 0 <= i < |parts| ==> parts[i].size > 0 && parts[i].offset + parts[i].size <= fileBytes
  }

  /** The buffers of all parts, one after the other. */
  function Buffers(file: seq<byte>, rs: seq<Range>): seq<byte>
    requires Inside(rs, |file|)
    decreases rs
  {
    if rs == [] then []
    else
      var last := rs[|rs| - 1];
      Buffers(file, rs[..|rs| - 1]) + file[last.offset..last.offset + last.size]
  }

  lemma {:induction false} BuffersOfTiling(file: seq<byte>, rs: seq<Range>, lo: nat, hi: nat)
    requires Tiles(rs, lo, hi) && hi <= |file| && Inside(rs, |file|)
    ensures lo <= hi && Buffers(file, rs) == file[lo..hi]
    decreases rs
  {
    if rs != [] {
      var last := rs[|rs| - 1];
      BuffersOfTiling(file, rs[..|rs| - 1], lo, last.offset);
      assert file[lo..last.offset] + file[last.offset..hi] == file[lo..hi];
    }
  }

  /** No part passes the end of the file, and the parts in order are the file up to its last whole unit. */
  lemma {:induction false} ClusterHoldsFile(file: seq<byte>, typeSize: nat, devices: seq<nat>, align: nat)
    requires typeSize >= 4 && Equipped(devices) && align > 0 && devices != []
    ensures var parts := ClusterParts(|file|, typeSize, devices, |devices|, align);
            var covered := Bytes(Units(|file|, Factor(typeSize)), Factor(typeSize));
            && Inside(parts, |file|)
            && covered <= |file| && Buffers(file, parts) == file[..covered]
  {
    hide Start, Bytes, Units, PartSize, Factor, Tiles, ClusterParts, AllAligned, Buffers;
    var parts := ClusterParts(|file|, typeSize, devices, |devices|, align);
    var covered := Bytes(Units(|file|, Factor(typeSize)), Factor(typeSize));
    NestedTiling(|file|, typeSize, devices, align);
    TilesMeans(parts, 0, covered);
    BuffersOfTiling(file, parts, 0, covered);
  }

  /** What some buffers hold, one after the other. */
  ghost function Contents(buffers: seq<array<byte>>): seq<byte>
    reads buffers
    decreases buffers
  {
    if buffers == [] then []
    else Contents(buffers[..|buffers| - 1]) + buffers[|buffers| - 1][..]
  }

  /** The parts of all servers, each computed by the server itself. */
  method LoadOnAllServers(fileBytes: nat, typeSize: nat, devices: seq<nat>, align: nat) returns (parts: seq<Range>)
    requires typeSize >= 4 && Equipped(devices) && align > 0
    ensures parts == ClusterParts(fileBytes, typeSize, devices, |devices|, align)
  {
    hide ServerParts, Tiles, AllAligned, Start, Bytes, Units, PartSize, Factor;
    parts := [];
    var n := 0;
    while n < |devices|
      invariant 0 <= n <= |devices|
      invariant parts == ClusterParts(fileBytes, typeSize, devices, n, align)
    {
      var more := LoadDistributed(fileBytes, typeSize, |devices|, n, devices[n], align);
      parts := parts + more;
      n := n + 1;
    }
  }

  /** Reads each part into a buffer of its size; the i-th read meets the system `kernel(i, ..)`. */
  method ReadParts(file: seq<byte>, parts: seq<Range>, kernel: (nat, nat) -> int)
    returns (r: ReadResult, buffers: seq<array<byte>>)
    requires Inside(parts, |file|)
    ensures forall b :: b in buffers ==> fresh(b)
    ensures r.Complete? ==> Contents(buffers) == Buffers(file, parts)
    ensures (forall i: nat, k: nat :: kernel(i, k) > 0) ==> r.Complete?
  {
    buffers := [];
    var i := 0;
    while i < |parts|
      invariant 0 <= i <= |parts|
      invariant forall b :: b in buffers ==> fresh(b)
      invariant Contents(buffers) == Buffers(file, parts[..i])
    {
      var buffer;
      r, buffer := ReadPart(file, parts[i], (k: nat) => kernel(i, k));
      if !r.Complete? {
        return;
      }
      assert parts[..i + 1][..i] == parts[..i];
      assert (buffers + [buffer])[..|buffers|] == buffers;
      buffers := buffers + [buffer];
      i := i + 1;
    }
    assert parts[..i] == parts;
    r := Complete;
  }

  method ReadPart(file: seq<byte>, part: Range, kernel: nat -> int) returns (r: ReadResult, buffer: array<byte>)
    requires part.size > 0 && part.offset + part.size <= |file|
    ensures fresh(buffer)
    ensures r.Complete? ==> buffer[..] == file[part.offset..part.offset + part.size]
    ensures (forall k: nat :: kernel(k) > 0) ==> r.Complete?
  {
    buffer := new byte[part.size];
    r := ReadAll(file, buffer, part.offset, kernel);
  }

  /**
    A whole load: every server computes its parts and reads each into a buffer of its size.  The
    buffers hold the file up to its last whole unit, for every pattern of short reads.
   */
  method LoadCluster(file: seq<byte>, typeSize: nat, devices: seq<nat>, align: nat, kernel: (nat, nat) -> int)
    returns (r: ReadResult, buffers: seq<array<byte>>)
    requires typeSize >= 4 && Equipped(devices) && align > 0 && devices != []
    ensures forall b :: b in buffers ==> fresh(b)
    ensures r.Complete? ==> Contents(buffers) == file[..|file| - |file| % Factor(typeSize)]
    ensures r.Complete? && |file| % Factor(typeSize) == 0 ==> Contents(buffers) == file
    ensures (forall i: nat, k: nat :: kernel(i, k) > 0) ==> r.Complete?
  {
    hide ClusterParts, Bytes, Units, Factor, Buffers, Contents;
    WholeUnits(|file|, Factor(typeSize));
    ClusterHoldsFile(file, typeSize, devices, align);
    var parts := LoadOnAllServers(|file|, typeSize, devices, align);
    r, buffers := ReadParts(file, parts, kernel);
  }

  lemma WholeUnits(bytes: nat, factor: nat)
    requires factor > 0
    ensures Bytes(Units(bytes, factor), factor) == bytes - bytes % factor
  {
  }
}
