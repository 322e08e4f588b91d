/** The frozen `CONFIG` object: sizes of the address space and of the tables. */
module Config {
  import opened JsNumbers

  /** Number of addressable locations (addresses 0 .. MAX - 1). */
  const MAX: int := 64
  /** Number of TLB entries. */
  const TLB_SIZE: int := 2
  /** Number of physical page frames. */
  const PHYSICAL_PAGES: int := 3

  /** `((max - 1) >>> 4) + 1`: the number of virtual pages of 16 locations. */
  function PageTableSizeOf(max: int): (r: int)
    requires 1 <= max <= TWO_TO_32
    ensures 1 <= r
    ensures (r - 1) * 16 < max <= r * 16  // r is the ceiling of max / 16
  {
    UnsignedShiftRight(max - 1, 4) + 1
  }

  /** `((max - 1) & 0xF) + 1`. */
  function PageSizeOf(max: int): (r: int)
    ensures 1 <= r <= 16
    ensures max % 16 == 0 ==> r == 16
    ensures 1 <= max <= 16 ==> r == max
  {
    LowBits(max - 1, 4) + 1
  }

  function PAGE_TABLE_SIZE(): int
  {
    PageTableSizeOf(MAX)
  }

  function PAGE_SIZE(): int
  {
    PageSizeOf(MAX)
  }

  /** The sizes the configured constants give. */
  lemma ConfiguredSizes()
    ensures PAGE_TABLE_SIZE() == 4 && PAGE_SIZE() == 16
    ensures PAGE_TABLE_SIZE() * PAGE_SIZE() == MAX
    ensures TLB_SIZE == 2 && PHYSICAL_PAGES == 3
  {
  }

  /**
   * The two derived sizes describe the address space exactly (the pages
   * tile [0, max)) only when max fits in one page or is a whole number of
   * 16-location pages; otherwise `PageSizeOf` is the size of the last,
   * partial page only.
   */
  lemma SizesTileAddressSpace(max: int)
    requires 1 <= max <= TWO_TO_32
    ensures PageTableSizeOf(max) * PageSizeOf(max) == max <==> (max <= 16 || max % 16 == 0)
  {
    var q, t := (max - 1) / 16, (max - 1) % 16;
    assert Pow2(4) == 16;
    assert PageTableSizeOf(max) == q + 1;
    assert PageSizeOf(max) == t + 1;
    assert max <= 16 <==> q == 0;
    assert max % 16 == 0 <==> t == 15;
    ProductOfPieces(q, t);
  }

  /** (q + 1) * (t + 1) == 16 * q + t + 1 exactly when q == 0 or t == 15. */
  lemma ProductOfPieces(q: int, t: int)
    requires 0 <= q && 0 <= t < 16
    ensures (q + 1) * (t + 1) == 16 * q + t + 1 <==> (q == 0 || t == 15)
  {
    assert (q + 1) * (t + 1) == q * t + q + t + 1;
    assert q * t - 15 * q == q * (t - 15);
    if q != 0 && t != 15 {
      assert q * (t - 15) != 0;
    }
  }

  /** The vpn mask `& 0x3` never exceeds the last page-table index. */
  lemma VpnMaskFitsPageTable(x: int)
    ensures 0 <= LowBits(x, 2) <= PAGE_TABLE_SIZE() - 1
  {
  }
}
