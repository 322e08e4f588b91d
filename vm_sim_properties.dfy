/** What one step of `nextState`, and a run of steps, does to the engine's tables. */
module VmSimProperties {
  import opened Wrappers
  import opened Config
  import opened VmSim

  /** The vpn/vpo split of an in-range address puts it back together, also at both ends of the range. */
  lemma DecompositionReassembles(a: int)
    requires 0 <= a < MAX
    ensures Vpn(a) * PAGE_SIZE() + Vpo(a) == a
    ensures Vpn(0) == 0 && Vpo(0) == 0
    ensures Vpn(MAX - 1) == PAGE_TABLE_SIZE() - 1 && Vpo(MAX - 1) == PAGE_SIZE() - 1
  {
  }

  /** TLB_SEARCH: a hit exactly when some entry caches the page; nothing else changes. */
  lemma SearchStep(m: Machine, vpn: int)
    requires m.state == TlbSearch
    ensures Next(m, vpn).state == TlbHit <==> TlbContains(m.tlb, vpn)
    ensures Next(m, vpn).state == TlbMiss <==> !TlbContains(m.tlb, vpn)
    ensures Next(m, vpn) == m.(state := Next(m, vpn).state)
  {
  }

  /** TLB_HIT -> TLB_END -> TLB_SEARCH, tables untouched. */
  lemma HitSteps(m: Machine, vpn: int)
    ensures m.state == TlbHit ==> Next(m, vpn) == m.(state := TlbEnd)
    ensures m.state == TlbEnd ==> Next(m, vpn) == m.(state := TlbSearch)
  {
  }

  /** PAGE_TABLE_END -> TLB_SEARCH, tables untouched. */
  lemma PageTableEndStep(m: Machine, vpn: int)
    requires m.state == PageTableEnd
    ensures Next(m, vpn) == m.(state := TlbSearch)
  {
  }

  /** TLB_MISS -> PAGE_TABLE_LOOKUP, which tests the present bit of the page's entry. */
  lemma MissAndLookupSteps(m: Machine, vpn: int)
    requires 0 <= vpn < |m.pageTable|
    ensures m.state == TlbMiss ==> Next(m, vpn) == m.(state := PageTableLookup)
    ensures m.state == PageTableLookup ==>
      && Next(m, vpn) == m.(state := Next(m, vpn).state)
      && (Next(m, vpn).state == PageTableEntryPresent <==> m.pageTable[vpn].presentBit)
      && (Next(m, vpn).state == PageTableFault <==> !m.pageTable[vpn].presentBit)
  {
  }

  /**
   * PAGE_TABLE_FAULT picks the lowest free frame, or -1 when none is free,
   * and moves to PAGE_TABLE_SWAP or PAGE_EVICT accordingly; the tables stay.
   */
  lemma FaultStep(m: Machine, vpn: int)
    requires m.state == PageTableFault
    ensures var r := Next(m, vpn);
      && r.tlb == m.tlb && r.pageTable == m.pageTable && r.physicalMemory == m.physicalMemory
      && -1 <= r.freePage < |m.physicalMemory|
      && (r.freePage == -1 <==> forall f :: 0 <= f < |m.physicalMemory| ==> m.physicalMemory[f].pageTableIdx.Some?)
      && (r.freePage != -1 ==> m.physicalMemory[r.freePage].pageTableIdx == None)
      && (r.freePage != -1 ==> forall f :: 0 <= f < r.freePage ==> m.physicalMemory[f].pageTableIdx.Some?)
      && (r.state == PageTableSwap <==> r.freePage != -1)
      && (r.state == PageEvict <==> r.freePage == -1)
  {
  }

  /**
   * PAGE_TABLE_SWAP binds frame `freePage` to the page and marks the page
   * present in it; every other entry, the TLB and the state are unchanged.
   */
  lemma SwapStep(m: Machine, vpn: int)
    requires WellFormed(m) && m.state == PageTableSwap && 0 <= vpn < PAGE_TABLE_SIZE()
    ensures var r := Next(m, vpn);
      && r.state == PageTableSwap && r.freePage == m.freePage && r.tlb == m.tlb
      && |r.physicalMemory| == |m.physicalMemory| && |r.pageTable| == |m.pageTable|
      && r.physicalMemory[m.freePage] == PhysicalPage(m.freePage, Some(vpn))
      && r.pageTable[vpn] == PageTableEntry(Some(m.freePage), true)
      && (forall f :: 0 <= f < |m.physicalMemory| && f != m.freePage ==> r.physicalMemory[f] == m.physicalMemory[f])
      && (forall v :: 0 <= v < |m.pageTable| && v != vpn ==> r.pageTable[v] == m.pageTable[v])
  {
  }

  /** A second swap for the same page rewrites the same two entries. */
  lemma SwapIsIdempotent(m: Machine, vpn: int)
    requires WellFormed(m) && m.state == PageTableSwap && 0 <= vpn < PAGE_TABLE_SIZE()
    ensures Next(Next(m, vpn), vpn) == Next(m, vpn)
  {
    var r := Next(m, vpn);
    var rr := Next(r, vpn);
    assert rr.physicalMemory == r.physicalMemory;
    assert rr.pageTable == r.pageTable;
  }

  /** PAGE_TABLE_ENTRY_PRESENT has no action: the state and the tables stay. */
  lemma PresentIsNoOp(m: Machine, vpn: int)
    requires m.state == PageTableEntryPresent
    ensures Next(m, vpn) == m
  {
  }

  /** TLB_EVICT and PAGE_EVICT have no case and land in `default`, which changes nothing. */
  lemma DefaultIsNoOp(m: Machine, vpn: int)
    requires m.state == TlbEvict || m.state == PageEvict
    ensures Next(m, vpn) == m
  {
  }

  /** No step writes the TLB, and only the swap writes the other two tables. */
  lemma OnlySwapWrites(m: Machine, vpn: int)
    requires m.state == PageTableLookup ==> 0 <= vpn < |m.pageTable|
    ensures Next(m, vpn).tlb == m.tlb
    ensures m.state != PageTableSwap ==>
      Next(m, vpn).pageTable == m.pageTable && Next(m, vpn).physicalMemory == m.physicalMemory
  {
  }

  /** Since the TLB is never filled, a search on a well-formed machine always misses. */
  lemma SearchAlwaysMisses(m: Machine, vpn: int)
    requires WellFormed(m) && m.state == TlbSearch
    ensures Next(m, vpn).state == TlbMiss
  {
  }

  /** Agreeing tables give every frame to at most one present page. */
  lemma ConsistentFramesUnshared(m: Machine)
    requires WellFormed(m) && Consistent(m)
    ensures FramesUnshared(m)
  {
  }

  /** Because the chosen frame is free (or already the page's), the swap leaves no frame shared. */
  lemma SwapKeepsFramesUnshared(m: Machine, vpn: int)
    requires Tracking(m, vpn) && m.state == PageTableSwap
    ensures FramesUnshared(Next(m, vpn))
  {
    NextKeepsTracking(m, vpn);
    ConsistentFramesUnshared(Next(m, vpn));
  }

  /** Driving the engine with one address keeps the tables in agreement at every step. */
  lemma {:induction false} RunKeepsTracking(m: Machine, vpn: int, n: nat)
    requires Tracking(m, vpn)
    ensures Tracking(Run(m, vpn, n), vpn)
    ensures FramesUnshared(Run(m, vpn, n))
    decreases n
  {
    if n == 0 {
      ConsistentFramesUnshared(m);
    } else {
      NextKeepsTracking(m, vpn);
      RunKeepsTracking(Next(m, vpn), vpn, n - 1);
    }
  }

  /** The machine after the first swap, starting from the initial tables. */
  function AfterFirstSwap(m: Machine, vpn: int): Machine
    requires 0 <= vpn < |m.pageTable| && 0 < |m.physicalMemory|
  {
    m.(state := PageTableSwap, freePage := 0,
       pageTable := m.pageTable[vpn := PageTableEntry(Some(0), true)],
       physicalMemory := m.physicalMemory[0 := PhysicalPage(0, Some(vpn))])
  }

  /** A fixpoint of `Next` stays put however many steps are taken. */
  lemma {:induction false} RunFromFixpoint(s: Machine, vpn: int, k: nat)
    requires WellFormed(s) && 0 <= vpn < PAGE_TABLE_SIZE() && Next(s, vpn) == s
    ensures Run(s, vpn, k) == s
    decreases k
  {
    if k > 0 {
      RunFromFixpoint(s, vpn, k - 1);
    }
  }

  /**
   * The whole translation of one address from the initial tables:
   * TLB_SEARCH, TLB_MISS, PAGE_TABLE_LOOKUP, PAGE_TABLE_FAULT with frame 0
   * free, then PAGE_TABLE_SWAP for good, with frame 0 holding the page and
   * the page present in frame 0 from the fifth step on.
   */
  lemma {:induction false} RunFromInitial(m: Machine, vpn: int, n: nat)
    requires Initial(m) && 0 <= vpn < PAGE_TABLE_SIZE()
    ensures WellFormed(m)
    ensures Run(m, vpn, n) ==
      if n == 0 then m
      else if n == 1 then m.(state := TlbMiss)
      else if n == 2 then m.(state := PageTableLookup)
      else if n == 3 then m.(state := PageTableFault)
      else if n == 4 then m.(state := PageTableSwap, freePage := 0)
      else AfterFirstSwap(m, vpn)
  {
    InitialIsWellFormed(m, vpn);
    var m1 := Next(m, vpn);
    SearchAlwaysMisses(m, vpn);
    assert m1 == m.(state := TlbMiss);
    var m2 := Next(m1, vpn);
    assert m2 == m.(state := PageTableLookup);
    var m3 := Next(m2, vpn);
    assert m3 == m.(state := PageTableFault);
    var m4 := Next(m3, vpn);
    assert m.physicalMemory[0].pageTableIdx == None;
    assert FindFreePage(m.physicalMemory) == 0;
    assert m4 == m.(state := PageTableSwap, freePage := 0);
    var m5 := Next(m4, vpn);
    assert m5.physicalMemory == m.physicalMemory[0 := PhysicalPage(0, Some(vpn))];
    assert m5.pageTable == m.pageTable[vpn := PageTableEntry(Some(0), true)];
    assert m5 == AfterFirstSwap(m, vpn);
    SwapIsIdempotent(m4, vpn);
    assert Run(m, vpn, 1) == m1;
    assert Run(m, vpn, 2) == m2 by { assert Run(m1, vpn, 1) == m2; }
    assert Run(m, vpn, 3) == m3 by { assert Run(m2, vpn, 1) == m3; assert Run(m1, vpn, 2) == m3; }
    assert Run(m, vpn, 4) == m4 by {
      assert Run(m3, vpn, 1) == m4; assert Run(m2, vpn, 2) == m4; assert Run(m1, vpn, 3) == m4;
    }
    if n >= 5 {
      RunFromFixpoint(m5, vpn, n - 5);
      assert Run(m4, vpn, n - 4) == Run(m5, vpn, n - 5);
      assert Run(m3, vpn, n - 3) == Run(m4, vpn, n - 4);
      assert Run(m2, vpn, n - 2) == Run(m3, vpn, n - 3);
      assert Run(m1, vpn, n - 1) == Run(m2, vpn, n - 2);
    }
  }

  /**
   * Consequences for one translation from the initial tables: the TLB is
   * never hit, a present entry is never found, nothing is evicted, and the
   * engine stays in PAGE_TABLE_SWAP once it gets there.
   */
  lemma {:induction false} StatesReachedFromInitial(m: Machine, vpn: int, n: nat)
    requires Initial(m) && 0 <= vpn < PAGE_TABLE_SIZE()
    ensures WellFormed(m)
    ensures Run(m, vpn, n).state in {TlbSearch, TlbMiss, PageTableLookup, PageTableFault, PageTableSwap}
    ensures n >= 4 ==> Run(m, vpn, n).state == PageTableSwap
  {
    RunFromInitial(m, vpn, n);
  }
}
