/**
 * The address-translation engine of the `VmSim` component: its three
 * tables, the vpn/vpo split of the virtual address, the table
 * initialisers and the one-step transition `nextState`.
 */
module VmSim {
  import opened Wrappers
  import opened JsNumbers
  import opened Config

  /** A TLB entry (`TLB`): a cached VPN -> PPN mapping, both null when empty. */
  datatype TlbEntry = TlbEntry(vpn: Option<int>, ppn: Option<int>)

  /** A page-table entry (`PTB`), indexed by virtual page number. */
  datatype PageTableEntry = PageTableEntry(ppn: Option<int>, presentBit: bool)

  /** A physical page frame (`PhysicalMem`); `pageTableIdx` names the resident virtual page, null when free. */
  datatype PhysicalPage = PhysicalPage(ppn: int, pageTableIdx: Option<int>)

  /** `VmState`, in declaration order. */
  datatype VmState =
    | TlbSearch
    | TlbHit
    | TlbEnd
    | TlbMiss
    | TlbEvict
    | PageTableLookup
    | PageTableFault
    | PageTableEntryPresent
    | PageTableSwap
    | PageEvict
    | PageTableEnd

  /** Everything `nextState` reads and writes: the state ref, the `freePage` ref and the three tables. */
  datatype Machine = Machine(
    state: VmState,
    freePage: int,
    tlb: seq<TlbEntry>,
    pageTable: seq<PageTableEntry>,
    physicalMemory: seq<PhysicalPage>)

  /** `(virtualAddress >>> 4) & 0x3`. */
  function Vpn(virtualAddress: int): (vpn: int)
    ensures 0 <= vpn < PAGE_TABLE_SIZE()
    ensures 0 <= virtualAddress < MAX ==> vpn == virtualAddress / PAGE_SIZE()
  {
    assert Pow2(2) == 4 && Pow2(4) == 16;
    LowBits(UnsignedShiftRight(virtualAddress, 4), 2)
  }

  /** `virtualAddress & 0xf`. */
  function Vpo(virtualAddress: int): (vpo: int)
    ensures 0 <= vpo < PAGE_SIZE()
    ensures 0 <= virtualAddress < MAX ==> vpo == virtualAddress % PAGE_SIZE()
  {
    assert Pow2(4) == 16;
    LowBits(virtualAddress, 4)
  }

  // ---------------------------------------------------------------------
  // Table initialisers: each builds its table with a `for` loop and `push`.

  method InitialTlb() returns (entries: seq<TlbEntry>)
    ensures |entries| == TLB_SIZE
    ensures forall i :: 0 <= i < |entries| ==> entries[i] == TlbEntry(None, None)
  {
    entries := [];
    for i := 0 to TLB_SIZE
      invariant |entries| == i
      invariant forall j :: 0 <= j < i ==> entries[j] == TlbEntry(None, None)
    {
      entries := entries + [TlbEntry(None, None)];
    }
  }

  method InitialPageTable() returns (entries: seq<PageTableEntry>)
    ensures |entries| == PAGE_TABLE_SIZE()
    ensures forall i :: 0 <= i < |entries| ==> entries[i] == PageTableEntry(None, false)
  {
    entries := [];
    for i := 0 to PAGE_TABLE_SIZE()
      invariant |entries| == i
      invariant forall j :: 0 <= j < i ==> entries[j] == PageTableEntry(None, false)
    {
      entries := entries + [PageTableEntry(None, false)];
    }
  }

  method InitialPhysicalMemory() returns (entries: seq<PhysicalPage>)
    ensures |entries| == PHYSICAL_PAGES
    ensures forall i :: 0 <= i < |entries| ==> entries[i] == PhysicalPage(i, None)
  {
    entries := [];
    for i := 0 to PHYSICAL_PAGES
      invariant |entries| == i
      invariant forall j :: 0 <= j < i ==> entries[j] == PhysicalPage(j, None)
    {
      entries := entries + [PhysicalPage(i, None)];
    }
  }

  /** The tables as the three initialisers leave them, before any step. */
  ghost predicate Initial(m: Machine)
  {
    && m.state == TlbSearch
    && m.freePage == -1
    && |m.tlb| == TLB_SIZE
    && (forall i :: 0 <= i < |m.tlb| ==> m.tlb[i] == TlbEntry(None, None))
    && |m.pageTable| == PAGE_TABLE_SIZE()
    && (forall v :: 0 <= v < |m.pageTable| ==> m.pageTable[v] == PageTableEntry(None, false))
    && |m.physicalMemory| == PHYSICAL_PAGES
    && (forall f :: 0 <= f < |m.physicalMemory| ==> m.physicalMemory[f] == PhysicalPage(f, None))
  }

  // ---------------------------------------------------------------------
  // The expressions `nextState` evaluates.

  /** `tlb.find(entry => entry.VPN === vpn) != undefined`. */
  predicate TlbContains(tlb: seq<TlbEntry>, vpn: int)
  {
    exists i :: 0 <= i < |tlb| && tlb[i].vpn == Some(vpn)
  }

  /** `physicalMemory.findIndex(entry => entry.PAGE_TABLE_IDX === null)`. */
  function FindFreePage(physicalMemory: seq<PhysicalPage>): (r: int)
    ensures -1 <= r < |physicalMemory|
    ensures r == -1 <==> forall f :: 0 <= f < |physicalMemory| ==> physicalMemory[f].pageTableIdx.Some?
    ensures r != -1 ==> physicalMemory[r].pageTableIdx == None
    ensures r != -1 ==> forall f :: 0 <= f < r ==> physicalMemory[f].pageTableIdx.Some?
  {
    FindFreePageFrom(physicalMemory, 0)
  }

  function FindFreePageFrom(physicalMemory: seq<PhysicalPage>, from: nat): (r: int)
    requires from <= |physicalMemory|
    ensures r == -1 || from <= r < |physicalMemory|
    ensures r == -1 <==> forall f :: from <= f < |physicalMemory| ==> physicalMemory[f].pageTableIdx.Some?
    ensures r != -1 ==> physicalMemory[r].pageTableIdx == None
    ensures r != -1 ==> forall f :: from <= f < r ==> physicalMemory[f].pageTableIdx.Some?
    decreases |physicalMemory| - from
  {
    if from == |physicalMemory| then -1
    else if physicalMemory[from].pageTableIdx == None then from
    else FindFreePageFrom(physicalMemory, from + 1)
  }

  /** `physicalMemory.map(...)` of the swap step: frame `freePage` now holds `vpn`. */
  function SwapPhysicalMemory(physicalMemory: seq<PhysicalPage>, freePage: int, vpn: int): seq<PhysicalPage>
  {
    seq(|physicalMemory|, i requires 0 <= i < |physicalMemory| =>
      if i == freePage then PhysicalPage(i, Some(vpn)) else physicalMemory[i])
  }

  /** `pageTable.map(...)` of the swap step: entry `vpn` is now present in frame `freePage`. */
  function SwapPageTable(pageTable: seq<PageTableEntry>, vpn: int, freePage: int): seq<PageTableEntry>
  {
    seq(|pageTable|, i requires 0 <= i < |pageTable| =>
      if i == vpn then PageTableEntry(Some(freePage), true) else pageTable[i])
  }

  /**
   * The shape every reachable machine has, whatever address it was driven
   * with: table sizes, frame numbers equal to their index, references that
   * stay inside the tables, and a TLB that is never written.
   */
  ghost predicate WellFormed(m: Machine)
  {
    && |m.tlb| == TLB_SIZE
    && (forall i :: 0 <= i < |m.tlb| ==> m.tlb[i] == TlbEntry(None, None))
    && |m.pageTable| == PAGE_TABLE_SIZE()
    && (forall v :: 0 <= v < |m.pageTable| && m.pageTable[v].ppn.Some? ==>
          0 <= m.pageTable[v].ppn.value < PHYSICAL_PAGES)
    && |m.physicalMemory| == PHYSICAL_PAGES
    && (forall f :: 0 <= f < |m.physicalMemory| ==> m.physicalMemory[f].ppn == f)
    && (forall f :: 0 <= f < |m.physicalMemory| && m.physicalMemory[f].pageTableIdx.Some? ==>
          0 <= m.physicalMemory[f].pageTableIdx.value < PAGE_TABLE_SIZE())
    && -1 <= m.freePage < PHYSICAL_PAGES
    && (m.state == PageTableSwap ==> 0 <= m.freePage)
  }

  /**
   * `nextState`: one step of the `switch` on the current state, for the
   * page number `vpn` of the current virtual address. States without a
   * case (`TlbEvict`, `PageEvict`) reach `default`, which only alerts.
   */
  function Next(m: Machine, vpn: int): (r: Machine)
    requires m.state == PageTableLookup ==> 0 <= vpn < |m.pageTable|
    ensures WellFormed(m) && 0 <= vpn < PAGE_TABLE_SIZE() ==> WellFormed(r)
  {
    match m.state
    case TlbSearch =>
      m.(state := if TlbContains(m.tlb, vpn) then TlbHit else TlbMiss)
    case TlbHit => m.(state := TlbEnd)
    case TlbEnd => m.(state := TlbSearch)
    case TlbMiss => m.(state := PageTableLookup)
    case PageTableLookup =>
      m.(state := if m.pageTable[vpn].presentBit then PageTableEntryPresent else PageTableFault)
    case PageTableEntryPresent => m
    case PageTableFault =>
      var free := FindFreePage(m.physicalMemory);
      m.(freePage := free, state := if free != -1 then PageTableSwap else PageEvict)
    case PageTableSwap =>
      m.(physicalMemory := SwapPhysicalMemory(m.physicalMemory, m.freePage, vpn),
         pageTable := SwapPageTable(m.pageTable, vpn, m.freePage))
    case PageTableEnd => m.(state := TlbSearch)
    case TlbEvict => m
    case PageEvict => m
  }

  /** `Next` applied `n` times with the same address. */
  function Run(m: Machine, vpn: int, n: nat): (r: Machine)
    requires WellFormed(m) && 0 <= vpn < PAGE_TABLE_SIZE()
    ensures WellFormed(r)
    decreases n
  {
    if n == 0 then m else Run(Next(m, vpn), vpn, n - 1)
  }

  /**
   * The page-table / physical-memory agreement: a present entry names a
   * frame that records it as its resident page, and an occupied frame is
   * named by the present entry of its resident page.
   */
  ghost predicate Consistent(m: Machine)
    requires WellFormed(m)
  {
    && (forall v :: 0 <= v < |m.pageTable| && m.pageTable[v].presentBit ==>
          m.pageTable[v].ppn.Some? && m.physicalMemory[m.pageTable[v].ppn.value].pageTableIdx == Some(v))
    && (forall f :: 0 <= f < |m.physicalMemory| && m.physicalMemory[f].pageTableIdx.Some? ==>
          m.pageTable[m.physicalMemory[f].pageTableIdx.value] == PageTableEntry(Some(f), true))
  }

  /**
   * What holds while one address `vpn` is being translated: the tables
   * agree, a fault was raised for a page that is not present, and the
   * swap installs `vpn` in a frame that is free or already holds it.
   */
  ghost predicate Tracking(m: Machine, vpn: int)
  {
    && WellFormed(m)
    && 0 <= vpn < PAGE_TABLE_SIZE()
    && Consistent(m)
    && (m.state == PageTableFault ==> !m.pageTable[vpn].presentBit)
    && (m.state == PageTableSwap ==>
          || (m.physicalMemory[m.freePage].pageTableIdx == None && !m.pageTable[vpn].presentBit)
          || (m.physicalMemory[m.freePage].pageTableIdx == Some(vpn)
              && m.pageTable[vpn] == PageTableEntry(Some(m.freePage), true)))
  }

  /** A frame backs at most one present page. */
  ghost predicate FramesUnshared(m: Machine)
  {
    forall v, w ::
      0 <= v < |m.pageTable| && 0 <= w < |m.pageTable| && v != w &&
      m.pageTable[v].presentBit && m.pageTable[w].presentBit
      ==> m.pageTable[v].ppn != m.pageTable[w].ppn
  }

  /**
   * One `VmSim` component instance: the `virtualAddress` prop, the three
   * table states and the `currentState`, `freePage` and `freeTlbEntry` refs.
   */
  class VmSim {
    var virtualAddress: int
    var tlb: seq<TlbEntry>
    var pageTable: seq<PageTableEntry>
    var physicalMemory: seq<PhysicalPage>
    var currentState: VmState
    var freePage: int
    var freeTlbEntry: int

    function Snapshot(): Machine
      reads this
    {
      Machine(currentState, freePage, tlb, pageTable, physicalMemory)
    }

    ghost predicate Valid()
      reads this
    {
      WellFormed(Snapshot()) && freeTlbEntry == -1
    }

    /** The tables agree and the step in progress is the one for the current address. */
    ghost predicate Coherent()
      reads this
    {
      Tracking(Snapshot(), Vpn(virtualAddress))
    }

    /** The first render: tables from the initialisers, both refs at -1, state `TlbSearch`. */
    constructor (virtualAddress: int)
      ensures this.virtualAddress == virtualAddress
      ensures Initial(Snapshot()) && freeTlbEntry == -1
      ensures Valid() && Coherent()
    {
      this.virtualAddress := virtualAddress;
      var t := InitialTlb();
      var pt := InitialPageTable();
      var pm := InitialPhysicalMemory();
      tlb, pageTable, physicalMemory := t, pt, pm;
      currentState := TlbSearch;
      freePage := -1;
      freeTlbEntry := -1;
      new;
      InitialIsWellFormed(Snapshot(), Vpn(virtualAddress));
    }

    /** A re-render with a new `virtualAddress` prop: refs and table states persist. */
    method SetVirtualAddress(a: int)
      requires Valid()
      modifies this`virtualAddress
      ensures Valid() && virtualAddress == a && Snapshot() == old(Snapshot())
      ensures old(Coherent()) && currentState !in {PageTableFault, PageTableSwap} ==> Coherent()
    {
      virtualAddress := a;
    }

    /** `nextState`, run when the "next" event fires. */
    method Step()
      requires Valid()
      modifies this
      ensures Valid()
      ensures Snapshot() == Next(old(Snapshot()), Vpn(virtualAddress))
      ensures virtualAddress == old(virtualAddress) && freeTlbEntry == old(freeTlbEntry)
      ensures old(Coherent()) ==> Coherent()
    {
      ghost var before := Snapshot();
      var vpn := Vpn(virtualAddress);
      match currentState {
        case TlbSearch =>
          if TlbContains(tlb, vpn) {
            currentState := TlbHit;
          } else {
            currentState := TlbMiss;
          }
        case TlbHit =>
          currentState := TlbEnd;
        case TlbEnd =>
          currentState := TlbSearch;
        case TlbMiss =>
          currentState := PageTableLookup;
        case PageTableLookup =>
          if pageTable[vpn].presentBit {
            currentState := PageTableEntryPresent;
          } else {
            currentState := PageTableFault;
          }
        case PageTableEntryPresent =>
        case PageTableFault =>
          freePage := FindFreePage(physicalMemory);
          if freePage != -1 {
            currentState := PageTableSwap;
          } else {
            currentState := PageEvict;
          }
        case PageTableSwap =>
          physicalMemory := SwapPhysicalMemory(physicalMemory, freePage, vpn);
          pageTable := SwapPageTable(pageTable, vpn, freePage);
        case PageTableEnd =>
          currentState := TlbSearch;
        case _ =>
          // default: alert('Invalid state!')
      }
      assert Snapshot() == Next(before, vpn);
      if Tracking(before, vpn) {
        NextKeepsTracking(before, vpn);
      }
    }
  }

  lemma InitialIsWellFormed(m: Machine, vpn: int)
    requires Initial(m) && 0 <= vpn < PAGE_TABLE_SIZE()
    ensures WellFormed(m) && Tracking(m, vpn)
  {
  }

  /** A step for a fixed address keeps the tables in agreement. */
  lemma NextKeepsTracking(m: Machine, vpn: int)
    requires Tracking(m, vpn)
    ensures Tracking(Next(m, vpn), vpn)
  {
    var r := Next(m, vpn);
    if m.state == PageTableSwap {
      var f := m.freePage;
      forall v | 0 <= v < |r.pageTable| && r.pageTable[v].presentBit
        ensures r.pageTable[v].ppn.Some? && r.physicalMemory[r.pageTable[v].ppn.value].pageTableIdx == Some(v)
      {
        if v != vpn {
          assert r.pageTable[v] == m.pageTable[v];
          assert m.pageTable[v].ppn.value != f;
        }
      }
      forall g | 0 <= g < |r.physicalMemory| && r.physicalMemory[g].pageTableIdx.Some?
        ensures r.pageTable[r.physicalMemory[g].pageTableIdx.value] == PageTableEntry(Some(g), true)
      {
        if g != f {
          assert r.physicalMemory[g] == m.physicalMemory[g];
        }
      }
    } else if m.state == PageTableFault {
      var free := FindFreePage(m.physicalMemory);
      if free != -1 {
        assert r.physicalMemory[r.freePage].pageTableIdx == None;
      }
    }
  }
}
