# VM-Demo address-translation engine in Dafny

This project models the core of VM-Demo, an interactive visualiser of virtual-to-physical
address translation. It has three parts:

- the `CONFIG` object of `src/utils/config.ts`: the address-space size `MAX = 64`,
  `TLB_SIZE = 2`, `PHYSICAL_PAGES = 3`, and the two derived sizes `PAGE_TABLE_SIZE()` and
  `PAGE_SIZE()`;
- the translation engine of the `VmSim` component in `src/components/VmSim.tsx`: the
  TLB, page table and physical-memory records, the split of a virtual address into a
  2-bit page number (vpn) and a 4-bit offset (vpo), the three table initialisers, and
  `nextState`, which advances a `VmState` state machine one step per "next" event;
- the `App` controller in `src/App.tsx`: the `reducer` over `InputState`, its initial
  state, and `submit_address`, which dispatches `'submit'` only for an address in
  `[0, MAX - 1]`.

Files and modules:

- `wrappers.dfy` (`Wrappers`): `Option`, which stands for TypeScript's `number | null`.
- `js_numbers.dfy` (`JsNumbers`): JavaScript's `>>>` (a ToUint32 conversion, then a
  division by 2^k) and its `&` with a mask `2^k - 1`. On a 32-bit two's-complement value
  that `&` is the non-negative remainder modulo 2^k. The numbers are written out on
  unbounded integers.
- `config.dfy` (`Config`): the constants are Dafny `const`s, so they are immutable as the
  frozen object is. `PageTableSizeOf` and `PageSizeOf` are the two derived-size
  expressions for any `MAX`, and `PAGE_TABLE_SIZE()` and `PAGE_SIZE()` apply them to `MAX`.
- `vm_sim.dfy` (`VmSim`): the record types and `VmState` as datatypes. `Machine` holds
  everything `nextState` reads and writes. `Next` is the `switch` of `nextState` as a
  function. The class `VmSim` has the component's prop, the table states and the refs as
  fields. Its `Step` method performs the `switch` on those fields and is proved to produce
  `Next` of the old state. The three initialisers are loops that append, as the source's
  `for`/`push` loops do.
- `vm_sim_properties.dfy` (`VmSimProperties`): lemmas about single steps and about runs.
- `app.dfy` (`App`): `Reducer` and the class `Controller` with `SubmitAddress`.

Two invariants structure the engine proofs:

- `WellFormed` holds after any step, whatever the address. It fixes the table sizes,
  requires each frame's number to equal its index, keeps every stored reference inside
  its table, and keeps the TLB empty, because no code writes it.
- `Tracking(m, vpn)` holds while a single address is being translated. It says the page
  table and physical memory agree (`Consistent`). It also says a fault was raised for a
  page that is not present, and the swap targets a frame that is free or already holds
  the page. This invariant implies that no frame backs two present pages
  (`FramesUnshared`).

The model follows the code as it stands. Only part of the translation flow is
implemented there:

- `PAGE_TABLE_ENTRY_PRESENT` and `PAGE_TABLE_SWAP` never change the state.
- `TLB_EVICT` and `PAGE_EVICT` fall to `default`.
- The TLB is never written, and `freeTlbEntry` stays `-1`.

As a result, translating one address from the initial tables always runs TLB_SEARCH,
TLB_MISS, PAGE_TABLE_LOOKUP, PAGE_TABLE_FAULT, and then PAGE_TABLE_SWAP for every later
step (`RunFromInitial`).

A fuller translation flow is not implemented in this version of the code: TLB
installation, random eviction of a TLB entry or a frame, a final state and the
physical-address output. The model does not add them. The page-table initialiser at
`src/components/VmSim.tsx:56` calls `CONFIG.PAGE_TBL_SIZE()`, a name `config.ts` does not
define (it defines `PAGE_TABLE_SIZE`). The model gives the page table `PAGE_TABLE_SIZE()`
(= 4) entries, which matches the `& 0x3` vpn mask.

## Model

| member | source | states |
|---|---|---|
| `Config.PageTableSizeOf` | src/utils/config.ts:5-7 | `((max - 1) >>> 4) + 1` is at least 1 and is the ceiling of max / 16: (r - 1) * 16 < max <= r * 16 |
| `Config.PageSizeOf` | src/utils/config.ts:8-10 | `((max - 1) & 0xF) + 1` lies in [1, 16]; it is 16 when max is a multiple of 16 and max itself when max <= 16 |
| `Config.ConfiguredSizes` | src/utils/config.ts:1-10 | with MAX = 64: PAGE_TABLE_SIZE() = 4, PAGE_SIZE() = 16, their product is MAX; TLB_SIZE = 2, PHYSICAL_PAGES = 3 |
| `Config.SizesTileAddressSpace` | src/utils/config.ts:5-10 | PAGE_TABLE_SIZE * PAGE_SIZE equals max exactly when max <= 16 or max is a multiple of 16 (both directions) |
| `Config.VpnMaskFitsPageTable` | src/components/VmSim.tsx:38 | the largest value of the `& 0x3` mask is PAGE_TABLE_SIZE() - 1, so a masked vpn indexes the page table |
| `VmSim.Vpn` | src/components/VmSim.tsx:38 | `(a >>> 4) & 0x3` lies in [0, PAGE_TABLE_SIZE()) for every integer a (also the -1 the component gets before a submission); for a in [0, MAX) it is a / 16 |
| `VmSim.Vpo` | src/components/VmSim.tsx:39 | `a & 0xf` lies in [0, PAGE_SIZE()); for a in [0, MAX) it is a mod 16 |
| `VmSimProperties.DecompositionReassembles` | src/components/VmSim.tsx:38-39 | for a in [0, MAX): vpn * 16 + vpo == a; address 0 splits into (0, 0) and MAX - 1 into (3, 15) |
| `VmSim.InitialTlb` | src/components/VmSim.tsx:43-52 | the loop builds exactly TLB_SIZE entries, each with VPN and PPN null |
| `VmSim.InitialPageTable` | src/components/VmSim.tsx:54-63 | the loop builds PAGE_TABLE_SIZE() entries, each with PPN null and present bit false |
| `VmSim.InitialPhysicalMemory` | src/components/VmSim.tsx:65-74 | the loop builds PHYSICAL_PAGES frames; frame i has PPN i and no resident page |
| `VmSim.VmSim.constructor` | src/components/VmSim.tsx:43-78 | first render: the tables as the initialisers build them, state TLB_SEARCH, `freePage` and `freeTlbEntry` -1; the invariants hold |
| `VmSim.InitialIsWellFormed` | src/components/VmSim.tsx:43-78 | the initial tables are well formed and in agreement, for any address |
| `VmSim.FindFreePage` | src/components/VmSim.tsx:120 | `findIndex` of a null PAGE_TABLE_IDX: -1 exactly when every frame is occupied, otherwise the lowest free frame |
| `VmSim.Next` | src/components/VmSim.tsx:80-152 | one `nextState` step; it keeps a well-formed machine well formed for any in-range vpn |
| `VmSim.VmSim.Step` | src/components/VmSim.tsx:80-152 | the `switch` run on the object's fields yields exactly `Next` of the old state for the current address's vpn; the prop and `freeTlbEntry` stay; well-formedness and agreement are kept |
| `VmSim.VmSim.SetVirtualAddress` | src/components/VmSim.tsx:37 | a new `virtualAddress` prop leaves the refs and tables as they were; agreement carries over unless a fault or swap for the old address is pending |
| `VmSim.NextKeepsTracking` | src/components/VmSim.tsx:118-145 | for a fixed address, a step keeps page table and physical memory in agreement (present entry <-> frame owner) |
| `VmSimProperties.SearchStep` | src/components/VmSim.tsx:83-90 | TLB_SEARCH goes to TLB_HIT iff some TLB entry has VPN == vpn, otherwise to TLB_MISS; nothing else changes |
| `VmSimProperties.HitSteps` | src/components/VmSim.tsx:93-100 | TLB_HIT -> TLB_END -> TLB_SEARCH, tables unchanged |
| `VmSimProperties.PageTableEndStep` | src/components/VmSim.tsx:146-149 | PAGE_TABLE_END -> TLB_SEARCH, tables unchanged |
| `VmSimProperties.MissAndLookupSteps` | src/components/VmSim.tsx:103-114 | TLB_MISS -> PAGE_TABLE_LOOKUP; the lookup goes to PAGE_TABLE_ENTRY_PRESENT iff the vpn's entry is present, else to PAGE_TABLE_FAULT; tables unchanged |
| `VmSimProperties.FaultStep` | src/components/VmSim.tsx:118-126 | a fault sets `freePage` to the lowest free frame or -1 if none, goes to PAGE_TABLE_SWAP iff `freePage != -1` and to PAGE_EVICT otherwise, with the tables unchanged |
| `VmSimProperties.SwapStep` | src/components/VmSim.tsx:127-145 | the swap sets frame `freePage` to {PPN: freePage, PAGE_TABLE_IDX: vpn} and entry vpn to {PPN: freePage, present}; every other entry, the TLB and the state are unchanged |
| `VmSimProperties.SwapIsIdempotent` | src/components/VmSim.tsx:127-145 | repeating the swap (the state does not advance) changes nothing further |
| `VmSimProperties.PresentIsNoOp` | src/components/VmSim.tsx:115-117 | PAGE_TABLE_ENTRY_PRESENT leaves state and tables unchanged |
| `VmSimProperties.DefaultIsNoOp` | src/components/VmSim.tsx:150-151 | TLB_EVICT and PAGE_EVICT reach `default`, which changes nothing |
| `VmSimProperties.OnlySwapWrites` | src/components/VmSim.tsx:80-152 | no step writes the TLB; only PAGE_TABLE_SWAP writes the page table or physical memory |
| `VmSimProperties.SearchAlwaysMisses` | src/components/VmSim.tsx:83-90 | since the TLB is never filled, a search on a well-formed machine always goes to TLB_MISS |
| `VmSimProperties.ConsistentFramesUnshared` | src/components/VmSim.tsx:127-145 | when the tables agree, no two present page-table entries share a PPN |
| `VmSimProperties.SwapKeepsFramesUnshared` | src/components/VmSim.tsx:127-145 | because the chosen frame was free, after the swap no two present entries share a PPN |
| `VmSimProperties.RunKeepsTracking` | src/components/VmSim.tsx:80-152 | any number of steps with one address keeps the tables in agreement and every frame unshared |
| `VmSimProperties.RunFromInitial` | src/components/VmSim.tsx:80-152 | from the initial tables, step n is exactly: TLB_MISS, PAGE_TABLE_LOOKUP, PAGE_TABLE_FAULT, PAGE_TABLE_SWAP with frame 0, then for n >= 5 frame 0 holds the vpn and the vpn is present in frame 0, with nothing else changed |
| `VmSimProperties.StatesReachedFromInitial` | src/components/VmSim.tsx:80-152 | one translation from the initial tables never reaches TLB_HIT, PAGE_TABLE_ENTRY_PRESENT or an evict state, and stays in PAGE_TABLE_SWAP from step 4 on |
| `App.Reducer` | src/App.tsx:24-41 | `'submit'` yields {address, nextToggle: true}; `'end'` keeps the address and clears nextToggle; any other action returns the state unchanged |
| `App.OnlySubmitChangesAddress` | src/App.tsx:24-41 | the submitted address changes only on `'submit'`, and then to the action's address |
| `App.SubmitThenEnd` | src/App.tsx:26-35 | `'end'` after `'submit'` of a leaves {a, nextToggle: false} |
| `App.EndIsIdempotent` | src/App.tsx:31-35 | a second `'end'` changes nothing |
| `App.SimulatedAddressOfValidState` | src/App.tsx:135 | the prop passed to `VmSim` is -1 exactly when nothing was submitted, otherwise an address in [0, MAX) |
| `App.Controller.constructor` | src/App.tsx:43-46 | initial state {submittedAddress: null, nextToggle: false}, empty field |
| `App.Controller.EnterAddress` | src/App.tsx:52-59 | the field holds the entered value (empty, or the number) |
| `App.Controller.SubmitAddress` | src/App.tsx:61-74 | empty field: the first alert; a number outside [0, MAX - 1]: the second alert; both leave the state unchanged; otherwise `'submit'` is dispatched with that address; only in-range addresses are ever submitted |

## Left out

- JSX rendering of the tables and the `ItemStyle` constants (presentation).
- The binary-string display of vpn and vpo (`toString(2).padStart`): it is formatting only.
- The document-level `'next.event'` broadcast and `handle_next`: a "next" event is a direct call of `VmSim.VmSim.Step`.
- React mechanics: `useCallback`'s dependency list can make `nextState` read table states from an earlier render. The model always reads the current tables. The `endCallback`/`msgCallback` props, which the shown `VmSim` does not accept, and App's message state are also left out.
- The "Ok"/"Next" buttons' `disabled` flags (JSX). They keep `submit_address` from running while a translation is in progress. Only that keeps the simulated address fixed, which the `Tracking` results assume.
- `console.log` and `alert`: no effect; the alerts appear only as `SubmitAddress`'s outcome.
- `get_rand` (uses `Math.random`) and the `Number(...)` parsing in `enter_address`. The field is modelled as empty or an integer, so NaN and fractional inputs are not modelled.
- Random eviction, TLB installation and the physical-address output: the code does not implement them.
