# A verified model of the Yosys kernel's circuit rewriting

This project models, in Dafny, the parts of the Yosys kernel that rewrite a circuit and must keep its meaning,
the containers and indexes they rest on, and the arithmetic that is compiled in more than one way. Every file is
one component. `dafny verify dfyconfig.toml` checks the whole project.

**Sequential rewriting.** `Signals` holds three-valued levels, bits as expressions over wires, and the cells the
rewrites use. `FlipFlops` models `FfData`: a register is a record of controls with polarities, one step follows
the priority order documented in `kernel/ff.h`, and every rewrite is proved to keep the runs of the visible
output, in both directions, over any sequence of rewrites. `MemPorts` gives the ports of `Mem` their meaning over
time, after the simulation model of the `$mem_v2` cell (`techlibs/common/simlib.v`). `MemReadControl`,
`MemTransparency`, `MemRdff`, `MemWriteSide`, `MemWidth` and `MemReadFirst` prove the simulation results, by
induction over runs, and `Memory` is the class whose methods rewrite the ports in place. `MemNets` shows that a
memory with the registers and cells around it has a run for every environment unless a combinational loop goes
through it; `MemRewiring` and `MemLoops` show that no rewrite closes one, so the simulation results are not
vacuous. `MemInits` is the merging of memory initialisers. `Aiger` builds the and-inverter graph of a netlist with
zero-initialised latches and relates its runs to those of the netlist; `AigerProperties` gives the liveness and
fairness encodings their meaning over infinite runs; `AigerFile` is the binary encoding of the gates.

**Containers and indexes.** `Hashlib` is the chained hash table with dense entries and swap-with-last erase;
`SigMaps` is the union-find with path compression and re-rooting and the signal map on top of it; `ModIndex` is
the incrementally maintained index on top of that; `TopoSort`, `StackMap` and `BitPatterns` are the depth-first
sort with loop reports, the map with save and restore, and the pattern pool that is edited while it is iterated
(it runs on the hash table of `Hashlib`).

**Arithmetic compiled two ways.** `BitVectors` relates bit vectors to integers modulo a power of two. `Division`
has the constant folder and the SAT encoder's circuits for the division family and multiplication, `Power` the
folder for powers, `CellAigs` the structurally hashed graph for adders and comparisons with its clean-up, and
`Macc` the multiply-accumulate cell: optimiser, evaluator, circuit and cell encoding.

How the model reads the code:

- A *run* is a sequence of levels on all wires. A rewritten port or register *keeps* the original when every run
  of the new logic, on the wires there were, is a run of the original. A don't-care of the original may become
  anything.
- Results about registers hold for all runs in which, at every possible edge, no undefined clock enable meets an
  active synchronous reset it gates and no undefined reset an inactive enable it overrides
  (`FlipFlops.ConversionExact` shows that this is exact).
- Results about memories name what they take for granted as a `Given`: that the controls of a clocked read port are
  definite when they take effect, that certain writers are definite, and that certain writers hit one stored bit only
  in the order of their priority. A *definite* writer is one that is removed, or has no edge, or has definite enables
  and, unless all of them are off, a definite address. Read addresses, stored data, unclocked read ports and all other
  writers are free. Inputs are *legal* when they meet the `Given`, and rewrites keep legal inputs legal.
- Where a row speaks of a run for every environment, the memory had no combinational loop before the rewrite. The
  wires an environment is free to drive stay the same: no rewrite drives a wire that was there and had no driver
  (`MemNets.KeepsInputs`, part of what every method on read ports promises).
- New cells are expressions over wires; new wires are numbered from a counter. Cell names, attributes and log
  output are not modelled.
- Hash functions and the table sizes chosen for them are parameters. Vector capacities, on which rehashing
  depends, are left open. Loops over standard ordered sets and maps are modelled for every order.

What the proofs say about the code:

- `aload_to_sr` on a register that also has an asynchronous reset makes the load win over the reset
  (`FlipFlops.AloadToSrExact`).
- `emulate_read_first` leaves wide write ports with addresses that fail `Mem::check`
  (`Memory.Mem.EmulateReadFirst`, `Memory.ReadFirstChecked`).
- `ModIndex` joins the two sides of a connection whose left side is a constant, although the module does not keep
  that connection. It answers wrongly at once or after some later change exactly when a bit across from such a
  constant is not on a constant net of the module (`ModIndexes.ConstantOnTheLeft`).
- `Macc::optimize` changes the sum of ports that have a second factor but no first one, exactly when their bits do
  not balance out (`Maccs.Macc.Optimize`, `Maccs.BalancedIff`).
- The graph for `$add` and `$sub` extends each operand by its own sign flag, the folder by both flags together
  (`CellAigs.AddSubAgrees`). The cell checker (`kernel/rtlil.cc:1084-1100`) rejects cells with unequal flags.
- `const_pow` folds a base whose bits are undefined or 0 to 0 under a positive exponent (`Power.ConstPow`).

## Model

| member | source | states |
|---|---|---|
| `FlipFlops.FfData.ArstToAload` | kernel/ff.cc:362-370 | replacing the asynchronous reset by an asynchronous load of the reset value keeps the next value of every bit for all controls |
| `FlipFlops.FfData.ArstToSr` | kernel/ff.cc:372-387 | replacing the asynchronous reset by set and clear keeps every next value, at all levels of all inputs, when the reset value is defined; while the reset is active exactly the bits with a reset value of 1 are set and all others cleared, and apart from undefined reset bits nothing changes |
| `FlipFlops.FfData.AloadToSr` | kernel/ff.cc:389-415 | for every polarity, coarse and fine, and for undefined load data too: set and clear have the effect of the load when there is no asynchronous reset; with one, the result is exactly the register whose load wins over the reset |
| `FlipFlops.AloadToSrExact` | kernel/ff.cc:389-415 | for a latch on separate wires the rewrite keeps the behaviour if and only if there is no asynchronous reset; the failing levels are exhibited |
| `FlipFlops.FfData.LoadControls` | kernel/ff.cc:394-414 | at all levels, undefined ones included, clear is the load of a 0 and set the load of a 1, for both polarities and both cell kinds |
| `FlipFlops.FfData.ConvertCeOverSrst` | kernel/ff.cc:417-488 | changing which of clock enable and synchronous reset wins keeps every next value wherever the outcome of a possible edge is decided, for all polarities and both cell kinds |
| `FlipFlops.ConversionExact` | kernel/ff.cc:417-488 | on one sample the conversion keeps the stored value for all data exactly when no undefined enable meets an active reset it gates, and no undefined reset an inactive enable it overrides |
| `FlipFlops.FfData.UnmapCe` | kernel/ff.cc:490-509 | the register without clock enable has the same next values; a reset that the enable guarded is unmapped too |
| `FlipFlops.FfData.UnmapSrst` | kernel/ff.cc:511-529 | the register without synchronous reset has the same next values |
| `FlipFlops.FfData.FlipSetClear` | kernel/ff.cc:692-741 | after flipping, the flipped bits clear where only set was active and set where clear was active, so clear still wins |
| `FlipFlops.FfData.FlipBits` | kernel/ff.cc:672-755 | nothing for an empty set; otherwise the new register holds the complement of the flipped bits and the old output is driven from it, with all reset and initial values inverted |
| `FlipFlops.FfData.Apply` | kernel/ff.cc:362-755 | a rewrite the register allows is one step of a rewriting chain and leaves the register without what it replaces; any other leaves it alone |
| `FlipFlops.FfData.ApplyAll` | kernel/ff.cc:362-755 | any finite sequence of rewrites is a chain from the original register to the result, and every one of them has been performed in its turn |
| `FlipFlops.RewriteKeepsRuns` | kernel/ff.cc:362-755 | every run of a rewritten register is a run of the original: the old output takes the same values; only an enable and a synchronous reset that compete need be definite |
| `FlipFlops.RewriteExtendsRuns` | kernel/ff.cc:362-755 | every run of the original extends, on fresh wires only, to a run of the rewritten register |
| `FlipFlops.ChainKeepsRuns` | kernel/ff.h:28-55 | over any sequence of rewrites, every run of the result is a run of the original under the priority order of the header; everything may be undefined at any time except a competing enable and reset that leave a possible edge undecided |
| `FlipFlops.ChainExtendsRuns` | kernel/ff.h:28-55 | over any sequence of rewrites, every run of the original is a run of the result on the wires there were, under the same hypothesis |
| `Memory.Mem.EmulateRdCeOverSrst` | kernel/mem.cc:1542-1551 | afterwards reset wins over enable, and only the reset input changed, to its conjunction with the enable where that matters; every run in which no undefined enable meets an active reset at a possible edge is a run before, no combinational loop is closed, and the result has a run for every environment |
| `Memory.Mem.EmulateRdSrstOverCe` | kernel/mem.cc:1553-1562 | afterwards enable wins over reset, and only the enable input changed, to its disjunction with the reset where that matters; every run in which no undefined reset meets an inactive enable at a possible edge is a run before, no combinational loop is closed, and the result has a run for every environment |
| `MemReadControl.NarrowedReset` | kernel/mem.cc:1542-1551 | gating the reset with the enable does the same to every sample as letting the enable win, exactly when no undefined enable meets an active reset |
| `MemReadControl.WidenedEnable` | kernel/mem.cc:1553-1562 | widening the enable by the reset does the same to every sample as letting the reset win, exactly when no undefined reset meets an inactive enable |
| `Memory.Mem.AddMask` | kernel/mem.cc:1419-1464 | one emulated value: a register that follows the port selects between a fixed value and the new port, and every run is a run before |
| `MemReadControl.MaskRefines` | kernel/mem.cc:1417-1540 | by induction over the run: selector and new port together show what the old port with its initial value and resets shows, whatever the address and the writers do |
| `Memory.Mem.EmulateReset` | kernel/mem.cc:1417-1540 | for every choice of the three flags, shared multiplexers included: exactly the asked-for values are gone, the others and everything but the data wires stay; every run with definite controls of the port is a run before, no combinational loop is closed, and the result has a run for every environment |
| `Memory.Mem.EmulateInitValue` | kernel/mem.cc:1419-1464 | the initial value is emulated, together with a reset to the same value only when that is asked for too |
| `Memory.Mem.EmulateAsyncReset` | kernel/mem.cc:1465-1504 | the asynchronous reset is emulated, together with a synchronous reset to the same value only when that is asked for too |
| `Memory.Mem.EmulateSyncReset` | kernel/mem.cc:1505-1539 | the synchronous reset is emulated and only the data wires change besides |
| `Memory.Mem.EmulateRden` | kernel/mem.cc:1356-1415 | the port is always enabled, without resets and initial value, and otherwise as before but for fresh data wires; every run with definite controls of the port is a run before, no combinational loop is closed, and the result has a run for every environment |
| `Memory.Mem.AddHold` | kernel/mem.cc:1362-1414 | the holding register and the selector, on a port whose reset wins over its enable, keep the reads, no combinational loop is closed, and the result has a run for every environment |
| `MemReadControl.EnableRefines` | kernel/mem.cc:1356-1415 | by induction over the run: the holding register and the multiplexer show what the enabled port shows, whatever the address and the writers do |
| `Memory.Mem.EmulateTransparency` | kernel/mem.cc:1116-1205 | terminates; the entries that become collision don't-cares are exactly that of the given port and those priority leads to from it; the rest of the port stays but for the data wires; every run of the read port is a run before while the writers it sees through from there on are definite and meet only in the order of their priority; no combinational loop is closed, and the result has a run for every environment |
| `Memory.WhichMove` | kernel/mem.cc:1120-1126 | every entry that moves is that of the given port or of one written over another that moves, and no port still seen through is written over one that moved |
| `Memory.Mem.AddBypass` | kernel/mem.cc:1127-1204 | the layers for one write port, for every mix of widths, make up for the dropped transparency in every run in which that port is definite |
| `Memory.Mem.AddLayer` | kernel/mem.cc:1135-1201 | one subword: address comparison, enable and data registered in the clock domain of the port, one multiplexer per bit |
| `Memory.Mem.GroupEnd` | kernel/mem.cc:1152-1154 | the longest run of bits from a position on that share a write enable |
| `MemTransparency.BypassRefines` | kernel/mem.cc:1116-1205 | by induction over the run: new port plus registered layers show what the transparent port shows, wherever the write port is definite and no write the read port sees through hits the same bit out of order |
| `MemTransparency.HitSound` | kernel/mem.cc:1135-1200 | a layer that fires has found a write to the sampled bit and holds its data; none fires for a port whose enables are off, whatever its address |
| `MemTransparency.HitComplete` | kernel/mem.cc:1135-1200 | every write to the sampled bit makes some layer fire |
| `Memory.Mem.ExtractRdff` | kernel/mem.cc:849-1009 | a clocked port becomes asynchronous and nothing of its clock, enable, resets, initial value and masks is left, while it stays present and as wide; which place the register takes is decided by the guard, and accordingly data or address stay; every run of the memory with the separate register is a run of the clocked port, only writers the masks mention need be definite, and none when the register moves to the address; no combinational loop is closed, and the result has a run for every environment |
| `Memory.Mem.RegisterOutput` | kernel/mem.cc:906-986 | the register drives the old data wires and starts at the port's initial value; behind it sits what the masks would show |
| `Memory.Mem.TransUseAddr` | kernel/mem.cc:857-878 | decides exactly when the register moves to the address input |
| `Memory.Mem.RegisterAddress` | kernel/mem.cc:880-905 | registers the wires of the address and leaves its constants in place |
| `Memory.Mem.OverlayWriters` | kernel/mem.cc:910-956 | the vector in front of the output register, built group by group, is the overlay of all writers the port is transparent to or undefined with |
| `MemRdff.OutputRdffRefines` | kernel/mem.cc:906-986 | by induction over the run: asynchronous port, overlay and output register show what the clocked port shows, for all width mixes |
| `MemRdff.AddressRdffRefines` | kernel/mem.cc:880-905 | by induction over the run: the asynchronous port behind the registered address shows what the free-running transparent port shows |
| `MemRdff.DataAfterRefines` | kernel/mem.cc:910-956 | the overlaid data is what the port samples at an edge, with writers whose address is undefined while they are off |
| `Memory.Mem.EmulatePriority` | kernel/mem.cc:1072-1114 | while the two ports are definite, contents at every step are preserved and they never write one stored bit in the same step; every read port keeps its reads, and legal inputs stay legal; only the loser's enables change, and of the read ports only data wires and masks of those that would miss the winner; the result passes the consistency check, no combinational loop is closed, and the result has a run for every environment |
| `Memory.Mem.ShowWinner` | kernel/mem.cc:1078-1084 | afterwards every read port that is transparent to the loser sees the winner, or its collision with it, and all read ports are preserved |
| `MemWriteSide.PrioritisedSame` | kernel/mem.cc:1072-1114 | the contents at every instant of every run in which the two ports are definite are those of the prioritised ports |
| `MemWriteSide.MaskedWrites` | kernel/mem.cc:1085-1112 | the loser writes exactly where it did and the winner does not, so the two never enable one stored bit at once |
| `MemWriteSide.PrioritisedAllowed` | kernel/mem.cc:1072-1114 | definite writers stay definite and no conflict appears although the order is gone |
| `MemWriteSide.MaskLayer` | kernel/mem.cc:1096-1111 | gates shared between bits with equal enables compute the same enables as one gate per bit |
| `Memory.Mem.WidenPrep` | kernel/mem.cc:1310-1321 | start and size become multiples, no word is lost and less than one wide word is added at either end |
| `Memory.Mem.WidenWrPort` | kernel/mem.cc:1323-1354 | while the widened port is definite, contents at every step and every read port are preserved, and legal inputs stay legal; the port keeps its clock, priority and high address bits; no word is lost and less than a wide word is added at either end; the result passes the consistency check, no combinational loop is closed, and the result has a run for every environment |
| `MemWidth.WidenedSame` | kernel/mem.cc:1323-1354 | the contents at every instant of every run in which the port is definite are those of the narrow port |
| `Memory.Mem.Narrow` | kernel/mem.cc:1011-1070 | all read and write ports have one word, and each is its wide port with the slices and address of its subword and every mask and priority bit repeated; while the wide write ports are definite, contents at every step are preserved, a wide read port runs whenever all its narrow ports run, and legal inputs stay legal; the result passes the consistency check, no combinational loop is closed, and the result has a run for every environment |
| `Memory.SplitNarrowed` | kernel/mem.cc:1031-1067 | field by field what a narrow port takes from its wide one, for every position in the new lists |
| `MemWidth.NarrowSame` | kernel/mem.cc:1052-1067 | splitting the write ports leaves the contents at every instant of every run as they were |
| `MemWidth.NarrowReads` | kernel/mem.cc:1031-1051 | together the narrow read ports show what the wide one shows, with masks repeated for every split write port |
| `MemWidth.PortMap` | kernel/mem.cc:1019-1030 | the map lists every word of every port once, in port order |
| `Memory.Mem.EmulateReadFirstOk` | kernel/mem.cc:1564-1592 | true exactly when all ports share one clock and some read port must see old contents |
| `Memory.Mem.EmulateReadFirst` | kernel/mem.cc:1594-1645 | with every write port delayed by a cycle and every read port transparent to all and otherwise as before but for data wires, every run is a run before, and legal inputs stay legal if the delayed enables start at 0; no combinational loop is closed, and the result has a run for every environment; the result passes the consistency check exactly when no write port is wide |
| `MemReadFirst.DelayedContents` | kernel/mem.cc:1608-1644 | the simulation invariant over every run with definite edges: delayed contents plus the waiting writes are the original contents, whatever the writers do |
| `MemReadFirst.DelayedReads` | kernel/mem.cc:1594-1645 | a port made transparent to the delayed writes shows its read-first output at every instant of every run with definite edges, whatever the writers do |
| `MemReadFirst.DelayedAllowed` | kernel/mem.cc:1608-1644 | with enables that start at 0, delayed writers are as definite as the original ones and meet no more often |
| `MemReadFirst.CompressEn` | kernel/mem.cc:1647-1662 | neighbouring equal bits are dropped and the index map says where each bit went |
| `MemReadFirst.DecompressEn` | kernel/mem.cc:1664-1669 | carries any vector back along the index map, so it undoes the compression |
| `Memory.ReadFirstChecked` | kernel/mem.cc:1594-1645 | why wide ports fail the check: a delayed address is a register output and no longer visibly aligned |
| `Memory.LoopfreeRuns` | kernel/mem.cc:849-1645 | a memory with added registers and cells that has no combinational loop can be run, whatever the contents and the environment |
| `Memory.RewriteRuns` | kernel/mem.cc:849-1645 | so no rewrite is vacuous: for every environment the rewritten memory has a run, and in it the old port reads what it did if the run meets what the rewrite takes for granted; with controls from outside the environment alone decides that |
| `Memory.EmulatedPreserves` | kernel/mem.cc:849-1540 | rewrites compose: a step on one read port preserves every read port and keeps legal inputs legal |
| `MemNets.HasRun` | techlibs/common/simlib.v:2475-2590 | whatever the environment does, there are levels for all driven wires under which every register, cell and read port runs; undriven wires follow the environment |
| `MemRewiring.RewireLoopfree` | kernel/mem.cc:1116-1540 | moving data wires of a read port behind new multiplexers and registers leaves an order in which every instant can be evaluated |
| `MemRewiring.OutputLoopfree` | kernel/mem.cc:906-986 | so does a register behind an asynchronous port |
| `MemRewiring.AddressLoopfree` | kernel/mem.cc:880-905 | so does a register in front of the address |
| `MemRewiring.DelayLoopfree` | kernel/mem.cc:1609-1644 | so do registers on the inputs of a write port |
| `MemRewiring.ReslicedLoopfree` | kernel/mem.cc:1011-1070 | so does splitting ports |
| `MemLoops.GroupReady` | kernel/mem.cc:1149-1200 | one group of a bypass layer closes no loop, and the wires reserved for the other groups stay unused |
| `MemInits.MemInitList.CoalesceInits` | kernel/mem.cc:343-430 | every bit starts as before (last writer wins), live initialisers are fully enabled and pairwise separated by a free address, and the initialised addresses are those that were |
| `MemInits.MemInitList.GetInitData` | kernel/mem.cc:432-443 | every bit of every word in range holds what the last enabled initialiser covering it says, and is undefined where none does |
| `MemInits.MemInitList.FindChunks` | kernel/mem.cc:345-384 | initialisers that enable nothing are removed; the chunks are separated and hold exactly the addresses of the others |
| `MemInits.AddChunk` | kernel/mem.cc:358-383 | the chunks stay ordered and separated and gain exactly the given addresses, whatever they overlap or touch |
| `MemInits.MemInitList.GroupInits` | kernel/mem.cc:385-397 | every chunk lists exactly the live initialisers that lie in it, in order |
| `MemInits.MemInitList.CombineInits` | kernel/mem.cc:413-425 | the merged data is what the listed initialisers leave when written in order |
| `MemInits.MemInitList.SettleChunk` | kernel/mem.cc:398-429 | one chunk is settled without changing any bit's initial state |
| `MemInits.MaskData` | kernel/mem.cc:403-411 | a lone initialiser shows the same states when fully enabled |
| `MemInits.OffsetFits` | kernel/mem.cc:416-418 | the bounds the code asserts hold |
| `Hashlib.Dict.DoRehash` | kernel/hashlib.h:239-250 | the rebuilt buckets are acyclic, disjoint and hold every entry |
| `Hashlib.Dict.DoLookup` | kernel/hashlib.h:301-319 | finds the entry of the key if and only if there is one, rebuilding first when the table is too small |
| `Hashlib.Dict.DoInsert` | kernel/hashlib.h:334-345 | appends one entry and keeps the buckets right |
| `Hashlib.Dict.Insert` | kernel/hashlib.h:457-465 | behaves as insertion into a finite map and leaves present keys alone |
| `Hashlib.Dict.Find` | kernel/hashlib.h:545-552 | the place of the key, or none exactly when the map does not have it |
| `Hashlib.Dict.Count` | kernel/hashlib.h:531-536 | 1 exactly when the map has the key |
| `Hashlib.Dict.DoErase` | kernel/hashlib.h:252-299 | unlinks the entry, moves the last one into its place, relinks it and keeps the buckets right |
| `Hashlib.Dict.TurnLink` | kernel/hashlib.h:258-271 | the walk finds the link to the entry and turns only that one |
| `Hashlib.Dict.MoveBack` | kernel/hashlib.h:273-297 | the moved entry is found under its own hash again |
| `Hashlib.Dict.Erase` | kernel/hashlib.h:517-522 | behaves as removal from a finite map, and the last entry takes the place of the erased one |
| `Hashlib.Dict.EraseAt` | kernel/hashlib.h:524-529 | erasing through an iterator removes that key and steps on |
| `Hashlib.Dict.EraseIf` | kernel/hashlib.h:524-529 | a loop that erases while iterating visits every original entry exactly once and keeps exactly the others |
| `Hashlib.Dict.Clear` | kernel/hashlib.h:639 | the empty map |
| `Hashlib.PushFront` | kernel/hashlib.h:321-332 | a new entry in front of its bucket keeps all buckets acyclic, disjoint and complete |
| `Hashlib.Unlink` | kernel/hashlib.h:257-271 | taking an entry out of its bucket keeps all buckets right for the other entries |
| `Hashlib.Relink` | kernel/hashlib.h:273-295 | moving an entry to a free place keeps all buckets right |
| `SigMaps.Mfp.Index` | kernel/hashlib.h:1098-1103 | a known key keeps its index, a new one becomes a root of its own |
| `SigMaps.Mfp.IFind` | kernel/hashlib.h:1110-1124 | terminates with the root, and path compression keeps all representatives |
| `SigMaps.Mfp.IMerge` | kernel/hashlib.h:1126-1133 | joins exactly the two classes under the second representative |
| `SigMaps.Mfp.IPromote` | kernel/hashlib.h:1135-1146 | re-rooting makes the element the representative of its class and changes no other class |
| `SigMaps.Mfp.Find` | kernel/hashlib.h:1153-1159 | the representative; an unknown key stands for itself |
| `SigMaps.Mfp.Promote` | kernel/hashlib.h:1166-1171 | promotes a known key and changes nothing for an unknown one |
| `SigMaps.SigMap.AddPair` | kernel/sigtools.h:271-287 | every bit's representative afterwards is determined: the two classes are joined under a constant if there is one, else under the second; two constants are kept apart |
| `SigMaps.SigMap.Add` | kernel/sigtools.h:265-288 | every bit's representative afterwards is what joining the pairs one after the other gives |
| `SigMaps.SigMap.AddBit` | kernel/sigtools.h:290-295 | the bit becomes the representative of its class unless that holds a constant, and no other bit's representative changes |
| `SigMaps.SigMap.Apply` | kernel/sigtools.h:305-308 | the representative, which is the constant if the class has one |
| `SigMaps.SigMap.ApplyAll` | kernel/sigtools.h:310-314 | every bit is replaced by its representative and the map is left as it was; unless two constants clash, two bits get one representative if and only if the equivalence closure of the added pairs relates them |
| `SigMaps.SharedIffConnected` | kernel/sigtools.h:265-308 | sharing a representative is exactly the closure of the merged pairs |
| `SigMaps.SharedIffClosure` | kernel/sigtools.h:265-308 | without clashing constants, sharing a representative is exactly the closure of all added pairs |
| `SigMaps.ConstantStands` | kernel/sigtools.h:277-285 | a class holds at most one constant, which is its representative |
| `ModIndexes.ModIndex.SetPort` | kernel/modtools.h:161-170 | after a port change the index is that of the changed module |
| `ModIndexes.ModIndex.UnsetPort` | kernel/modtools.h:161-170 | after a port is removed the index is that of the changed module |
| `ModIndexes.ModIndex.PortAdd` | kernel/modtools.h:81-88 | puts every bit of the signal on its net |
| `ModIndexes.ModIndex.PortDel` | kernel/modtools.h:90-97 | takes every bit of the signal off its net |
| `ModIndexes.ModIndex.NotifyPort` | kernel/modtools.h:161-170 | the entries become those of the module with the new signal, or stay when a reload is pending |
| `ModIndexes.ModIndex.ConnectBit` | kernel/modtools.h:181-213 | all four cases move, merge or drop the entries as the joined nets demand |
| `ModIndexes.ModIndex.NotifyConnect` | kernel/modtools.h:172-215 | nets and entries become those of the connections with the new pairs |
| `ModIndexes.ModIndex.Connect` | kernel/rtlil.cc:2237-2266 | the index is that of the module afterwards if and only if every bit across from a constant on the left ends up on a constant net of the module |
| `ModIndexes.ModIndex.ReloadModule` | kernel/modtools.h:104-130 | the index built from scratch is that of the module |
| `ModIndexes.ModIndex.Blackout` | kernel/modtools.h:217-227 | whatever happened to the module, the next query starts from scratch |
| `ModIndexes.ModIndex.Query` | kernel/modtools.h:241-251 | after any run of changes the answer is right for the net of the bit: whether a module input or output is on it, and exactly the cell pins on it; nothing for a net with a constant |
| `ModIndexes.AnswerUnique` | kernel/modtools.h:132-159 | there is one right answer, so an index kept up to date agrees with a rebuilt one up to entries that say nothing |
| `ModIndexes.EntriesJoined` | kernel/modtools.h:181-213 | joining two nets: the joined entries are those of the joined nets |
| `ModIndexes.ConstantOnTheLeft` | kernel/modtools.h:172-215 | all answers are right now and after whatever is connected and put on cell ports later, if and only if every bit across from a constant on the left ends up on a constant net of the module |
| `ModIndexes.ToldAlike` | kernel/rtlil.cc:2246-2257 | under the same condition, and only then, the nets joined in the index are those of the module up to which constant stands for a net |
| `ModIndexes.ConstantLeftBreaks` | kernel/rtlil.cc:2246-2257 | a module input that loses its entry this way although the module has not changed |
| `TopoSorts.TopoSort.Edge` | kernel/utils.h:151-155 | both ends are nodes and exactly one predecessor is added |
| `TopoSorts.TopoSort.SortWorker` | kernel/utils.h:157-192 | terminates on every graph; the node is output after its predecessors, or the search has come back to it and a loop is reported |
| `TopoSorts.TopoSort.CollectLoop` | kernel/utils.h:161-170 | the reported set is the node set of a real cycle, the part of the search path from the node on |
| `TopoSorts.TopoSort.Sort` | kernel/utils.h:194-209 | every node is output exactly once; true if and only if the graph is acyclic, and then every node follows its predecessors; otherwise only an edge on a cycle may run backwards, and a reported loop holds both its ends if loops are analyzed; reported loops are real cycles and every cycle has an edge inside one |
| `TopoSorts.CycleReported` | kernel/utils.h:157-209 | no cycle escapes: along edges that closed no loop the output position falls |
| `StackMaps.StackMap.Set` | kernel/utils.h:63-68 | changes one key and nothing that will be restored |
| `StackMaps.StackMap.Unset` | kernel/utils.h:70-75 | removes one key and changes nothing that will be restored |
| `StackMaps.StackMap.Assign` | kernel/utils.h:46-56 | replaces the contents and changes nothing that will be restored |
| `StackMaps.StackMap.Save` | kernel/utils.h:102-105 | opens a level for the present state |
| `StackMaps.StackMap.Restore` | kernel/utils.h:107-118 | gives back exactly the state of the matching save, at any nesting |
| `StackMaps.ChangeKeeps` | kernel/utils.h:63-75 | backing up a key before its first change keeps what will be restored |
| `BitPatterns.BitPatternPool.constructor` | kernel/bitpattern.h:54-78 | the pool holds exactly the vectors of the signal, and none at width 0 |
| `BitPatterns.BitPatternPool.Match` | kernel/bitpattern.h:90-98 | true exactly when the two patterns have a vector in common |
| `BitPatterns.BitPatternPool.HasAny` | kernel/bitpattern.h:100-107 | true exactly when some vector of the signal is in the pool |
| `BitPatterns.BitPatternPool.HasAll` | kernel/bitpattern.h:109-121 | true exactly when every vector of the signal is in the pool, however the pool was cut before |
| `BitPatterns.BitPatternPool.Take` | kernel/bitpattern.h:123-143 | removes exactly the vectors of the signal, although the table is changed while it is iterated, and tells whether there were any |
| `BitPatterns.CompleteTaken` | kernel/bitpattern.h:123-143 | after taking, a pattern whose vectors are all in the pool still lies within a single pattern of the pool, which is why looking at one pattern at a time misses nothing |
| `BitPatterns.SplitExact` | kernel/bitpattern.h:129-136 | the split patterns hold exactly the vectors of the old one outside the signal |
| `BitPatterns.BitPatternPool.TakeAll` | kernel/bitpattern.h:145-151 | nothing is left, and tells whether there was anything |
| `BitPatterns.BitPatternPool.Empty` | kernel/bitpattern.h:153-156 | true exactly when no vector is left |
| `Aiger.AigerWriter.MkGate` | backends/aiger/aiger.cc:64-69 | under every valuation the new literal is the conjunction of the two |
| `Aiger.AigerWriter.Bit2Aig` | backends/aiger/aiger.cc:71-105 | terminates on acyclic netlists, the literal computes the bit, and earlier literals keep their meaning |
| `Aiger.AigerWriter.AllocateInputs` | backends/aiger/aiger.cc:295-318 | one input per netlist input, per register without initial value, and per liveness property |
| `Aiger.AigerWriter.AllocateRegisters` | backends/aiger/aiger.cc:320-328 | one latch per register with its initial value |
| `Aiger.AigerWriter.AllocateOthers` | backends/aiger/aiger.cc:330-344 | the first-cycle marker if anything needs it, and the latches of the properties |
| `Aiger.AigerWriter.MapRegister` | backends/aiger/aiger.cc:348-361 | the register's literal is its stored value, inverted if it starts at 1, or its input in the first cycle if it starts anywhere |
| `Aiger.AigerWriter.ConnectLatches` | backends/aiger/aiger.cc:364-380 | next values, inverted where stored inverted; the marker is 1 from the second cycle on |
| `Aiger.AigerWriter.AddLiveness` | backends/aiger/aiger.cc:412-434 | two latches and the justice literal compute their defining functions |
| `Aiger.AigerWriter.AddFairness` | backends/aiger/aiger.cc:436-450 | one latch and the fairness literal compute their defining functions |
| `Aiger.AigerWriter.Build` | backends/aiger/aiger.cc:290-451 | the whole graph: every mapped bit computes its netlist value, the recorded initial values are those of the registers, and the reset values written are 0 for all latches in zero-init mode and the initial values otherwise |
| `Aiger.AigerWriter.ConnectOutputs` | backends/aiger/aiger.cc:382-410 | output literals compute their bits, bad literals the enabled and failing assertions, constraint literals the assumptions that are met |
| `Aiger.OutputTrace` | backends/aiger/aiger.cc:382-386 | every output shows the netlist output at every moment of every run |
| `Aiger.AssertTrace` | backends/aiger/aiger.cc:393-410 | at every moment of every run a bad literal is true exactly when its assertion is violated, and a constraint literal false exactly when its assumption is |
| `Aiger.TraceOf` | backends/aiger/aiger.cc:304-371 | every run of the graph from latches that the written reset values allow shows, in every literal and at every moment, a run of the netlist that starts with the required values |
| `Aiger.EveryTrace` | backends/aiger/aiger.cc:304-371 | every run of the netlist with the required initial values is shown, in every literal and at every moment, by some run of the graph that the written reset values allow |
| `Aiger.Simulates` | backends/aiger/aiger.cc:304-371 | the simulation relation holds at every moment of every run |
| `AigerProperties.LivenessMeans` | backends/aiger/aiger.cc:412-434 | some choice of the extra input makes the justice literal true infinitely often if and only if at some time EN holds and A is false from then on |
| `AigerProperties.FairnessWritten` | backends/aiger/aiger.cc:436-450 | the fairness literal holds infinitely often if and only if every EN is followed, at that time or later, by A |
| `AigerProperties.BuiltLivenessMeans` | backends/aiger/aiger.cc:412-434 | the same for every liveness property of a graph as the writer leaves it |
| `AigerProperties.BuiltFairnessMeans` | backends/aiger/aiger.cc:436-450 | the same for every fairness property of a graph as the writer leaves it |
| `AigerProperties.JusticeSound` | backends/aiger/aiger.cc:412-434 | a justice literal true infinitely often shows a violated property |
| `AigerProperties.JusticeComplete` | backends/aiger/aiger.cc:412-434 | a violated property can be shown by picking the violating moment |
| `AigerProperties.FairnessMeans` | backends/aiger/aiger.cc:436-450 | the latch equation alone gives the fairness equivalence |
| `AigerFile.AigerEncode` | backends/aiger/aiger.cc:26-36 | seven bits a byte, continuation bits on all but the last, no byte more than needed, and a reader gets the number back |
| `AigerFile.RoundTrip` | backends/aiger/aiger.cc:26-36 | decoding what was encoded gives the number back, whatever follows |
| `AigerFile.WriteGates` | backends/aiger/aiger.cc:527-535 | the deltas are never negative; the bytes of the gates follow one another without gaps, each two numbers |
| `AigerFile.GatesReadBack` | backends/aiger/aiger.cc:527-535 | reading the written bytes gives exactly the gates |
| `Division.Const2Big` | kernel/calc.cc:42-66 | the integer the bits stand for, signed or not; undefined bits are noticed and read as the sign, bit by bit |
| `Division.Big2Const` | kernel/calc.cc:68-98 | the low bits of the integer in two's complement; undefined when told so |
| `Division.TruncatingLaw` | kernel/calc.cc:472-498 | dividend is divisor times quotient plus remainder, truncating, with the remainder signed like the dividend (section 5.1.5 of IEEE Std 1364-2005) |
| `Division.FlooringLaw` | kernel/calc.cc:500-543 | the floored pair: the same equation, with the remainder signed like the divisor |
| `Division.ConstDivide` | kernel/calc.cc:473-543 | the folders: undefined operands or a zero divisor give undefined, else the low bits of the integer result |
| `Division.Restoring` | kernel/satgen.cc:804-818 | for a divisor other than zero the chain gives quotient and remainder |
| `Division.ImportDivide` | kernel/satgen.cc:786-856 | with magnitudes, sign fix-ups and all widths: the low bits of the folder's integer result, the most negative number by minus one included |
| `Division.DivideBothWays` | kernel/satgen.cc:786-856 | for every width, signedness and divisor other than zero, circuit and folder give the same Y |
| `Division.ImportMul` | kernel/satgen.cc:689-703 | shift-and-add gives the low bits of the signed or unsigned product |
| `Division.ConstMul` | kernel/calc.cc:465-470 | the low bits of the product, undefined if an operand is |
| `Division.ConstAdd` | kernel/calc.cc:451-456 | the low bits of the sum, undefined if an operand is |
| `Division.ConstSub` | kernel/calc.cc:458-463 | the low bits of the difference, undefined if an operand is |
| `Division.ConstPos` | kernel/calc.cc:596-602 | extending and cutting copy all bits, undefined ones included, and keep the low bits of the number |
| `Division.ExtendSignalWidth` | kernel/satgen.h:224-240 | both operands at the common width, keeping their numbers |
| `Power.ConstPow` | kernel/calc.cc:545-594 | the low bits of the power for all integer bases and exponents, undefined for zero to a negative power; undefined operands give an undefined result, except that a base with only 0 and undefined bits counts as 0 under a positive exponent |
| `Power.NegativeExponent` | kernel/calc.cc:559-565 | for a negative exponent the table of results is the integer quotient of 1 by the positive power, with a remainder below its magnitude |
| `Power.PowerModulo` | kernel/calc.cc:565-588 | modular square-and-multiply gives the low bits of the mathematical power |
| `CellAigs.AigMaker.Node2Index` | kernel/cellaigs.cc:77-91 | one index per node up to operand order; old nodes keep their places and parents precede children |
| `CellAigs.AigMaker.Inport` | kernel/cellaigs.cc:100-113 | the port bit, its sign extension, or 0, as the flag says |
| `CellAigs.AigMaker.NotGate` | kernel/cellaigs.cc:128-134 | the complement |
| `CellAigs.AigMaker.AndGate` | kernel/cellaigs.cc:136-178 | the conjunction or its complement, through every folding case, and a new node only where none folds |
| `CellAigs.AigMaker.XorGate` | kernel/cellaigs.cc:195-198 | exclusive or |
| `CellAigs.AigMaker.Adder` | kernel/cellaigs.cc:220-233 | sum, propagate and carry bits of the two vectors and the carry in |
| `CellAigs.AigMaker.AddSub` | kernel/cellaigs.cc:372-386 | the low bits of sum or difference of the two port numbers |
| `CellAigs.AigMaker.Alu` | kernel/cellaigs.cc:388-405 | sum, propagate and carry-out bits with B inverted and carry in as the pins say |
| `CellAigs.AigMaker.EqNe` | kernel/cellaigs.cc:407-419 | whether the extended operands agree, and for matching flags whether the numbers do |
| `CellAigs.RippleAdds` | kernel/cellaigs.cc:220-233 | the ripple sum is the low bits of the integer sum |
| `CellAigs.RippleCarry` | kernel/cellaigs.cc:220-233 | a carry out says exactly that the sum so far does not fit |
| `CellAigs.EvalAlu` | kernel/consteval.h:261-315 | on defined inputs the sum and carry-out bits of the extended operands; with an undefined input these are all undefined; a propagate bit is undefined exactly when one of its own bits is, and else tells whether they differ |
| `CellAigs.AddSubAgrees` | kernel/cellaigs.cc:372-386 | graph and folder agree on all operands if and only if the sign flags agree or the signed operand needs no extension |
| `CellAigs.Optimize` | kernel/cellaigs.cc:466-492 | the kept nodes compute what they did, parents precede children, and every output is kept |
| `CellAigs.MarkUsed` | kernel/cellaigs.cc:472-481 | marks the outputs and everything they need |
| `Maccs.Macc.Optimize` | kernel/macc.h:37-98 | under every valuation the sum modulo the width changes exactly by the ports without first factor; it is kept under all valuations if and only if those are balanced; constants are gathered in one port, left out if zero, single bits are wires, top bits are not redundant |
| `Maccs.BalancedIff` | kernel/macc.h:46-50 | the ports without first factor add nothing under any valuation if and only if their constant bits, and for every wire its bits, add up to a multiple of two to the width |
| `Maccs.SingleStray` | kernel/macc.h:46-50 | a single such port is balanced if and only if all its bits below the width are 0 |
| `Maccs.StrayChanges` | kernel/macc.h:46-50 | a port without first factor that is not balanced |
| `Maccs.Macc.OptimizePort` | kernel/macc.h:44-77 | one port goes to the single bits, the offset or the new list without changing the sum |
| `Maccs.Macc.OptimizeBits` | kernel/macc.h:80-84 | constant single bits go to the offset without changing the sum |
| `Maccs.Trim` | kernel/macc.h:65-75 | dropping redundant top bits keeps the number under every valuation |
| `Maccs.Macc.Eval` | kernel/macc.h:200-229 | succeeds exactly on constants, with the low bits of the sum |
| `Maccs.Macc.ToCell` | kernel/macc.h:152-198 | succeeds exactly when all lengths are below 32768, and writes the ports with a first factor with length fields just wide enough |
| `Maccs.Macc.FromCell` | kernel/macc.h:100-150 | reads what the parameters describe or reports that they do not fit |
| `Maccs.RoundTrip` | kernel/macc.h:100-198 | reading back the written ports gives them exactly |
| `Maccs.CellRoundTrip` | kernel/macc.h:100-198 | a written cell is read back as exactly the ports with a first factor, and its sum is that of all ports |
| `Maccs.ImportMacc` | kernel/satgen.cc:715-767 | the circuit gives the low bits of the sum under every valuation |

## Left out

- Memory.Mem.EmulateReadFirst: the write ports a read port is transparent to are asked to be present, which the code does not test.
- Memory.Mem.EmulateTransparency: the write port is asked to be present, which the code does not test.
- Memory.Mem.EmulatePriority: both write ports are asked to be present, which the code does not test.
- Memory.Mem.Narrow: like the other methods, asks the sizes and the low address bits that `Mem::check` asserts of removed ports too.
- FlipFlops.FfData.ConvertCeOverSrst: the branch that lets the reset win adds its gates through the cell of the register; a register that has no cell yet is not distinguished.
- Aiger.AigerWriter.Build: the padding options for empty inputs, outputs, latches and assertions are not modelled; undefined bits, an error in the code, cannot occur in the modelled netlists.
- AigerFile.AigerEncode: integers are unbounded.
- Division.ImportDivide: the results for a zero divisor and the encoding of undefined values are not modelled.
- Division.Const2Big: the first undefined position is reported as a flag.
- CellAigs.AigMaker.AddSub: the other cell types of the constructor, which use the same gates, are not modelled.
- Maccs.Macc.Optimize: constants are 0 and 1; undefined constant bits are not modelled.
- Maccs.Macc.FromCell: a signal shorter than the configuration says, undefined behaviour in the code, is reported like a failed assertion.
- Hashlib.Dict.DoRehash: the error for tables that grow too large is not modelled.
- SigMaps.Mfp.Index: the table of `idict` is the hash table without values.
- MemInits.MemInitList.CoalesceInits: the order in which merged initialisers are appended is left open.
- BitPatterns.BitPatternPool.constructor: bits that are wires count as undefined constants.
- TopoSorts.TopoSort.Sort: the order among independent nodes is left open.
- ModIndexes.ModIndex.Connect: other monitors of the module and of the design are not modelled.
- `Mem::prepare_wr_merge`, `prepare_rd_merge`, reading memories from cells and emitting them.
- `FfData` construction from cells, slicing, the dummy controls and emission.
- `dict::sort`, comparison and copying of tables; `stackmap::reset`, which changes the state without a backup.
- Shifts, comparisons, `$bmux` and `$demux` of the constant folder; `$sop`, shifts and undefined values in the SAT encoder.
- Logging, passes, the command line, file formats other than the gate section, and foreign interfaces.
