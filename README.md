# Tegra234 pin controller: a verified model

This project models the pin-multiplexing and pin-configuration engine of the
NVIDIA Tegra234 pin controller driver (`drivers/pinctrl/tegra/pinctrl-tegra234.c`).
The file holds two things:

- the SoC-independent engine (lines 28-961);
- the Tegra234 descriptor tables (lines 1100-1830).

The engine turns a pin group and a configuration parameter into a register
field. The field is given by a bank, a byte offset, a first bit and a width.
The engine then reads that field, writes it, selects a function in the mux
field, hands single pins over to the GPIO controller and back, clears "parked"
bits at probe, and saves and restores every register across suspend.

The model is split into modules:

| module | file | contents |
|---|---|---|
| `Wrappers` | `wrappers.dfy` | `Option`, `Result`, the two error codes (`-EINVAL`, `-ENOTSUPP`) and a pass/fail outcome |
| `Bits` | `bits.dfy` | a 32-bit register value as 32 booleans, bit 0 first, with field read, field write, set bit, clear bit and clear mask |
| `Tables` | `tables.dfy` | the configuration parameters, `struct tegra_pingroup`, `struct tegra_function`, `struct tegra_pinctrl_soc_data`, the device-tree property table and the group/function accessors |
| `Resolution` | `resolution.dfy` | `tegra_pinconf_reg`, which locates a parameter's field, plus well-formedness and field-disjointness of descriptors |
| `PinConf` | `pinconf.dfy` | the group get and set callbacks, batches of configurations, and `set_mux` |
| `Gpio` | `gpio.dfy` | the four GPIO callbacks over the registers and the saved mux words |
| `Parking` | `parking.dfy` | `tegra_pinctrl_clear_parked_bits` |
| `Suspend` | `suspend.dfy` | the flat backup buffer of suspend and resume |
| `FunctionIndex` | `function_index.dfy` | the function-to-groups index built at probe |
| `DeviceTree` | `device_tree.dfy` | the translation of device-tree nodes into map entries, and `strip_prefix` |
| `Driver` | `driver.dfy` | class `Pmx` (`struct tegra_pmx`): its register map, `gpio_conf` and `backup_regs` buffers, the probe as its constructor, and every callback as a method proved against the functions above |
| `Tegra234` | `tegra234.dfy` | the Tegra234 function enumeration, the macro expansion of table rows, four rows, the SoC flags, and lemmas about that concrete table |

A register value is `seq<bool>` of length 32. A field of width `w` at bit `b` reads
`(v >> b) & ((1 << w) - 1)`; writing it replaces exactly those bits. The
registers are a map from (bank, offset) to a register value. A table entry
holds -1 where the C structure does. A field that no initialiser sets holds
0, as C's zero-initialisation of static arrays gives.

The mux and configuration functions (`GetConfig`, `SetOne`, `SetBatch`,
`SetMux`, the GPIO functions, `ClearParked`, `Snapshot`, `Restored`) are pure
specifications. The class `Driver.Pmx` holds the driver state and
implements each callback with the same loops as the C code. Each callback's
`ensures` ties its new state to the specification function, and the lemmas
prove the properties about those functions.

## Model

| member | source | states |
|---|---|---|
| Bits.Field | drivers/pinctrl/tegra/pinctrl-tegra234.c:588-590 | the value read from a `width`-bit field is below `2^width` |
| Bits.FieldOne | drivers/pinctrl/tegra/pinctrl-tegra234.c:588-590 | a one-bit field reads 1 exactly when that bit is set |
| Bits.FieldTwo | drivers/pinctrl/tegra/pinctrl-tegra234.c:273-275 | a two-bit field reads its low bit plus twice its high bit |
| Bits.FieldSameBits | drivers/pinctrl/tegra/pinctrl-tegra234.c:590 | a field depends only on the bits inside it |
| Bits.SetField | drivers/pinctrl/tegra/pinctrl-tegra234.c:655-657 | after writing `x` to a field, the field reads `x`, and every bit outside it is unchanged |
| Bits.SetBit | drivers/pinctrl/tegra/pinctrl-tegra234.c:277-278 | `v \| BIT(j)`: bit `j` set, all other bits unchanged |
| Bits.ClearBit | drivers/pinctrl/tegra/pinctrl-tegra234.c:377-378 | `v & ~BIT(j)`: bit `j` clear, all other bits unchanged |
| Bits.ClearMask | drivers/pinctrl/tegra/pinctrl-tegra234.c:775-776 | `v & ~m`: each bit is kept exactly when it is set in `v` and clear in `m` |
| Bits.ClearMaskTwice | drivers/pinctrl/tegra/pinctrl-tegra234.c:761-779 | clearing `m` and then `n` equals clearing `m \| n` |
| Bits.Or | drivers/pinctrl/tegra/pinctrl-tegra234.c:761-779 | bitwise or, bit by bit |
| Bits.Zero | drivers/pinctrl/tegra/pinctrl-tegra234.c:1610-1811 | the word a parked mask defaults to when unset has no bit set |
| Bits.ToNat | drivers/pinctrl/tegra/pinctrl-tegra234.c:590 | a bit sequence of length `n` denotes a number below `2^n` |
| Bits.FromNat | drivers/pinctrl/tegra/pinctrl-tegra234.c:656 | the low `width` bits of a number have length `width` |
| Bits.ToNatFromNat | drivers/pinctrl/tegra/pinctrl-tegra234.c:643-656 | a value that passes the range check survives a write and a read of its field |
| Bits.Pow2 | drivers/pinctrl/tegra/pinctrl-tegra234.c:589 | the mask size `1 << width` is at least 1 |
| Bits.Pow2Monotone | drivers/pinctrl/tegra/pinctrl-tegra234.c:643-649 | a narrower field has a smaller mask |
| Bits.Pow2Sixteen | drivers/pinctrl/tegra/pinctrl-tegra234.c:609 | `2^16` bounds the u16 argument |
| Resolution.Resolve | drivers/pinctrl/tegra/pinctrl-tegra234.c:399-554 | the located field is the one the per-parameter switch selects; lookup fails with -ENOTSUPP for a parameter outside the enumeration, a negative register or a negative bit, and only then |
| Resolution.ResolveRegister | drivers/pinctrl/tegra/pinctrl-tegra234.c:406-528 | which register each parameter lives in: the mux register, the drive register, or either one as the per-SoC flag `hsm_in_mux`, `schmitt_in_mux` or `drvtype_in_mux` chooses |
| Resolution.ResolveWidth | drivers/pinctrl/tegra/pinctrl-tegra234.c:406-528 | the field widths: 2 for pull, low-power mode, drive type and function; 1 for the one-bit parameters; the group's own width for drive strengths and slew rates |
| PinConf.SocReadyKeys | drivers/pinctrl/tegra/pinctrl-tegra234.c:28-38 | whether every group's registers exist depends only on which registers exist, not on their values |
| PinConf.ReadyKeys | drivers/pinctrl/tegra/pinctrl-tegra234.c:28-38 | the same, for one group |
| PinConf.MuxField | drivers/pinctrl/tegra/pinctrl-tegra234.c:517-521 | a group with a mux register has its 2-bit function field there, at a bit from 0 to 30 |
| PinConf.LocatedField | drivers/pinctrl/tegra/pinctrl-tegra234.c:399-554 | a located field of a ready group fits its register, that register exists, and the field holds at most 16 bits |
| PinConf.Not | drivers/pinctrl/tegra/pinctrl-tegra234.c:595-596 | the logical not of a u16 is 1 exactly when the argument is 0 |
| PinConf.GetConfig | drivers/pinctrl/tegra/pinctrl-tegra234.c:571-601 | `tegra_pinconf_group_get`: -ENOTSUPP exactly when the field cannot be located; otherwise a value that fits the field, and 0 or 1 for pad power |
| PinConf.StoredArg | drivers/pinctrl/tegra/pinctrl-tegra234.c:622-641 | `!!arg` for a one-bit field (inverted first for pad power); the argument itself for wider fields |
| PinConf.SetOne | drivers/pinctrl/tegra/pinctrl-tegra234.c:617-658 | one configuration: -ENOTSUPP exactly when the field cannot be located; on success the same registers exist and the group stays ready |
| PinConf.SetOneOutcome | drivers/pinctrl/tegra/pinctrl-tegra234.c:631-651 | -EINVAL exactly when LOCK with argument 0 meets a set lock bit, or when the stored argument does not fit the field; success otherwise |
| PinConf.LockLatched | drivers/pinctrl/tegra/pinctrl-tegra234.c:633-639 | once the lock bit is set, clearing it fails with -EINVAL, and setting it again succeeds and reads back 1 |
| PinConf.SetThenGet | drivers/pinctrl/tegra/pinctrl-tegra234.c:571-661 | after a successful set, a get of the same parameter returns `!!arg` for every one-bit field, pad power included, and the argument itself for wider fields |
| PinConf.SetOneFrame | drivers/pinctrl/tegra/pinctrl-tegra234.c:653-657 | a successful set changes one register, and in it only the bits of the field |
| PinConf.SetOneKeepsField | drivers/pinctrl/tegra/pinctrl-tegra234.c:653-657 | a set leaves the reading of every field that shares no bit with the written one unchanged |
| PinConf.SetOneKeepsOthers | drivers/pinctrl/tegra/pinctrl-tegra234.c:617-658 | in a group whose fields are disjoint, a set of one parameter leaves every other parameter's reading unchanged |
| PinConf.SetOneIsolated | drivers/pinctrl/tegra/pinctrl-tegra234.c:603-661 | a set on one group leaves every reading of a group whose fields it shares no bit with unchanged |
| PinConf.PadPowerInverted | drivers/pinctrl/tegra/pinctrl-tegra234.c:620-624 | pad power is active low: a set always succeeds and stores 1 exactly when the argument is 0 |
| PinConf.SetBatch | drivers/pinctrl/tegra/pinctrl-tegra234.c:603-661 | `tegra_pinconf_group_set`: the configurations in order; the same registers exist afterwards, and a failure is -EINVAL or -ENOTSUPP |
| PinConf.SetBatchSplit | drivers/pinctrl/tegra/pinctrl-tegra234.c:616-660 | a batch runs as its prefix followed by the rest, and a failing prefix ends it with the prefix's error and registers |
| PinConf.SetBatchStopsAtFailure | drivers/pinctrl/tegra/pinctrl-tegra234.c:626-651 | the first failing configuration ends the batch with its error; the registers keep the earlier writes only |
| PinConf.SetBatchSingle | drivers/pinctrl/tegra/pinctrl-tegra234.c:616-660 | a batch of one configuration is that configuration's set |
| PinConf.SetBatchLastWins | drivers/pinctrl/tegra/pinctrl-tegra234.c:616-660 | two sets of the same parameter: the batch passes and the second value is read back |
| PinConf.FindSlot | drivers/pinctrl/tegra/pinctrl-tegra234.c:266-271 | the first of the group's function slots that names the function, and none exactly when no slot does |
| PinConf.SfselShiftAsWritten | drivers/pinctrl/tegra/pinctrl-tegra234.c:277-278 | the shift count `set_mux` uses for the SFIO-select bit, as written: present exactly when the SoC has the flag and the mux succeeds, and equal to the group's `sfsel_bit`, which may be -1 |
| PinConf.SetMux | drivers/pinctrl/tegra/pinctrl-tegra234.c:252-282 | -EINVAL exactly when the group has no mux register or no slot names the function; otherwise the same registers exist and the group stays ready. The SFIO-select bit is set only when the group has one (`sfsel_bit >= 0`), the corrected form of the first Findings row; lines 277-278 set it unguarded |
| PinConf.SetMuxIsFunctionConfig | drivers/pinctrl/tegra/pinctrl-tegra234.c:273-275 | `set_mux` is the FUNCTION configuration with the slot index, followed by setting the SFIO-select bit when the group has one |
| PinConf.SetMuxEffect | drivers/pinctrl/tegra/pinctrl-tegra234.c:273-279 | only the mux register changes; in it the SFIO-select bit is set when the group has one, every bit outside the function field and that bit is kept, and the function reads back the slot index unless the SFIO-select bit lies inside the function field |
| Gpio.GpioGroupFrom | drivers/pinctrl/tegra/pinctrl-tegra234.c:294-300 | the search: the first single-pin group holding the pin, and none exactly when no group does |
| Gpio.SaveConfig | drivers/pinctrl/tegra/pinctrl-tegra234.c:284-312 | `gpio_save_config`: -EINVAL exactly when no single-pin group holds the pin; otherwise the pin's saved word becomes the group's mux word (kept when the group has no mux register), and every other pin's saved word is unchanged |
| Gpio.RestoreConfig | drivers/pinctrl/tegra/pinctrl-tegra234.c:314-342 | `gpio_restore_config`: -EINVAL exactly when no single-pin group holds the pin; otherwise the same registers exist |
| Gpio.RequestEnable | drivers/pinctrl/tegra/pinctrl-tegra234.c:344-381 | `gpio_request_enable`: for a pin no single-pin group holds, -EINVAL with nothing changed; otherwise -EINVAL exactly when the SoC has `sfsel_in_mux` and the group has no mux register or no SFIO-select bit (371-372), the saved words are `SaveConfig`'s (the save is made even on that failure), and the registers are unchanged on that failure or on a SoC without `sfsel_in_mux` (359-360); the saved words of other pins are unchanged |
| Gpio.DisableFree | drivers/pinctrl/tegra/pinctrl-tegra234.c:383-388 | `gpio_disable_free`: the saved words are unchanged and the same registers exist |
| Gpio.RequestThenFree | drivers/pinctrl/tegra/pinctrl-tegra234.c:344-388 | a request followed by a free puts every register back to its value before the request |
| Gpio.RequestTwoThenFreeFirst | drivers/pinctrl/tegra/pinctrl-tegra234.c:284-388 | after requests of two different pins, freeing the first puts back its mux word from before its request and changes no other register |
| Gpio.RequestClearsSfsel | drivers/pinctrl/tegra/pinctrl-tegra234.c:362-380 | on a SoC with `sfsel_in_mux`, a successful request clears the group's SFIO-select bit, saves the old mux word and changes no other bit of any register |
| Gpio.UnknownPinUnchanged | drivers/pinctrl/tegra/pinctrl-tegra234.c:284-388 | for a pin no single-pin group holds, every callback fails with -EINVAL and changes nothing |
| Gpio.SaveThenRestore | drivers/pinctrl/tegra/pinctrl-tegra234.c:284-342 | a restore after a save gives the mux register its value at the save, whatever happened in between, and leaves every other register alone |
| Parking.SocReadyParkMapped | drivers/pinctrl/tegra/pinctrl-tegra234.c:764-772 | on a ready SoC the register each parked mask goes to exists |
| Parking.ClearParked | drivers/pinctrl/tegra/pinctrl-tegra234.c:757-781 | `clear_parked_bits`: the same registers exist afterwards |
| Parking.ParkedBits | drivers/pinctrl/tegra/pinctrl-tegra234.c:761-779 | bit `j` is set exactly when some group parks bit `j` into that register |
| Parking.ClearParkedAt | drivers/pinctrl/tegra/pinctrl-tegra234.c:757-781 | each register ends with the union of the masks parked into it cleared |
| Parking.ClearParkedEffect | drivers/pinctrl/tegra/pinctrl-tegra234.c:757-781 | a bit is set afterwards exactly when it was set before and no group parks it |
| Parking.ClearParkedIdempotent | drivers/pinctrl/tegra/pinctrl-tegra234.c:757-781 | clearing the parked bits a second time changes nothing |
| Suspend.BankInside | drivers/pinctrl/tegra/pinctrl-tegra234.c:800-805 | a bank ends no later than any later bank starts |
| Suspend.FlatIndex | drivers/pinctrl/tegra/pinctrl-tegra234.c:800-805 | every bank word has a position inside the buffer of `backup_regs_size / 4` words |
| Suspend.BankWords | drivers/pinctrl/tegra/pinctrl-tegra234.c:802-804 | the words of a bank: as many as the bank has, word `k` at byte offset `4k` |
| Suspend.Snapshot | drivers/pinctrl/tegra/pinctrl-tegra234.c:794-810 | `tegra_pinctrl_suspend`: the buffer holds as many words as all the banks |
| Suspend.SnapshotAt | drivers/pinctrl/tegra/pinctrl-tegra234.c:794-810 | the buffer holds every bank word at its flat position |
| Suspend.Restored | drivers/pinctrl/tegra/pinctrl-tegra234.c:812-833 | `tegra_pinctrl_resume`: the same registers exist afterwards |
| Suspend.SuspendResume | drivers/pinctrl/tegra/pinctrl-tegra234.c:794-833 | a resume after a suspend gives back exactly the registers at the suspend, whatever they became in between |
| Suspend.Partial | drivers/pinctrl/tegra/pinctrl-tegra234.c:818-823 | the registers part way through the resume loop: the same registers exist |
| Suspend.PartialStep | drivers/pinctrl/tegra/pinctrl-tegra234.c:821-822 | one more iteration writes the next backup word into the next bank word, at flat position base plus `k` |
| Suspend.PartialNextBank | drivers/pinctrl/tegra/pinctrl-tegra234.c:818-823 | the end of one bank is the start of the next |
| Suspend.PartialEnds | drivers/pinctrl/tegra/pinctrl-tegra234.c:818-823 | before the loop nothing is written; after the last bank the result is the resume's |
| FunctionIndex.FunctionGroups | drivers/pinctrl/tegra/pinctrl-tegra234.c:888-910 | the groups listed for a function are indices below the number of groups scanned |
| FunctionIndex.FunctionGroupsExact | drivers/pinctrl/tegra/pinctrl-tegra234.c:888-910 | a function's list holds exactly the groups with a mux register and a slot naming it, in ascending table order |
| FunctionIndex.ListAtKept | drivers/pinctrl/tegra/pinctrl-tegra234.c:888-910 | a list written before position `first` survives writes from `first` on |
| FunctionIndex.TotalStep | drivers/pinctrl/tegra/pinctrl-tegra234.c:888-910 | counting one more group adds the number of functions it is listed under |
| FunctionIndex.DistinctCover | drivers/pinctrl/tegra/pinctrl-tegra234.c:896-901 | adding one value to a list of slots adds at most one distinct function |
| FunctionIndex.DistinctBound | drivers/pinctrl/tegra/pinctrl-tegra234.c:896-901 | four slots name at most four distinct functions |
| FunctionIndex.DistinctNone | drivers/pinctrl/tegra/pinctrl-tegra234.c:896-901 | no slots name no function |
| FunctionIndex.TotalBound | drivers/pinctrl/tegra/pinctrl-tegra234.c:881-906 | the first `n` groups take at most `4n` entries of the pool |
| FunctionIndex.TotalEmpty | drivers/pinctrl/tegra/pinctrl-tegra234.c:888-910 | no group scanned, no entry used |
| FunctionIndex.TotalWhole | drivers/pinctrl/tegra/pinctrl-tegra234.c:888-910 | over the whole table, the count by groups equals the count by functions |
| FunctionIndex.PoolBound | drivers/pinctrl/tegra/pinctrl-tegra234.c:881-906 | all the function lists fit the `4 * ngroups` entries allocated, so the probe's `BUG_ON` never fires |
| FunctionIndex.TotalMonotone | drivers/pinctrl/tegra/pinctrl-tegra234.c:888-910 | the lists of fewer functions end no later than those of more functions |
| FunctionIndex.FunctionGroupsPrefix | drivers/pinctrl/tegra/pinctrl-tegra234.c:893-908 | the list built from fewer groups is a prefix of the one built from more groups |
| FunctionIndex.CollectStep | drivers/pinctrl/tegra/pinctrl-tegra234.c:896-907 | writing the next offering group's name extends the list by that group and keeps everything before it |
| FunctionIndex.CollectSkip | drivers/pinctrl/tegra/pinctrl-tegra234.c:896-901 | a group that does not offer the function leaves the list as it is |
| FunctionIndex.CollectGroups | drivers/pinctrl/tegra/pinctrl-tegra234.c:893-908 | the inner loop writes exactly the names of the groups offering the function from `first` on, returns their count, and keeps the pool before `first` |
| FunctionIndex.IndexStep | drivers/pinctrl/tegra/pinctrl-tegra234.c:888-910 | one more function's list, written at the cursor, extends the index |
| FunctionIndex.ProbeCountAsWritten | drivers/pinctrl/tegra/pinctrl-tegra234.c:888-910 | `func->ngroups` after a probe: the value it held before plus the number of groups offering the function |
| FunctionIndex.SecondProbeAsWritten | drivers/pinctrl/tegra/pinctrl-tegra234.c:888-910 | as written, a second probe leaves each count at twice the length of the function's list |
| FunctionIndex.BuildFunctionIndex | drivers/pinctrl/tegra/pinctrl-tegra234.c:881-910 | the pool has `4 * ngroups` entries; function `fn`'s list starts where the lists of the functions before it end and holds the names of exactly the groups offering it, in table order |
| DeviceTree.Present | drivers/pinctrl/tegra/pinctrl-tegra234.c:128-141 | the indices of the property-table entries present in the node, each present and in range |
| DeviceTree.PresentExact | drivers/pinctrl/tegra/pinctrl-tegra234.c:128-141 | every present property is listed, each once, in table order |
| DeviceTree.SubnodeConfigs | drivers/pinctrl/tegra/pinctrl-tegra234.c:128-141 | one configuration per property present, with that property's parameter and value, in table order |
| DeviceTree.PinMaps | drivers/pinctrl/tegra/pinctrl-tegra234.c:143-176 | one mux entry per pin when a function is named and one configuration entry per pin when there are configurations |
| DeviceTree.SubnodeToMap | drivers/pinctrl/tegra/pinctrl-tegra234.c:102-184 | `dt_subnode_to_map`: fails exactly when the pin list does, with its error |
| DeviceTree.PinMapsEntries | drivers/pinctrl/tegra/pinctrl-tegra234.c:158-176 | every entry is for one of the node's pins and carries the node's function or its whole configuration list |
| DeviceTree.PinMapsOrder | drivers/pinctrl/tegra/pinctrl-tegra234.c:158-176 | with a function and configurations, pin `p` has its mux entry at `2p` and its configuration entry at `2p + 1` |
| DeviceTree.NodeToMap | drivers/pinctrl/tegra/pinctrl-tegra234.c:186-211 | `dt_node_to_map`: fails exactly when some child's pin list fails, with the first such child's error; otherwise the children's maps in order |
| DeviceTree.StripPrefix | drivers/pinctrl/tegra/pinctrl-tegra234.c:669-676 | a name without a comma is unchanged; otherwise the result is the part after the first comma |
| Driver.BankRegistersKeys | drivers/pinctrl/tegra/pinctrl-tegra234.c:917-923 | whether the registers are exactly the bank words depends only on which registers exist |
| Driver.Pmx.constructor | drivers/pinctrl/tegra/pinctrl-tegra234.c:860-961 | a first probe: every buffer allocated and the function index built; the registers are the given ones with the parked bits cleared; `gpio_conf` and `backup_regs` zeroed |
| Driver.Pmx.GetFunctionGroups | drivers/pinctrl/tegra/pinctrl-tegra234.c:239-250 | the names of the groups offering the function, in table order |
| Driver.Pmx.GroupGet | drivers/pinctrl/tegra/pinctrl-tegra234.c:571-601 | returns `GetConfig` on the current registers |
| Driver.Pmx.GroupSet | drivers/pinctrl/tegra/pinctrl-tegra234.c:603-661 | status and new registers are those of `SetBatch` on the registers before the call |
| Driver.Pmx.SetMux | drivers/pinctrl/tegra/pinctrl-tegra234.c:252-282 | status and new registers are those of `PinConf.SetMux` |
| Driver.Pmx.ClearParkedBits | drivers/pinctrl/tegra/pinctrl-tegra234.c:757-781 | the loop leaves the registers that `ClearParked` gives |
| Driver.Pmx.FindGpioGroup | drivers/pinctrl/tegra/pinctrl-tegra234.c:294-300 | the search loop ends at the group `GpioGroup` finds, or at `ngroups` exactly when there is none |
| Driver.Pmx.GpioSaveConfig | drivers/pinctrl/tegra/pinctrl-tegra234.c:284-312 | status and new `gpio_conf` are those of `SaveConfig` |
| Driver.Pmx.GpioRestoreConfig | drivers/pinctrl/tegra/pinctrl-tegra234.c:314-342 | status and new registers are those of `RestoreConfig` |
| Driver.Pmx.GpioRequestEnable | drivers/pinctrl/tegra/pinctrl-tegra234.c:344-381 | status, registers and `gpio_conf` are those of `RequestEnable` |
| Driver.Pmx.GpioDisableFree | drivers/pinctrl/tegra/pinctrl-tegra234.c:383-388 | registers and `gpio_conf` are those of `DisableFree` |
| Driver.Pmx.Suspend | drivers/pinctrl/tegra/pinctrl-tegra234.c:794-810 | the backup buffer becomes `Snapshot` of the registers |
| Driver.Pmx.RestoreBank | drivers/pinctrl/tegra/pinctrl-tegra234.c:820-822 | the inner loop takes the registers from the state before bank `i` to the state before bank `i + 1` |
| Driver.Pmx.Resume | drivers/pinctrl/tegra/pinctrl-tegra234.c:812-833 | the registers become `Restored` from the backup buffer |
| Tegra234.Group | drivers/pinctrl/tegra/pinctrl-tegra234.c:1593-1609 | a row expands to a one-pin group with the row's name, pin and four function slots, its mux register at the row's bank and offset, its SFIO-select column and no parked bits |
| Tegra234.Table | drivers/pinctrl/tegra/pinctrl-tegra234.c:1813-1825 | the modelled groups are the expansions of the modelled rows, with the Tegra234 flags |
| Tegra234.At | drivers/pinctrl/tegra/pinctrl-tegra234.c:534-551 | a field at an offset and bit, or -ENOTSUPP exactly when either is negative |
| Tegra234.MuxLayout | drivers/pinctrl/tegra/pinctrl-tegra234.c:1366-1389 | every mux-register parameter of a row: function at bits 0-1, pull at 2 (or none), tristate at 4, drive type at 13, its columns for input, loopback and Schmitt, and none for lock, low-power mode and high-speed mode |
| Tegra234.DriveLayout | drivers/pinctrl/tegra/pinctrl-tegra234.c:1326-1345 | the drive strengths and slew rates sit at a drive entry's bits and widths, and are unsupported without one |
| Tegra234.UnsetLayout | drivers/pinctrl/tegra/pinctrl-tegra234.c:1366-1389 | the parameters no macro sets: as written, open drain, I/O reset and receiver select are bit 0 of the mux register, and pad power is bit 0 of register 0 of bank 0; repaired, all are unsupported except receiver select at the high-voltage column |
| Tegra234.RowWellFormed | drivers/pinctrl/tegra/pinctrl-tegra234.c:1366-1389 | every field of a well-shaped row, as written or repaired, fits its register |
| Tegra234.OwnerCovers | drivers/pinctrl/tegra/pinctrl-tegra234.c:1326-1389 | in a repaired row, a bit covered by a parameter's field belongs to that parameter |
| Tegra234.MuxOwner | drivers/pinctrl/tegra/pinctrl-tegra234.c:1366-1389 | the same, for the mux-register parameters |
| Tegra234.DriveOwner | drivers/pinctrl/tegra/pinctrl-tegra234.c:1334-1345 | the same, for the drive-register parameters |
| Tegra234.RowFieldsDisjoint | drivers/pinctrl/tegra/pinctrl-tegra234.c:1326-1389 | no two parameters of a repaired row share a bit |
| Tegra234.InRowRegisters | drivers/pinctrl/tegra/pinctrl-tegra234.c:1326-1389 | every field of a row is in its mux or drive register, except as-written pad power at register 0 of bank 0 |
| Tegra234.RowsApart | drivers/pinctrl/tegra/pinctrl-tegra234.c:1326-1389 | repaired rows on different registers share no bit |
| Tegra234.RcvSelInFunctionAsWritten | drivers/pinctrl/tegra/pinctrl-tegra234.c:1366-1389 | as written, a row's receiver-select field is bit 0 of its function field, so its fields are not disjoint |
| Tegra234.PadPowerSharedAsWritten | drivers/pinctrl/tegra/pinctrl-tegra234.c:523-526 | as written, every row's pad-power field is the same bit, so no two rows are apart |
| Tegra234.RowsShaped | drivers/pinctrl/tegra/pinctrl-tegra234.c:1611-1745 | the modelled rows are well shaped and no two share a register |
| Tegra234.RepairedTable | drivers/pinctrl/tegra/pinctrl-tegra234.c:1610-1811 | the repaired table is well formed, each group's fields are disjoint and distinct groups are apart |
| Tegra234.AsWrittenTable | drivers/pinctrl/tegra/pinctrl-tegra234.c:1610-1811 | the table as written is well formed, but every group aliases two of its fields and no two groups are apart (no group is apart even from itself) |
| Tegra234.NoneApartAsWritten | drivers/pinctrl/tegra/pinctrl-tegra234.c:1366-1389 | as written, no expansion of a row is apart from any other, through the shared pad-power bit |
| Tegra234.AsWrittenShared | drivers/pinctrl/tegra/pinctrl-tegra234.c:1610-1811 | the table as written does not keep distinct groups apart |
| Tegra234.AsWrittenRow | drivers/pinctrl/tegra/pinctrl-tegra234.c:1366-1389 | a well-shaped row as written fits its registers but aliases two of its fields |
| Tegra234.RowsReady | drivers/pinctrl/tegra/pinctrl-tegra234.c:1611-1745 | every modelled group, as written or repaired, is ready on the seven registers the rows name |
| Tegra234.RowReady | drivers/pinctrl/tegra/pinctrl-tegra234.c:1366-1389 | a well-shaped row is ready on any registers holding its own registers and register 0 of bank 0 |
| Tegra234.PadPowerSwitchesFunctionAsWritten | drivers/pinctrl/tegra/pinctrl-tegra234.c:1745 | as written, powering down any row's pad sets bit 0 of register 0 of bank 0, which changes the function reading of extperiph2_clk_pp1 to its odd counterpart |
| Tegra234.SharedBitSwitches | drivers/pinctrl/tegra/pinctrl-tegra234.c:617-657 | a one-bit pad-power field that is the low bit of another group's function field sets that bit when written |
| Tegra234.TouchClkPcc4SetMux | drivers/pinctrl/tegra/pinctrl-tegra234.c:1611 | selecting TOUCH on touch_clk_pcc4 writes slot 1, reads back 1 and sets SFIO-select bit 10 |
| Tegra234.TouchClkPcc4NotCan0 | drivers/pinctrl/tegra/pinctrl-tegra234.c:1611 | CAN0 is not among touch_clk_pcc4's functions, so the mux fails with -EINVAL |
| Tegra234.EqosCompShiftAsWritten | drivers/pinctrl/tegra/pinctrl-tegra234.c:1661 | selecting EQOS on eqos_comp shifts by its SFIO-select column, -1, as written |
| Tegra234.EqosCompSetMux | drivers/pinctrl/tegra/pinctrl-tegra234.c:1661 | with the shift guarded, selecting EQOS on eqos_comp succeeds, reads back 0, and changes only the function field of its mux register |
| Tegra234.GpioLookups | drivers/pinctrl/tegra/pinctrl-tegra234.c:1061-1190 | the GPIO search finds pins 201, 203, 217 and 93 in the first to fourth modelled groups |
| Tegra234.GpioLookupMiss | drivers/pinctrl/tegra/pinctrl-tegra234.c:1170 | pin 202 belongs to no modelled group; in the full table it is uart3_tx_pcc5 (1613), so the miss only shows the lookup's failure path on the four-row cut and says nothing about the full driver |
| Tegra234.EqosCompGpioRequest | drivers/pinctrl/tegra/pinctrl-tegra234.c:371-372 | a GPIO request of eqos_comp's pin saves its mux word, then fails with -EINVAL because the group has no SFIO-select bit, and leaves the registers unchanged; pin 217 lies outside the default GPIO range (eqos_comp is `_PIN(0)`, pin 217, while `ngpios` is `NUM_GPIOS`, 217, lines 1185, 1190, 912 and 1814), so the request arises only through a device-tree `gpio-ranges` |
| Tegra234.TouchSecondProbeAsWritten | drivers/pinctrl/tegra/pinctrl-tegra234.c:1611 | as written, TOUCH's list is touch_clk_pcc4 alone, and a second probe counts it twice |
| Tegra234.NothingParked | drivers/pinctrl/tegra/pinctrl-tegra234.c:1610-1811 | no modelled group has a parked mask, so clearing the parked bits changes nothing |

## Left out

- PinConf.SetMux: sets the SFIO-select bit only when the group has one (`sfsel_bit >= 0`), as `gpio_request_enable` checks at lines 371-372. Lines 277-278 set it unguarded, which for a group without one is the shift `1 << -1` of the first Findings row; PinConf.SfselShiftAsWritten and Tegra234.EqosCompShiftAsWritten model that form, and Driver.Pmx.SetMux implements the corrected one.
- `tegra_pinconf_get` and `tegra_pinconf_set` (lines 556-569): they return -ENOTSUPP unconditionally, so there is nothing to model.
- The debugfs callbacks (lines 69-74 and 664-729): `strip_prefix` is modelled, but the text output is not, because it only prints.
- `tegra_pinctrl_get_bank_size` (lines 783-792): it asks the platform resources, so the bank sizes are a parameter of the model.
- Memory allocation and resource mapping in the probe (lines 860-961): allocation failure (-ENOMEM) and mapping errors are not modelled; the constructor assumes they succeed.
- Registration with the pin-control core, `pinctrl_force_sleep`, and the GPIO range: `tegra_pinctrl_gpio_node_has_range`, lines 840-858, and lines 953-954. These call into code outside this file.
- The read-back and read barrier at the end of the resume (lines 825-829): they order the bus and have no effect on register values in this model.
- The `of_*` device-tree parsing (lines 102-184): the pin list, function name and property values arrive already parsed, and a parse error is a value.
- Only four of the rows of `tegra234_groups` (touch_clk_pcc4, uart3_rx_pcc6, eqos_comp, extperiph2_clk_pp1) and their drive macros are written out; the generic lemmas about `Row` apply to any row of the same form.
- The `e_lpdr`, `e_pbias_buf` and preemphasis columns: the engine never reads them.
- Tegra234.Table: only the function names of `tegra234_functions` are modelled; the per-function group lists are built by the probe.
- The structure definitions live in a header that is not part of this model; the fields are those the engine reads in this file.
- PinConf.SfselShiftAsWritten: C's `1 << -1` is undefined behaviour, so the as-written member states the shift count rather than a register value.
- Gpio.SaveConfig: the saved word index is the pin number; the model requires a pin within `gpio_conf`, which the C code gets from the GPIO range.
- Driver.Pmx.constructor: models a first probe only. Each function's count starts at 0, but the source keeps it in the static `tegra234_functions` table (lines 1316-1318) and never resets it; the Findings table records what a second probe does.
- Fields wider than 16 bits are outside the model: the driver reads them back truncated to the u16 argument (lines 576-590), and its range check lets every u16 through. No Tegra234 field is wider than 5 bits.
- Concurrency: the pin-control core serialises the callbacks, so each is modelled as one atomic step.

## Findings

| source | as written | input that shows it | evidently intended | confidence | as-written member | corrected member |
|---|---|---|---|---|---|---|
| drivers/pinctrl/tegra/pinctrl-tegra234.c:277-278 | `set_mux` sets bit `sfsel_bit` whenever the SoC has SFIO select in the mux register, even for a group whose `sfsel_bit` is -1 | `set_mux(EQOS, eqos_comp)`: eqos_comp's row (line 1661) has SFIO select -1, which gives the shift `1 << -1` | set the bit only when the group has one, as `gpio_request_enable` checks at lines 371-372 | not executed | Tegra234.EqosCompShiftAsWritten | Tegra234.EqosCompSetMux |
| drivers/pinctrl/tegra/pinctrl-tegra234.c:1366-1389 | `PIN_PINGROUP_ENTRY_Y` sets neither `odrain_bit`, `ioreset_bit`, `rcv_sel_bit`, nor the pad-power register and bit, and never uses its `e_io_hv` argument, so they default to 0 | any row, e.g. touch_clk_pcc4: receiver select resolves to bit 0 of the mux register, inside the function field, and pad power of every row resolves to bit 0 of register 0 of bank 0 (the function field of extperiph2_clk_pp1) | fields a row does not have are -1 (unsupported), as the macro writes explicitly for low-power mode, lock and high-speed mode (lines 1369-1371); receiver select is the `e_io_hv` column, the bit that `cfg_params` reaches through `nvidia,io-hv` (lines 87-88) | not executed | Tegra234.PadPowerSwitchesFunctionAsWritten | Tegra234.RepairedTable |
| drivers/pinctrl/tegra/pinctrl-tegra234.c:907 | the probe adds each group to `func->ngroups` in the static, writable `tegra234_functions` (lines 1316-1318) and never resets it; the driver (lines 1838-1845) neither suppresses bind attributes nor has a remove callback | unbind and bind the device: a second probe leaves TOUCH's count at 2 while its new list holds touch_clk_pcc4 alone, so `get_func_groups` (lines 247-248) reports an entry past the list | each probe counts from 0 | not executed | Tegra234.TouchSecondProbeAsWritten | FunctionIndex.BuildFunctionIndex |
