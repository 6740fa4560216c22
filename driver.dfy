/**
 * `struct tegra_pmx` and the pinctrl callbacks that act on it: the register
 * file, the GPIO save slots, the suspend buffer and the function index, with
 * each callback proved to do what the functions of the other modules specify.
 */
module Driver {
  import opened Wrappers
  import opened Bits
  import opened Tables
  import opened Resolution
  import opened PinConf
  import opened Gpio
  import opened Parking
  import opened Suspend
  import opened FunctionIndex

  /** The registers are exactly the words of the memory banks. */
  ghost predicate BankRegisters(sizes: seq<nat>, regs: RegFile)
  {
    BanksMapped(sizes, regs) && forall a :: a in regs ==> IsBankWord(sizes, a)
  }

  /** Which words are registers depends only on the keys. */
  lemma BankRegistersKeys(sizes: seq<nat>, regs: RegFile, regs': RegFile)
    requires BankRegisters(sizes, regs) && regs'.Keys == regs.Keys
    ensures BankRegisters(sizes, regs')
  {
    assert forall a :: a in regs' <==> a in regs;
  }

  /** The callbacks' registers are still there after a write that keeps the keys. */
  lemma RegistersKeep(soc: Soc, sizes: seq<nat>, regs: RegFile, regs': RegFile)
    requires SocReady(soc, regs) && BankRegisters(sizes, regs) && regs'.Keys == regs.Keys
    ensures SocReady(soc, regs') && BankRegisters(sizes, regs')
  {
    SocReadyKeys(soc, regs, regs');
    BankRegistersKeys(sizes, regs, regs');
  }

  class Pmx {
    const soc: Soc
    /** Words per memory resource (`tegra_pinctrl_get_bank_size`). */
    const bankSizes: seq<nat>
    /** The mapped registers, `pmx->regs[bank] + reg`. */
    var regs: RegFile
    /** `pmx->gpio_conf`: the mux word saved per GPIO pin. */
    const gpioConf: array<Word>
    /** `pmx->backup_regs`: the flat suspend snapshot. */
    const backupRegs: array<Word>
    /** `pmx->group_pins`, and each function's `groups` (as a start) and `ngroups`. */
    const groupPins: array<string>
    const funcStart: seq<nat>
    const funcCount: seq<nat>

    /** The registers and buffers the callbacks use are all there. */
    ghost predicate Valid()
      reads this
    {
      && SocReady(soc, regs)
      && BankRegisters(bankSizes, regs)
      && gpioConf.Length == TotalWords(bankSizes)
      && backupRegs.Length == TotalWords(bankSizes)
      && gpioConf != backupRegs
    }

    /** Each function's list in `group_pins` is the names of the groups offering it. */
    ghost predicate Indexed()
      reads groupPins
    {
      && |funcStart| == |soc.functions| && |funcCount| == |soc.functions|
      && forall fn :: 0 <= fn < |soc.functions| ==>
           && funcCount[fn] == |FunctionGroups(soc.groups, fn, |soc.groups|)|
           && ListAt(groupPins[..], funcStart[fn], soc.groups, FunctionGroups(soc.groups, fn, |soc.groups|))
    }

    /**
     * `tegra_pinctrl_probe`: the function index is built, the save buffers are
     * allocated zeroed, and the parked bits are cleared.
     */
    constructor (soc: Soc, bankSizes: seq<nat>, regs: RegFile)
      requires SocReady(soc, regs) && BankRegisters(bankSizes, regs)
      ensures Valid() && Indexed() && this.soc == soc && this.bankSizes == bankSizes
      ensures this.regs == ClearParked(soc.groups, regs)
      ensures forall k :: 0 <= k < gpioConf.Length ==> gpioConf[k] == Zero()
      ensures forall k :: 0 <= k < backupRegs.Length ==> backupRegs[k] == Zero()
    {
      this.soc := soc;
      this.bankSizes := bankSizes;
      var pool, start, count := BuildFunctionIndex(soc.groups, |soc.functions|);
      groupPins, funcStart, funcCount := pool, start, count;
      this.regs := regs;
      gpioConf := new Word[TotalWords(bankSizes)](_ => Zero());
      backupRegs := new Word[TotalWords(bankSizes)](_ => Zero());
      new;
      ClearParkedBits();
    }

    /** `tegra_pinctrl_get_func_groups`: the names of the groups offering `fn`, in table order. */
    method GetFunctionGroups(fn: nat) returns (names: seq<string>)
      requires Indexed() && fn < |soc.functions|
      ensures |names| == |FunctionGroups(soc.groups, fn, |soc.groups|)|
      ensures forall k :: 0 <= k < |names| ==> names[k] == soc.groups[FunctionGroups(soc.groups, fn, |soc.groups|)[k]].name
    {
      names := groupPins[funcStart[fn]..funcStart[fn] + funcCount[fn]];
    }

    /** `tegra_pinconf_group_get`. */
    method GroupGet(group: nat, p: Param) returns (r: Result<U16>)
      requires Valid() && group < |soc.groups|
      ensures r == GetConfig(soc, regs, soc.groups[group], p)
    {
      var g := soc.groups[group];
      var loc := Resolve(soc, g, p);
      if loc.Err? {
        return Err(loc.error);
      }
      var l := loc.value;
      LocatedField(soc, g, regs, p);
      var val := regs[LocAddr(l)];
      var arg: U16 := Field(val, l.bit, l.width);
      if p == PadPower {
        arg := Not(arg);
      }
      return Ok(arg);
    }

    /**
     * `tegra_pinconf_group_set`: the configurations in order, returning at the
     * first error with the earlier writes in place.
     */
    method GroupSet(group: nat, cfgs: seq<Config>) returns (status: Outcome)
      requires Valid() && group < |soc.groups|
      modifies this
      ensures Valid()
      ensures Applied(status, regs) == SetBatch(soc, old(regs), soc.groups[group], cfgs)
    {
      var g := soc.groups[group];
      for i := 0 to |cfgs|
        invariant Valid()
        invariant SetBatch(soc, old(regs), g, cfgs) == SetBatch(soc, regs, g, cfgs[i..])
      {
        assert cfgs[i..][0] == cfgs[i] && cfgs[i..][1..] == cfgs[i + 1..];
        var param, arg := cfgs[i].param, cfgs[i].arg;
        if param == PadPower {
          arg := Not(arg);
        }
        var loc := Resolve(soc, g, param);
        if loc.Err? {
          assert SetOne(soc, regs, g, cfgs[i]) == Err(NotSupported);
          return Fail(loc.error);
        }
        var l := loc.value;
        LocatedField(soc, g, regs, param);
        ResolveWidth(soc, g, param);
        var val := regs[LocAddr(l)];
        if param == Lock && BitSet(val, l.bit) && arg == 0 {
          assert SetOne(soc, regs, g, cfgs[i]) == Err(Invalid);
          return Fail(Invalid);
        }
        if l.width == 1 {
          arg := if arg != 0 then 1 else 0;
        }
        assert arg == StoredArg(param, cfgs[i].arg, l.width);
        if arg >= Pow2(l.width) {
          assert SetOne(soc, regs, g, cfgs[i]) == Err(Invalid);
          return Fail(Invalid);
        }
        ghost var before := regs;
        val := SetField(val, l.bit, l.width, arg);
        regs := regs[LocAddr(l) := val];
        assert SetOne(soc, before, g, cfgs[i]) == Ok(regs);
        SocReadyKeys(soc, old(regs), regs);
      }
      assert cfgs[|cfgs|..] == [];
      return Pass;
    }

    /**
     * `tegra_pinctrl_set_mux`: the first slot holding the function goes into
     * the mux field, with the SFIO-select bit set where the SoC and the group
     * have one.
     */
    method SetMux(fn: nat, group: nat) returns (status: Outcome)
      requires Valid() && group < |soc.groups|
      modifies this
      ensures Valid()
      ensures match PinConf.SetMux(soc, old(regs), soc.groups[group], fn)
              case Ok(regs') => status == Pass && regs == regs'
              case Err(e) => status == Fail(e) && regs == old(regs)
    {
      var g := soc.groups[group];
      if g.muxReg < 0 {
        return Fail(Invalid);
      }
      var i := 0;
      while i < 4 && g.funcs[i] != fn
        invariant 0 <= i <= 4
        invariant forall k :: 0 <= k < i ==> g.funcs[k] != fn
      {
        i := i + 1;
      }
      if i == 4 {
        assert fn !in g.funcs;
        return Fail(Invalid);
      }
      assert FindSlot(g.funcs, fn) == Some(i);
      MuxField(soc, g, regs);
      var val := regs[MuxAddr(g)];
      val := SetField(val, g.muxBit, 2, i);
      if soc.sfselInMux && g.sfselBit >= 0 {
        val := SetBit(val, g.sfselBit);
      }
      regs := regs[MuxAddr(g) := val];
      assert PinConf.SetMux(soc, old(regs), g, fn) == Ok(regs);
      SocReadyKeys(soc, old(regs), regs);
      return Pass;
    }

    /** `tegra_pinctrl_clear_parked_bits`: each group with a parked mask, in table order. */
    method ClearParkedBits()
      requires SocReady(soc, regs) && BankRegisters(bankSizes, regs)
      modifies this
      ensures regs == ClearParked(soc.groups, old(regs))
      ensures SocReady(soc, regs) && BankRegisters(bankSizes, regs)
    {
      SocReadyParkMapped(soc, regs);
      for i := 0 to |soc.groups|
        invariant ParkMapped(soc.groups[..i], old(regs))
        invariant regs == ClearParked(soc.groups[..i], old(regs))
      {
        assert soc.groups[..i + 1][..i] == soc.groups[..i];
        var g := soc.groups[i];
        if NonZero(g.parkedBitmask) {
          var a := if g.muxReg != -1 then MuxAddr(g) else Addr(g.drvBank, g.drvReg);
          var val := regs[a];
          val := ClearMask(val, g.parkedBitmask);
          regs := regs[a := val];
        }
      }
      assert soc.groups[..|soc.groups|] == soc.groups;
      SocReadyKeys(soc, old(regs), regs);
    }

    /** The group search of the GPIO callbacks: the first single-pin group holding pin `offset`, or `ngroups`. */
    method FindGpioGroup(offset: nat) returns (group: nat)
      ensures group <= |soc.groups|
      ensures group == |soc.groups| <==> GpioGroup(soc.groups, offset).None?
      ensures group < |soc.groups| ==> GpioGroup(soc.groups, offset) == Some(group)
    {
      group := 0;
      while group < |soc.groups|
        invariant group <= |soc.groups|
        invariant forall j :: 0 <= j < group ==> !OwnsPin(soc.groups[j], offset)
      {
        var pins := soc.groups[group].pins;
        if |pins| == 1 && offset == pins[0] {
          break;
        }
        group := group + 1;
      }
    }

    /** `tegra_pinctrl_gpio_save_config`. */
    method GpioSaveConfig(offset: nat) returns (status: Outcome)
      requires Valid() && offset < gpioConf.Length
      modifies gpioConf
      ensures match SaveConfig(soc, GpioState(regs, old(gpioConf[..])), offset)
              case Ok(conf) => status == Pass && gpioConf[..] == conf
              case Err(e) => status == Fail(e) && gpioConf[..] == old(gpioConf[..])
    {
      var group := FindGpioGroup(offset);
      if group == |soc.groups| {
        return Fail(Invalid);
      }
      var g := soc.groups[group];
      if g.muxReg >= 0 {
        MuxField(soc, g, regs);
        gpioConf[offset] := regs[MuxAddr(g)];
      }
      return Pass;
    }

    /** `tegra_pinctrl_gpio_restore_config`. */
    method GpioRestoreConfig(offset: nat) returns (status: Outcome)
      requires Valid() && offset < gpioConf.Length
      modifies this
      ensures Valid()
      ensures match RestoreConfig(soc, GpioState(old(regs), gpioConf[..]), offset)
              case Ok(regs') => status == Pass && regs == regs'
              case Err(e) => status == Fail(e) && regs == old(regs)
    {
      var group := FindGpioGroup(offset);
      if group == |soc.groups| {
        return Fail(Invalid);
      }
      var g := soc.groups[group];
      if g.muxReg >= 0 {
        MuxField(soc, g, regs);
        regs := regs[MuxAddr(g) := gpioConf[offset]];
        SocReadyKeys(soc, old(regs), regs);
      }
      return Pass;
    }

    /** `tegra_pinctrl_gpio_request_enable`. */
    method GpioRequestEnable(offset: nat) returns (status: Outcome)
      requires Valid() && offset < gpioConf.Length
      modifies this, gpioConf
      ensures Valid()
      ensures RequestEnable(soc, GpioState(old(regs), old(gpioConf[..])), offset) ==
              GpioStep(status, GpioState(regs, gpioConf[..]))
    {
      status := GpioSaveConfig(offset);
      if status.Fail? {
        return;
      }
      if !soc.sfselInMux {
        return Pass;
      }
      var group := FindGpioGroup(offset);
      var g := soc.groups[group];
      if g.muxReg < 0 || g.sfselBit < 0 {
        return Fail(Invalid);
      }
      MuxField(soc, g, regs);
      var value := regs[MuxAddr(g)];
      value := ClearBit(value, g.sfselBit);
      regs := regs[MuxAddr(g) := value];
      SocReadyKeys(soc, old(regs), regs);
      return Pass;
    }

    /** `tegra_pinctrl_gpio_disable_free`. */
    method GpioDisableFree(offset: nat)
      requires Valid() && offset < gpioConf.Length
      modifies this
      ensures Valid()
      ensures DisableFree(soc, GpioState(old(regs), gpioConf[..]), offset) == GpioState(regs, gpioConf[..])
    {
      var _ := GpioRestoreConfig(offset);
    }

    /** `tegra_pinctrl_suspend`: every bank, word by word, into the backup buffer. */
    method Suspend()
      requires Valid()
      modifies backupRegs
      ensures backupRegs[..] == Snapshot(bankSizes, regs, |bankSizes|)
    {
      var idx := 0;
      for i := 0 to |bankSizes|
        invariant idx == BankBase(bankSizes, i)
        invariant idx <= backupRegs.Length
        invariant backupRegs[..idx] == Snapshot(bankSizes, regs, i)
      {
        BankInside(bankSizes, i, |bankSizes|);
        for k := 0 to bankSizes[i]
          invariant idx == BankBase(bankSizes, i) + k
          invariant backupRegs[..idx] == Snapshot(bankSizes, regs, i) + BankWords(bankSizes, regs, i)[..k]
        {
          assert IsBankWord(bankSizes, WordAddr(i, k));
          backupRegs[idx] := regs[WordAddr(i, k)];
          idx := idx + 1;
        }
        assert BankWords(bankSizes, regs, i)[..bankSizes[i]] == BankWords(bankSizes, regs, i);
      }
      assert backupRegs[..] == backupRegs[..idx];
    }

    /** The inner loop of the resume: the words of bank `i` from the backup, starting at position `at`. */
    method RestoreBank(i: nat, at: nat, ghost regs0: RegFile)
      requires i < |bankSizes| && at == BankBase(bankSizes, i)
      requires backupRegs.Length == TotalWords(bankSizes) && BanksMapped(bankSizes, regs0)
      requires regs == Partial(bankSizes, regs0, backupRegs[..], i, 0)
      modifies this
      ensures regs == Partial(bankSizes, regs0, backupRegs[..], i + 1, 0)
    {
      ghost var backup := backupRegs[..];
      BankInside(bankSizes, i, |bankSizes|);
      var idx := at;
      for k := 0 to bankSizes[i]
        invariant idx == at + k
        invariant regs == Partial(bankSizes, regs0, backup, i, k)
      {
        PartialStep(bankSizes, regs0, backup, i, k);
        regs := regs[WordAddr(i, k) := backupRegs[idx]];
        idx := idx + 1;
      }
      PartialNextBank(bankSizes, regs0, backup, i);
    }

    /** `tegra_pinctrl_resume`: the backup buffer, in the same order, back into every bank. */
    method Resume()
      requires Valid()
      modifies this
      ensures Valid()
      ensures regs == Restored(bankSizes, old(regs), backupRegs[..])
    {
      ghost var regs0 := regs;
      assert BanksMapped(bankSizes, regs0);
      PartialEnds(bankSizes, regs0, backupRegs[..]);
      var idx := 0;
      for i := 0 to |bankSizes|
        invariant idx == BankBase(bankSizes, i)
        invariant regs == Partial(bankSizes, regs0, backupRegs[..], i, 0)
      {
        assert BankBase(bankSizes, i + 1) == idx + bankSizes[i];
        RestoreBank(i, idx, regs0);
        idx := idx + bankSizes[i];
      }
      RegistersKeep(soc, bankSizes, regs0, regs);
    }
  }
}
