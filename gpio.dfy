/**
 * Handing a pin to the GPIO controller and back: the mux register of the pin's
 * single-pin group is saved before the pin leaves pin-mux control and written
 * back when it returns.
 */
module Gpio {
  import opened Wrappers
  import opened Bits
  import opened Tables
  import opened Resolution
  import opened PinConf

  /** A group made of exactly the pin `offset`. */
  predicate OwnsPin(g: PinGroup, offset: nat)
  {
    |g.pins| == 1 && g.pins[0] == offset
  }

  /** The search of the GPIO callbacks, from group `i` on: the first single-pin group holding `offset`. */
  function GpioGroupFrom(groups: seq<PinGroup>, offset: nat, i: nat): (r: Option<nat>)
    requires i <= |groups|
    ensures r.Some? ==> i <= r.value < |groups| && OwnsPin(groups[r.value], offset)
    ensures r.Some? ==> forall j :: i <= j < r.value ==> !OwnsPin(groups[j], offset)
    ensures r.None? <==> forall j :: i <= j < |groups| ==> !OwnsPin(groups[j], offset)
    decreases |groups| - i
  {
    if i == |groups| then None
    else if OwnsPin(groups[i], offset) then Some(i)
    else GpioGroupFrom(groups, offset, i + 1)
  }

  function GpioGroup(groups: seq<PinGroup>, offset: nat): Option<nat>
  {
    GpioGroupFrom(groups, offset, 0)
  }

  /** The registers and the per-pin saved mux words (`gpio_conf`). */
  datatype GpioState = GpioState(regs: RegFile, gpioConf: seq<Word>)

  ghost predicate GpioReady(soc: Soc, s: GpioState, offset: nat)
  {
    SocReady(soc, s.regs) && offset < |s.gpioConf|
  }

  /** The status of a GPIO callback and the state it leaves. */
  datatype GpioStep = GpioStep(status: Outcome, state: GpioState)

  /**
   * `tegra_pinctrl_gpio_save_config`: Invalid when no single-pin group holds
   * the pin; otherwise the group's mux word is saved under the pin, if the
   * group has a mux register.
   */
  function SaveConfig(soc: Soc, s: GpioState, offset: nat): (r: Result<seq<Word>>)
    requires GpioReady(soc, s, offset)
    ensures r.Err? <==> GpioGroup(soc.groups, offset).None?
    ensures r.Err? ==> r.error == Invalid
    ensures r.Ok? ==> |r.value| == |s.gpioConf|
    ensures r.Ok? ==> forall k :: 0 <= k < |s.gpioConf| && k != offset ==> r.value[k] == s.gpioConf[k]
    ensures r.Ok? ==> var g := soc.groups[GpioGroup(soc.groups, offset).value];
              && (g.muxReg >= 0 ==> MuxAddr(g) in s.regs && r.value[offset] == s.regs[MuxAddr(g)])
              && (g.muxReg < 0 ==> r.value == s.gpioConf)
  {
    match GpioGroup(soc.groups, offset)
    case None => Err(Invalid)
    case Some(i) =>
      var g := soc.groups[i];
      if g.muxReg >= 0 then
        MuxField(soc, g, s.regs);
        Ok(s.gpioConf[offset := s.regs[MuxAddr(g)]])
      else Ok(s.gpioConf)
  }

  /**
   * `tegra_pinctrl_gpio_restore_config`: Invalid when no single-pin group
   * holds the pin; otherwise the saved word is written back to the group's
   * mux register, if it has one.
   */
  function RestoreConfig(soc: Soc, s: GpioState, offset: nat): (r: Result<RegFile>)
    requires GpioReady(soc, s, offset)
    ensures r.Err? <==> GpioGroup(soc.groups, offset).None?
    ensures r.Err? ==> r.error == Invalid
    ensures r.Ok? ==> r.value.Keys == s.regs.Keys
  {
    match GpioGroup(soc.groups, offset)
    case None => Err(Invalid)
    case Some(i) =>
      var g := soc.groups[i];
      if g.muxReg >= 0 then
        MuxField(soc, g, s.regs);
        Ok(s.regs[MuxAddr(g) := s.gpioConf[offset]])
      else Ok(s.regs)
  }

  /**
   * `tegra_pinctrl_gpio_request_enable`: save the mux word; then, on a SoC
   * with an SFIO-select bit, clear it so that the GPIO controller drives the
   * pin. Invalid (with the save already made) when the group has no mux
   * register or no SFIO-select bit.
   */
  function RequestEnable(soc: Soc, s: GpioState, offset: nat): (r: GpioStep)
    requires GpioReady(soc, s, offset)
    ensures r.status.Fail? ==> r.status.error == Invalid
    ensures r.state.regs.Keys == s.regs.Keys && |r.state.gpioConf| == |s.gpioConf|
    ensures forall k :: 0 <= k < |s.gpioConf| && k != offset ==> r.state.gpioConf[k] == s.gpioConf[k]
    ensures GpioGroup(soc.groups, offset).None? ==> r == GpioStep(Fail(Invalid), s)
    ensures GpioGroup(soc.groups, offset).Some? ==>
              var g := soc.groups[GpioGroup(soc.groups, offset).value];
              && (r.status.Fail? <==> soc.sfselInMux && (g.muxReg < 0 || g.sfselBit < 0))
              && r.state.gpioConf == SaveConfig(soc, s, offset).value
              && (r.status.Fail? || !soc.sfselInMux ==> r.state.regs == s.regs)
  {
    match SaveConfig(soc, s, offset)
    case Err(e) => GpioStep(Fail(e), s)
    case Ok(conf) =>
      var saved := GpioState(s.regs, conf);
      if !soc.sfselInMux then GpioStep(Pass, saved)
      else
        var g := soc.groups[GpioGroup(soc.groups, offset).value];
        if g.muxReg < 0 || g.sfselBit < 0 then GpioStep(Fail(Invalid), saved)
        else
          MuxField(soc, g, s.regs);
          GpioStep(Pass, GpioState(s.regs[MuxAddr(g) := ClearBit(s.regs[MuxAddr(g)], g.sfselBit)], conf))
  }

  /** `tegra_pinctrl_gpio_disable_free`: the restore, with its status dropped. */
  function DisableFree(soc: Soc, s: GpioState, offset: nat): (r: GpioState)
    requires GpioReady(soc, s, offset)
    ensures r.regs.Keys == s.regs.Keys && r.gpioConf == s.gpioConf
  {
    match RestoreConfig(soc, s, offset)
    case Err(_) => s
    case Ok(regs) => GpioState(regs, s.gpioConf)
  }

  /**
   * A request followed by a free gives the pin back exactly as it was: every
   * register returns to its value before the request.
   */
  lemma RequestThenFree(soc: Soc, s: GpioState, offset: nat)
    requires GpioReady(soc, s, offset)
    ensures var after := RequestEnable(soc, s, offset).state;
      GpioReady(soc, after, offset) && DisableFree(soc, after, offset).regs == s.regs
  {
    var after := RequestEnable(soc, s, offset).state;
    SocReadyKeys(soc, s.regs, after.regs);
    match GpioGroup(soc.groups, offset)
    case None =>
    case Some(i) =>
      var g := soc.groups[i];
      if g.muxReg >= 0 {
        MuxField(soc, g, s.regs);
        assert after.gpioConf[offset] == s.regs[MuxAddr(g)];
        assert after.regs[MuxAddr(g) := after.gpioConf[offset]] == s.regs;
      }
  }

  /** A request on a SoC with an SFIO-select bit clears that bit and changes no other bit of any register. */
  lemma RequestClearsSfsel(soc: Soc, s: GpioState, offset: nat)
    requires GpioReady(soc, s, offset) && RequestEnable(soc, s, offset).status.Pass? && soc.sfselInMux
    ensures var g := soc.groups[GpioGroup(soc.groups, offset).value]; var after := RequestEnable(soc, s, offset).state;
      && 0 <= g.sfselBit < 32 && MuxAddr(g) in s.regs && MuxAddr(g) in after.regs
      && !after.regs[MuxAddr(g)][g.sfselBit]
      && (forall j :: 0 <= j < 32 && j != g.sfselBit ==> after.regs[MuxAddr(g)][j] == s.regs[MuxAddr(g)][j])
      && (forall a :: a in s.regs && a != MuxAddr(g) ==> after.regs[a] == s.regs[a])
      && after.gpioConf[offset] == s.regs[MuxAddr(g)]
  {
    var g := soc.groups[GpioGroup(soc.groups, offset).value];
    MuxField(soc, g, s.regs);
  }

  /** A pin no single-pin group holds: every callback fails with Invalid and changes nothing. */
  lemma UnknownPinUnchanged(soc: Soc, s: GpioState, offset: nat)
    requires GpioReady(soc, s, offset) && GpioGroup(soc.groups, offset).None?
    ensures SaveConfig(soc, s, offset) == Err(Invalid)
    ensures RestoreConfig(soc, s, offset) == Err(Invalid)
    ensures RequestEnable(soc, s, offset) == GpioStep(Fail(Invalid), s)
    ensures DisableFree(soc, s, offset) == s
  {
  }

  /**
   * Whatever happens to the registers between a save and a restore, the
   * restore puts back the group's mux word as it was at the save and leaves
   * every other register as it found it.
   */
  lemma SaveThenRestore(soc: Soc, s: GpioState, offset: nat, regs': RegFile)
    requires GpioReady(soc, s, offset) && SaveConfig(soc, s, offset).Ok?
    requires regs'.Keys == s.regs.Keys
    ensures var s1 := GpioState(regs', SaveConfig(soc, s, offset).value);
      && GpioReady(soc, s1, offset)
      && RestoreConfig(soc, s1, offset).Ok?
      && var g := soc.groups[GpioGroup(soc.groups, offset).value];
         && (g.muxReg >= 0 ==>
               MuxAddr(g) in s.regs && RestoreConfig(soc, s1, offset).value == regs'[MuxAddr(g) := s.regs[MuxAddr(g)]])
         && (g.muxReg < 0 ==> RestoreConfig(soc, s1, offset).value == regs')
  {
    SocReadyKeys(soc, s.regs, regs');
    var g := soc.groups[GpioGroup(soc.groups, offset).value];
    if g.muxReg >= 0 {
      MuxField(soc, g, s.regs);
    }
  }

  /**
   * Two pins requested one after the other: the second request leaves the
   * first pin's saved word alone, so freeing the first pin puts back its mux
   * word from before its request and changes no other register.
   */
  lemma RequestTwoThenFreeFirst(soc: Soc, s: GpioState, a: nat, b: nat)
    requires GpioReady(soc, s, a) && b < |s.gpioConf| && a != b && GpioGroup(soc.groups, a).Some?
    ensures var s1 := RequestEnable(soc, s, a).state;
      && GpioReady(soc, s1, b)
      && var s2 := RequestEnable(soc, s1, b).state;
         && GpioReady(soc, s2, a)
         && var g := soc.groups[GpioGroup(soc.groups, a).value];
            && (g.muxReg >= 0 ==> MuxAddr(g) in s.regs && DisableFree(soc, s2, a).regs == s2.regs[MuxAddr(g) := s.regs[MuxAddr(g)]])
            && (g.muxReg < 0 ==> DisableFree(soc, s2, a).regs == s2.regs)
  {
    var s1 := RequestEnable(soc, s, a).state;
    SocReadyKeys(soc, s.regs, s1.regs);
    var s2 := RequestEnable(soc, s1, b).state;
    SocReadyKeys(soc, s1.regs, s2.regs);
    assert s2.gpioConf[a] == s1.gpioConf[a];
  }
}
