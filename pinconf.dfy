/**
 * Group configuration and function selection on the register file:
 * `tegra_pinconf_group_get`, `tegra_pinconf_group_set` and
 * `tegra_pinctrl_set_mux`, as functions from the registers before to the
 * registers after.
 */
module PinConf {
  import opened Wrappers
  import opened Bits
  import opened Tables
  import opened Resolution

  /** The controller's registers, by bank and byte offset. */
  type RegFile = map<Addr, Word>

  /** Every register a group's supported parameters or parked bits name is present. */
  ghost predicate GroupMapped(soc: Soc, g: PinGroup, regs: RegFile)
  {
    && (forall p :: Resolve(soc, g, p).Ok? ==> LocAddr(Resolve(soc, g, p).value) in regs)
    && (NonZero(g.parkedBitmask) ==> ParkAddr(g) in regs)
  }

  /** A well-formed group whose registers are all present. */
  ghost predicate Ready(soc: Soc, g: PinGroup, regs: RegFile)
  {
    GroupWellFormed(soc, g) && GroupMapped(soc, g, regs)
  }

  /** Every group of the SoC is ready on these registers. */
  ghost predicate SocReady(soc: Soc, regs: RegFile)
  {
    forall i :: 0 <= i < |soc.groups| ==> Ready(soc, soc.groups[i], regs)
  }

  /** Readiness of the whole SoC depends only on which registers exist. */
  lemma SocReadyKeys(soc: Soc, regs: RegFile, regs': RegFile)
    requires SocReady(soc, regs) && regs'.Keys == regs.Keys
    ensures SocReady(soc, regs')
  {
    forall i | 0 <= i < |soc.groups|
      ensures Ready(soc, soc.groups[i], regs')
    {
      ReadyKeys(soc, soc.groups[i], regs, regs');
    }
  }

  /** Readiness depends only on which registers exist, not on their values. */
  lemma ReadyKeys(soc: Soc, g: PinGroup, regs: RegFile, regs': RegFile)
    requires Ready(soc, g, regs) && regs'.Keys == regs.Keys
    ensures Ready(soc, g, regs')
  {
    forall p | Resolve(soc, g, p).Ok?
      ensures LocAddr(Resolve(soc, g, p).value) in regs'
    {
      assert LocAddr(Resolve(soc, g, p).value) in regs.Keys;
    }
    if NonZero(g.parkedBitmask) {
      assert ParkAddr(g) in regs.Keys;
    }
  }

  /** A group with a mux register has its function field there, inside the word. */
  lemma MuxField(soc: Soc, g: PinGroup, regs: RegFile)
    requires Ready(soc, g, regs) && g.muxReg >= 0
    ensures Resolve(soc, g, Function) == Ok(Loc(g.muxBank, g.muxReg, g.muxBit, 2))
    ensures MuxAddr(g) in regs
    ensures 0 <= g.muxBit <= 30
  {
    assert LocAddr(Resolve(soc, g, Function).value) in regs;
  }

  /** The located field, with the facts a read or write of it needs. */
  lemma LocatedField(soc: Soc, g: PinGroup, regs: RegFile, p: Param)
    requires Ready(soc, g, regs) && Resolve(soc, g, p).Ok?
    ensures LocFits(Resolve(soc, g, p).value)
    ensures LocAddr(Resolve(soc, g, p).value) in regs
    ensures Pow2(Resolve(soc, g, p).value.width) <= 0x1_0000
  {
    Pow2Monotone(Resolve(soc, g, p).value.width, 16);
    Pow2Sixteen();
  }

  /** `arg = !arg`: the pad-power argument is stored inverted. */
  function Not(arg: U16): (r: U16)
    ensures r <= 1 && (r == 1 <==> arg == 0)
  {
    if arg == 0 then 1 else 0
  }

  /**
   * `tegra_pinconf_group_get`: the field's value, inverted for pad power, or
   * NotSupported when the parameter does not resolve for this group.
   */
  function GetConfig(soc: Soc, regs: RegFile, g: PinGroup, p: Param): (r: Result<U16>)
    requires Ready(soc, g, regs)
    ensures Resolve(soc, g, p).Err? <==> r == Err(NotSupported)
    ensures r.Ok? && p != PadPower ==> r.value < Pow2(Resolve(soc, g, p).value.width)
    ensures r.Ok? && p == PadPower ==> r.value <= 1
  {
    match Resolve(soc, g, p)
    case Err(e) => Err(e)
    case Ok(l) =>
      LocatedField(soc, g, regs, p);
      var arg: U16 := Field(regs[LocAddr(l)], l.bit, l.width);
      Ok(if p == PadPower then Not(arg) else arg)
  }

  /** The lock bit of a group is set in its register: LOCK may no longer be cleared. */
  ghost predicate Locked(soc: Soc, regs: RegFile, g: PinGroup)
    requires Ready(soc, g, regs)
  {
    Resolve(soc, g, Lock).Ok? &&
    (LocatedField(soc, g, regs, Lock);
     BitSet(regs[LocAddr(Resolve(soc, g, Lock).value)], Resolve(soc, g, Lock).value.bit))
  }

  /** The argument as written to the field: inverted for pad power, then reduced to 0 or 1 for a one-bit field. */
  function StoredArg(p: Param, arg: U16, width: int): (r: nat)
    ensures width == 1 ==> r <= 1
    ensures width == 1 && p != PadPower ==> (r == 1 <==> arg != 0)
    ensures width == 1 && p == PadPower ==> (r == 1 <==> arg == 0)
    ensures width != 1 && p != PadPower ==> r == arg
  {
    var a := if p == PadPower then Not(arg) else arg;
    if width == 1 then (if a != 0 then 1 else 0) else a
  }

  /**
   * One configuration of `tegra_pinconf_group_set`: NotSupported when the
   * parameter does not resolve, Invalid when it would clear a set lock bit or
   * the value does not fit the field, otherwise the field rewritten.
   */
  function SetOne(soc: Soc, regs: RegFile, g: PinGroup, c: Config): (r: Result<RegFile>)
    requires Ready(soc, g, regs)
    ensures Resolve(soc, g, c.param).Err? <==> r == Err(NotSupported)
    ensures r.Ok? ==> r.value.Keys == regs.Keys && Ready(soc, g, r.value)
  {
    match Resolve(soc, g, c.param)
    case Err(e) => Err(e)
    case Ok(l) =>
      LocatedField(soc, g, regs, c.param);
      ResolveWidth(soc, g, c.param);
      var val := regs[LocAddr(l)];
      var arg := if c.param == PadPower then Not(c.arg) else c.arg;
      if c.param == Lock && BitSet(val, l.bit) && arg == 0 then
        Err(Invalid)
      else
        var stored := StoredArg(c.param, c.arg, l.width);
        if stored >= Pow2(l.width) then Err(Invalid)
        else
          var regs' := regs[LocAddr(l) := SetField(val, l.bit, l.width, stored)];
          ReadyKeys(soc, g, regs, regs');
          Ok(regs')
  }

  /** The value a successful set reads back: the argument, or 0/1 for a one-bit field. */
  function Readback(arg: U16, width: int): U16
  {
    if width == 1 then (if arg != 0 then 1 else 0) else arg
  }

  /**
   * When a configuration resolves, it is refused with Invalid exactly when it
   * would clear a set lock bit or its value does not fit the field; a one-bit
   * field takes any argument, nonzero meaning 1.
   */
  lemma SetOneOutcome(soc: Soc, regs: RegFile, g: PinGroup, c: Config)
    requires Ready(soc, g, regs) && Resolve(soc, g, c.param).Ok?
    ensures var width := Resolve(soc, g, c.param).value.width;
      && (SetOne(soc, regs, g, c) == Err(Invalid) <==>
           (c.param == Lock && Locked(soc, regs, g) && c.arg == 0) ||
           StoredArg(c.param, c.arg, width) >= Pow2(width))
      && (SetOne(soc, regs, g, c).Ok? <==> SetOne(soc, regs, g, c) != Err(Invalid))
      && (width == 1 && !(c.param == Lock && Locked(soc, regs, g) && c.arg == 0) ==> SetOne(soc, regs, g, c).Ok?)
  {
    ResolveWidth(soc, g, c.param);
  }

  /** Once the lock bit is set, LOCK with argument 0 is refused and the registers are left as they were. */
  lemma LockLatched(soc: Soc, regs: RegFile, g: PinGroup, arg: U16)
    requires Ready(soc, g, regs) && Locked(soc, regs, g)
    ensures SetOne(soc, regs, g, Config(Lock, 0)) == Err(Invalid)
    ensures arg != 0 ==> SetOne(soc, regs, g, Config(Lock, arg)).Ok?
    ensures arg != 0 ==> GetConfig(soc, SetOne(soc, regs, g, Config(Lock, arg)).value, g, Lock) == Ok(1)
  {
    ResolveWidth(soc, g, Lock);
    if arg != 0 {
      SetThenGet(soc, regs, g, Config(Lock, arg));
    }
  }

  /** After a successful set, reading the same parameter gives back the argument (0/1 for a one-bit field). */
  lemma SetThenGet(soc: Soc, regs: RegFile, g: PinGroup, c: Config)
    requires Ready(soc, g, regs) && SetOne(soc, regs, g, c).Ok?
    ensures GetConfig(soc, SetOne(soc, regs, g, c).value, g, c.param) ==
            Ok(Readback(c.arg, Resolve(soc, g, c.param).value.width))
  {
    var l := Resolve(soc, g, c.param).value;
    LocatedField(soc, g, regs, c.param);
    ResolveWidth(soc, g, c.param);
    var regs' := SetOne(soc, regs, g, c).value;
    var stored := StoredArg(c.param, c.arg, l.width);
    assert regs'[LocAddr(l)] == SetField(regs[LocAddr(l)], l.bit, l.width, stored);
    assert Field(regs'[LocAddr(l)], l.bit, l.width) == stored;
  }

  /** A successful set changes one register, and in it only the bits of the field. */
  lemma SetOneFrame(soc: Soc, regs: RegFile, g: PinGroup, c: Config)
    requires Ready(soc, g, regs) && SetOne(soc, regs, g, c).Ok?
    ensures var l := Resolve(soc, g, c.param).value; var regs' := SetOne(soc, regs, g, c).value;
      && (forall a :: a in regs && a != LocAddr(l) ==> regs'[a] == regs[a])
      && (forall j :: 0 <= j < 32 && !(l.bit <= j < l.bit + l.width) ==> regs'[LocAddr(l)][j] == regs[LocAddr(l)][j])
  {
    LocatedField(soc, g, regs, c.param);
  }

  /**
   * A successful set leaves what a parameter of a group reads unchanged when
   * that parameter's field shares no bit with the field written.
   */
  lemma SetOneKeepsField(soc: Soc, regs: RegFile, g: PinGroup, c: Config, h: PinGroup, q: Param)
    requires Ready(soc, g, regs) && Ready(soc, h, regs) && SetOne(soc, regs, g, c).Ok?
    requires Resolve(soc, h, q).Ok? ==> !Overlap(Resolve(soc, g, c.param).value, Resolve(soc, h, q).value)
    ensures Ready(soc, h, SetOne(soc, regs, g, c).value)
    ensures GetConfig(soc, SetOne(soc, regs, g, c).value, h, q) == GetConfig(soc, regs, h, q)
  {
    var regs' := SetOne(soc, regs, g, c).value;
    ReadyKeys(soc, h, regs, regs');
    if Resolve(soc, h, q).Ok? {
      var l := Resolve(soc, g, c.param).value;
      var m := Resolve(soc, h, q).value;
      SetOneFrame(soc, regs, g, c);
      LocatedField(soc, h, regs, q);
      if LocAddr(m) == LocAddr(l) {
        FieldSameBits(regs'[LocAddr(m)], regs[LocAddr(m)], m.bit, m.width);
      }
    }
  }

  /**
   * In a group whose fields are disjoint, a successful set of one parameter
   * leaves what every other parameter of the group reads unchanged.
   */
  lemma SetOneKeepsOthers(soc: Soc, regs: RegFile, g: PinGroup, c: Config, q: Param)
    requires Ready(soc, g, regs) && FieldsDisjoint(soc, g) && SetOne(soc, regs, g, c).Ok? && q != c.param
    ensures GetConfig(soc, SetOne(soc, regs, g, c).value, g, q) == GetConfig(soc, regs, g, q)
  {
    SetOneKeepsField(soc, regs, g, c, g, q);
  }

  /** A successful set on one group leaves every reading of a group apart from it unchanged. */
  lemma SetOneIsolated(soc: Soc, regs: RegFile, g: PinGroup, c: Config, h: PinGroup, q: Param)
    requires Ready(soc, g, regs) && Ready(soc, h, regs) && Apart(soc, g, h) && SetOne(soc, regs, g, c).Ok?
    ensures Ready(soc, h, SetOne(soc, regs, g, c).value)
    ensures GetConfig(soc, SetOne(soc, regs, g, c).value, h, q) == GetConfig(soc, regs, h, q)
  {
    SetOneKeepsField(soc, regs, g, c, h, q);
  }

  /** Pad power is active low in the register: the stored bit is set exactly when the argument is 0. */
  lemma PadPowerInverted(soc: Soc, regs: RegFile, g: PinGroup, arg: U16)
    requires Ready(soc, g, regs) && Resolve(soc, g, PadPower).Ok?
    ensures SetOne(soc, regs, g, Config(PadPower, arg)).Ok?
    ensures var l := Resolve(soc, g, PadPower).value;
      SetOne(soc, regs, g, Config(PadPower, arg)).value[LocAddr(l)][l.bit] <==> arg == 0
  {
    var l := Resolve(soc, g, PadPower).value;
    LocatedField(soc, g, regs, PadPower);
    ResolveWidth(soc, g, PadPower);
    var w := SetOne(soc, regs, g, Config(PadPower, arg)).value[LocAddr(l)];
    FieldOne(w, l.bit);
  }

  /** The status of a batch and the registers it leaves. */
  datatype Applied = Applied(status: Outcome, regs: RegFile)

  /**
   * The loop of `tegra_pinconf_group_set`: the configurations in order, stopping
   * at the first that fails; writes already made stay.
   */
  function SetBatch(soc: Soc, regs: RegFile, g: PinGroup, cfgs: seq<Config>): (r: Applied)
    requires Ready(soc, g, regs)
    ensures r.regs.Keys == regs.Keys && Ready(soc, g, r.regs)
    ensures r.status.Fail? ==> r.status.error == Invalid || r.status.error == NotSupported
    decreases |cfgs|
  {
    if cfgs == [] then Applied(Pass, regs)
    else
      match SetOne(soc, regs, g, cfgs[0])
      case Err(e) => Applied(Fail(e), regs)
      case Ok(regs') => SetBatch(soc, regs', g, cfgs[1..])
  }

  /** A batch runs as its prefix followed by the rest, and a failed prefix ends it. */
  lemma {:induction false} SetBatchSplit(soc: Soc, regs: RegFile, g: PinGroup, cfgs: seq<Config>, k: nat)
    requires Ready(soc, g, regs) && k <= |cfgs|
    ensures var pre := SetBatch(soc, regs, g, cfgs[..k]);
      && (pre.status.Pass? ==> SetBatch(soc, regs, g, cfgs) == SetBatch(soc, pre.regs, g, cfgs[k..]))
      && (pre.status.Fail? ==> SetBatch(soc, regs, g, cfgs) == pre)
    decreases k
  {
    if k > 0 {
      assert cfgs[..k][0] == cfgs[0];
      assert cfgs[..k][1..] == cfgs[1..][..k - 1];
      match SetOne(soc, regs, g, cfgs[0])
      case Err(_) =>
      case Ok(regs') =>
        SetBatchSplit(soc, regs', g, cfgs[1..], k - 1);
        assert cfgs[1..][k - 1..] == cfgs[k..];
    } else {
      assert cfgs[..k] == [] && cfgs[k..] == cfgs;
    }
  }

  /**
   * When the configurations before position `k` all apply and the one at `k`
   * fails, the batch fails with that error, keeps the earlier writes and makes
   * none of the later ones.
   */
  lemma SetBatchStopsAtFailure(soc: Soc, regs: RegFile, g: PinGroup, cfgs: seq<Config>, k: nat)
    requires Ready(soc, g, regs) && k < |cfgs|
    requires SetBatch(soc, regs, g, cfgs[..k]).status.Pass?
    requires SetOne(soc, SetBatch(soc, regs, g, cfgs[..k]).regs, g, cfgs[k]).Err?
    ensures SetBatch(soc, regs, g, cfgs) ==
            Applied(Fail(SetOne(soc, SetBatch(soc, regs, g, cfgs[..k]).regs, g, cfgs[k]).error),
                    SetBatch(soc, regs, g, cfgs[..k]).regs)
  {
    SetBatchSplit(soc, regs, g, cfgs, k);
  }

  /** A batch of one configuration is that configuration. */
  lemma SetBatchSingle(soc: Soc, regs: RegFile, g: PinGroup, c: Config)
    requires Ready(soc, g, regs)
    ensures SetBatch(soc, regs, g, [c]) ==
            match SetOne(soc, regs, g, c)
            case Err(e) => Applied(Fail(e), regs)
            case Ok(regs') => Applied(Pass, regs')
  {
    assert [c][1..] == [];
  }

  /**
   * Two settings of one parameter in one batch: when both apply, the batch
   * passes and the later value is what reads back.
   */
  lemma SetBatchLastWins(soc: Soc, regs: RegFile, g: PinGroup, p: Param, a: U16, b: U16)
    requires Ready(soc, g, regs) && SetOne(soc, regs, g, Config(p, a)).Ok?
    requires SetOne(soc, SetOne(soc, regs, g, Config(p, a)).value, g, Config(p, b)).Ok?
    ensures var after := SetBatch(soc, regs, g, [Config(p, a), Config(p, b)]);
      && after.status.Pass?
      && GetConfig(soc, after.regs, g, p) == Ok(Readback(b, Resolve(soc, g, p).value.width))
  {
    var r1 := SetOne(soc, regs, g, Config(p, a)).value;
    var r2 := SetOne(soc, r1, g, Config(p, b)).value;
    var cfgs := [Config(p, a), Config(p, b)];
    assert cfgs[..1] == [Config(p, a)] && cfgs[1..] == [Config(p, b)];
    SetBatchSingle(soc, regs, g, Config(p, a));
    SetBatchSingle(soc, r1, g, Config(p, b));
    SetBatchSplit(soc, regs, g, cfgs, 1);
    SetThenGet(soc, r1, g, Config(p, b));
  }

  /** The first of a group's function slots that holds the function, if any. */
  function FindSlot(funcs: seq<nat>, fn: nat): (r: Option<nat>)
    ensures r.Some? ==> r.value < |funcs| && funcs[r.value] == fn && forall j :: 0 <= j < r.value ==> funcs[j] != fn
    ensures r.None? <==> fn !in funcs
  {
    if funcs == [] then None
    else if funcs[0] == fn then Some(0)
    else
      match FindSlot(funcs[1..], fn)
      case None => None
      case Some(i) => Some(i + 1)
  }

  /**
   * The shift count `set_mux`, as written, applies to set the SFIO-select
   * bit: the group's bit number, unchecked, once both checks have passed and
   * the SoC keeps that bit in the mux register.
   */
  function SfselShiftAsWritten(soc: Soc, g: PinGroup, fn: nat): (r: Option<int>)
    ensures r.Some? <==> soc.sfselInMux && g.muxReg >= 0 && fn in g.funcs
    ensures r.Some? ==> r.value == g.sfselBit
  {
    if soc.sfselInMux && g.muxReg >= 0 && FindSlot(g.funcs, fn).Some? then Some(g.sfselBit) else None
  }

  /**
   * `tegra_pinctrl_set_mux`: Invalid when the group has no mux register or the
   * function is in none of its slots; otherwise the mux field takes the slot
   * number and, where the SoC has it and the group defines one, the
   * SFIO-select bit is set.
   */
  function SetMux(soc: Soc, regs: RegFile, g: PinGroup, fn: nat): (r: Result<RegFile>)
    requires Ready(soc, g, regs)
    ensures r.Err? <==> g.muxReg < 0 || fn !in g.funcs
    ensures r.Err? ==> r.error == Invalid
    ensures r.Ok? ==> r.value.Keys == regs.Keys && Ready(soc, g, r.value)
  {
    if g.muxReg < 0 then Err(Invalid)
    else
      match FindSlot(g.funcs, fn)
      case None => Err(Invalid)
      case Some(i) =>
        MuxField(soc, g, regs);
        var val := SetField(regs[MuxAddr(g)], g.muxBit, 2, i);
        var val := if SetsSfsel(soc, g) then SetBit(val, g.sfselBit) else val;
        var regs' := regs[MuxAddr(g) := val];
        ReadyKeys(soc, g, regs, regs');
        Ok(regs')
  }

  /** Whether `set_mux` sets an SFIO-select bit for the group. */
  predicate SetsSfsel(soc: Soc, g: PinGroup)
  {
    soc.sfselInMux && g.sfselBit >= 0
  }

  /**
   * `set_mux` is the FUNCTION configuration with the slot number of the
   * function, followed by setting the SFIO-select bit where the SoC has one.
   */
  lemma SetMuxIsFunctionConfig(soc: Soc, regs: RegFile, g: PinGroup, fn: nat)
    requires Ready(soc, g, regs) && SetMux(soc, regs, g, fn).Ok?
    ensures var i := FindSlot(g.funcs, fn).value;
      && SetOne(soc, regs, g, Config(Function, i)).Ok?
      && var w := SetOne(soc, regs, g, Config(Function, i)).value;
         SetMux(soc, regs, g, fn).value ==
           if SetsSfsel(soc, g) then w[MuxAddr(g) := SetBit(w[MuxAddr(g)], g.sfselBit)] else w
  {
    MuxField(soc, g, regs);
  }

  /**
   * After `set_mux`, the slot index reads back as FUNCTION (when the
   * SFIO-select bit lies outside the mux field), the SFIO-select bit is set,
   * and no other bit of any register changes.
   */
  lemma SetMuxEffect(soc: Soc, regs: RegFile, g: PinGroup, fn: nat)
    requires Ready(soc, g, regs) && SetMux(soc, regs, g, fn).Ok?
    ensures var i := FindSlot(g.funcs, fn).value; var regs' := SetMux(soc, regs, g, fn).value;
      && (SetsSfsel(soc, g) ==> regs'[MuxAddr(g)][g.sfselBit])
      && (forall a :: a in regs && a != MuxAddr(g) ==> regs'[a] == regs[a])
      && (forall j :: 0 <= j < 32 && !(g.muxBit <= j < g.muxBit + 2) && !(SetsSfsel(soc, g) && j == g.sfselBit) ==>
            regs'[MuxAddr(g)][j] == regs[MuxAddr(g)][j])
      && (!(SetsSfsel(soc, g) && g.muxBit <= g.sfselBit < g.muxBit + 2) ==> GetConfig(soc, regs', g, Function) == Ok(i))
  {
    MuxField(soc, g, regs);
    var i := FindSlot(g.funcs, fn).value;
    var regs' := SetMux(soc, regs, g, fn).value;
    var val := SetField(regs[MuxAddr(g)], g.muxBit, 2, i);
    if SetsSfsel(soc, g) && !(g.muxBit <= g.sfselBit < g.muxBit + 2) {
      FieldSameBits(regs'[MuxAddr(g)], val, g.muxBit, 2);
    }
  }
}
