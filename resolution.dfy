/**
 * `tegra_pinconf_reg`: where a configuration parameter lives for a group.
 * A pure selection of descriptor fields; three parameters pick the mux or the
 * drive register by a per-SoC flag.
 */
module Resolution {
  import opened Wrappers
  import opened Tables

  /** A register field: bank, byte offset, first bit and width in bits. */
  datatype Loc = Loc(bank: int, reg: int, bit: int, width: int)

  function LocAddr(l: Loc): Addr { Addr(l.bank, l.reg) }

  /** The mux register, or the drive register, as a per-SoC flag chooses. */
  function MuxOrDrv(inMux: bool, g: PinGroup, bit: int, width: int): Loc
  {
    if inMux then Loc(g.muxBank, g.muxReg, bit, width) else Loc(g.drvBank, g.drvReg, bit, width)
  }

  /** The switch over the parameter; None for a value outside the enumeration. */
  function Select(soc: Soc, g: PinGroup, p: Param): Option<Loc>
  {
    match p
    case Pull => Some(Loc(g.pupdBank, g.pupdReg, g.pupdBit, 2))
    case Tristate => Some(Loc(g.triBank, g.triReg, g.triBit, 1))
    case EnableInput => Some(Loc(g.muxBank, g.muxReg, g.einputBit, 1))
    case OpenDrain => Some(Loc(g.muxBank, g.muxReg, g.odrainBit, 1))
    case Lock => Some(Loc(g.muxBank, g.muxReg, g.lockBit, 1))
    case IoReset => Some(Loc(g.muxBank, g.muxReg, g.ioresetBit, 1))
    case RcvSel => Some(Loc(g.muxBank, g.muxReg, g.rcvSelBit, 1))
    case Loopback => Some(Loc(g.lpbkBank, g.lpbkReg, g.lpbkBit, 1))
    case HighSpeedMode => Some(MuxOrDrv(soc.hsmInMux, g, g.hsmBit, 1))
    case Schmitt => Some(MuxOrDrv(soc.schmittInMux, g, g.schmittBit, 1))
    case LowPowerMode => Some(Loc(g.drvBank, g.drvReg, g.lpmdBit, 2))
    case DriveDownStrength => Some(Loc(g.drvBank, g.drvReg, g.drvdnBit, g.drvdnWidth))
    case DriveUpStrength => Some(Loc(g.drvBank, g.drvReg, g.drvupBit, g.drvupWidth))
    case SlewRateFalling => Some(Loc(g.drvBank, g.drvReg, g.slwfBit, g.slwfWidth))
    case SlewRateRising => Some(Loc(g.drvBank, g.drvReg, g.slwrBit, g.slwrWidth))
    case DriveType => Some(MuxOrDrv(soc.drvtypeInMux, g, g.drvtypeBit, 2))
    case Function => Some(Loc(g.muxBank, g.muxReg, g.muxBit, 2))
    case PadPower => Some(Loc(g.padBank, g.padReg, g.padBit, 1))
    case Unknown(_) => None
  }

  /**
   * The field a parameter resolves to, or NotSupported when the parameter is
   * outside the enumeration or the selected offset or bit is negative.
   */
  function Resolve(soc: Soc, g: PinGroup, p: Param): (r: Result<Loc>)
    ensures r.Err? ==> r.error == NotSupported
    ensures r.Ok? <==> !p.Unknown? && Select(soc, g, p).value.reg >= 0 && Select(soc, g, p).value.bit >= 0
    ensures r.Ok? ==> r.value == Select(soc, g, p).value
  {
    match Select(soc, g, p)
    case None => Err(NotSupported)
    case Some(l) => if l.reg < 0 || l.bit < 0 then Err(NotSupported) else Ok(l)
  }

  /**
   * The register class each parameter lives in: mux-register parameters,
   * drive-register parameters, and the three whose register a flag decides.
   */
  lemma ResolveRegister(soc: Soc, g: PinGroup, p: Param)
    requires Resolve(soc, g, p).Ok?
    ensures p in {EnableInput, OpenDrain, Lock, IoReset, RcvSel, Function} ==>
              LocAddr(Resolve(soc, g, p).value) == MuxAddr(g)
    ensures p in {LowPowerMode, DriveDownStrength, DriveUpStrength, SlewRateFalling, SlewRateRising} ==>
              LocAddr(Resolve(soc, g, p).value) == Addr(g.drvBank, g.drvReg)
    ensures p == HighSpeedMode ==>
              LocAddr(Resolve(soc, g, p).value) == if soc.hsmInMux then MuxAddr(g) else Addr(g.drvBank, g.drvReg)
    ensures p == Schmitt ==>
              LocAddr(Resolve(soc, g, p).value) == if soc.schmittInMux then MuxAddr(g) else Addr(g.drvBank, g.drvReg)
    ensures p == DriveType ==>
              LocAddr(Resolve(soc, g, p).value) == if soc.drvtypeInMux then MuxAddr(g) else Addr(g.drvBank, g.drvReg)
  {
  }

  /** The field widths: fixed for most parameters, the group's own for drive strengths and slew rates. */
  lemma ResolveWidth(soc: Soc, g: PinGroup, p: Param)
    requires Resolve(soc, g, p).Ok?
    ensures p in {Pull, LowPowerMode, DriveType, Function} ==> Resolve(soc, g, p).value.width == 2
    ensures p in {Tristate, EnableInput, OpenDrain, Lock, IoReset, RcvSel, Loopback, HighSpeedMode, Schmitt, PadPower} ==>
              Resolve(soc, g, p).value.width == 1
    ensures p == DriveDownStrength ==> Resolve(soc, g, p).value.width == g.drvdnWidth
    ensures p == DriveUpStrength ==> Resolve(soc, g, p).value.width == g.drvupWidth
    ensures p == SlewRateFalling ==> Resolve(soc, g, p).value.width == g.slwfWidth
    ensures p == SlewRateRising ==> Resolve(soc, g, p).value.width == g.slwrWidth
  {
  }

  /**
   * A located field lies inside a 32-bit register and is at most 16 bits
   * wide. The driver does not check the width: a wider field is read back
   * truncated to the u16 argument, and the range check passes every u16. The
   * model keeps to fields a u16 describes.
   */
  predicate LocFits(l: Loc)
  {
    0 <= l.bit && 0 <= l.width <= 16 && l.bit + l.width <= 32
  }

  /**
   * What the model takes of a table entry, which the driver never checks: four
   * function slots, supported fields that fit the register and a u16, a mux
   * field inside the mux register, and an SFIO-select bit that can be shifted.
   */
  ghost predicate GroupWellFormed(soc: Soc, g: PinGroup)
  {
    && |g.funcs| == 4
    && (forall p :: Resolve(soc, g, p).Ok? ==> LocFits(Resolve(soc, g, p).value))
    && (g.muxReg >= 0 ==> 0 <= g.muxBit <= 30)
    && g.sfselBit < 32
  }

  /** Two located fields share a register and at least one bit of it. */
  predicate Overlap(l: Loc, m: Loc)
  {
    LocAddr(l) == LocAddr(m) && 0 < l.width && 0 < m.width && l.bit < m.bit + m.width && m.bit < l.bit + l.width
  }

  /** No two parameters of a group resolve to fields that share a bit. */
  ghost predicate FieldsDisjoint(soc: Soc, g: PinGroup)
  {
    forall p, q :: p != q && Resolve(soc, g, p).Ok? && Resolve(soc, g, q).Ok? ==>
      !Overlap(Resolve(soc, g, p).value, Resolve(soc, g, q).value)
  }

  /** No field of one group shares a bit with a field of the other. */
  ghost predicate Apart(soc: Soc, g: PinGroup, h: PinGroup)
  {
    forall p, q :: Resolve(soc, g, p).Ok? && Resolve(soc, h, q).Ok? ==>
      !Overlap(Resolve(soc, g, p).value, Resolve(soc, h, q).value)
  }

  /** Distinct groups of the table are apart. */
  ghost predicate GroupsDisjoint(soc: Soc)
  {
    forall i, j :: 0 <= i < |soc.groups| && 0 <= j < |soc.groups| && i != j ==>
      Apart(soc, soc.groups[i], soc.groups[j])
  }

  ghost predicate SocWellFormed(soc: Soc)
  {
    forall i :: 0 <= i < |soc.groups| ==> GroupWellFormed(soc, soc.groups[i])
  }
}
