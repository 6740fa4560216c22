/**
 * The static catalog of the Tegra234 pin controller: configuration
 * parameters, pin groups with their register descriptors, functions, and the
 * per-SoC flags. Register offsets and bit positions use -1 for "absent", as
 * the C tables do; a field that a table entry leaves unset is 0, as in C.
 */
module Tables {
  import opened Bits

  /** The configuration parameters of `enum tegra_pinconf_param`. */
  datatype Param =
    | Pull | Tristate | EnableInput | OpenDrain | Lock | IoReset | RcvSel
    | Loopback | HighSpeedMode | Schmitt | LowPowerMode
    | DriveDownStrength | DriveUpStrength | SlewRateFalling | SlewRateRising
    | DriveType | Function | PadPower
      /** A value outside the enumeration, as an unpacked config may carry. */
    | Unknown(code: int)

  /** A packed configuration item: a parameter and its u16 argument. */
  datatype Config = Config(param: Param, arg: U16)

  /** `struct tegra_pingroup`: the fields the driver reads. */
  datatype PinGroup = PinGroup(
    name: string,
    pins: seq<nat>,
    funcs: seq<nat>,
    muxBank: int, muxReg: int, muxBit: int,
    pupdBank: int, pupdReg: int, pupdBit: int,
    triBank: int, triReg: int, triBit: int,
    einputBit: int, odrainBit: int, lockBit: int, ioresetBit: int, rcvSelBit: int,
    lpbkBank: int, lpbkReg: int, lpbkBit: int,
    hsmBit: int, schmittBit: int, lpmdBit: int, drvtypeBit: int,
    drvBank: int, drvReg: int,
    drvdnBit: int, drvdnWidth: int, drvupBit: int, drvupWidth: int,
    slwrBit: int, slwrWidth: int, slwfBit: int, slwfWidth: int,
    padBank: int, padReg: int, padBit: int,
    sfselBit: int,
    parkedBitmask: Word)

  /** `struct tegra_function`: its name (the group list is built at probe). */
  datatype PinFunction = PinFunction(name: string)

  /** `struct tegra_pinctrl_soc_data`: the tables and the per-SoC flags. */
  datatype Soc = Soc(
    functions: seq<PinFunction>,
    groups: seq<PinGroup>,
    hsmInMux: bool,
    schmittInMux: bool,
    drvtypeInMux: bool,
    sfselInMux: bool)

  /** The device-tree property names and the parameter each one sets. */
  const CfgParams: seq<(string, Param)> := [
    ("nvidia,pull", Pull),
    ("nvidia,tristate", Tristate),
    ("nvidia,enable-input", EnableInput),
    ("nvidia,open-drain", OpenDrain),
    ("nvidia,lock", Lock),
    ("nvidia,io-reset", IoReset),
    ("nvidia,rcv-sel", RcvSel),
    ("nvidia,io-hv", RcvSel),
    ("nvidia,loopback", Loopback),
    ("nvidia,high-speed-mode", HighSpeedMode),
    ("nvidia,schmitt", Schmitt),
    ("nvidia,low-power-mode", LowPowerMode),
    ("nvidia,pull-down-strength", DriveDownStrength),
    ("nvidia,pull-up-strength", DriveUpStrength),
    ("nvidia,slew-rate-falling", SlewRateFalling),
    ("nvidia,slew-rate-rising", SlewRateRising),
    ("nvidia,drive-type", DriveType),
    ("nvidia,func", Function),
    ("nvidia,pad-power", PadPower)
  ]

  // Accessors of the pinctrl and pinmux operation tables.

  function GroupsCount(soc: Soc): nat { |soc.groups| }

  function GroupName(soc: Soc, group: nat): string
    requires group < |soc.groups|
  {
    soc.groups[group].name
  }

  function GroupPins(soc: Soc, group: nat): seq<nat>
    requires group < |soc.groups|
  {
    soc.groups[group].pins
  }

  function FunctionsCount(soc: Soc): nat { |soc.functions| }

  function FunctionName(soc: Soc, fn: nat): string
    requires fn < |soc.functions|
  {
    soc.functions[fn].name
  }

  /** A register: a bank index and a byte offset within the bank. */
  datatype Addr = Addr(bank: int, reg: int)

  /** A group's mux register. */
  function MuxAddr(g: PinGroup): Addr { Addr(g.muxBank, g.muxReg) }

  /**
   * The register holding a group's parked bits: the mux register, or the
   * drive register when the mux offset is -1.
   */
  function ParkAddr(g: PinGroup): Addr
  {
    if g.muxReg != -1 then Addr(g.muxBank, g.muxReg) else Addr(g.drvBank, g.drvReg)
  }
}
