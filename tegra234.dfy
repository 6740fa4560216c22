/**
 * Rows of the Tegra234 tables, built the way the C macros build them
 * (`PINGROUP`, `PIN_PINGROUP_ENTRY_Y`, `DRV_PINGROUP_ENTRY_Y`/`_N`), and what
 * the generic engine does with them. Four groups are modelled: two pins with
 * pad and drive registers on bank 1, a compensation pad with no drive
 * register, and the group whose mux register sits at offset 0 of bank 0.
 *
 * The macros leave the open-drain, io-reset, rcv-sel and pad-power fields
 * unset, so in C they are 0, a valid bit of a valid register. `AsWritten`
 * builds the rows that way; `Repaired` gives those fields the -1 of an absent
 * field and takes the rcv-sel bit from the `e_io_hv` column, which the macro
 * receives and drops.
 */
module Tegra234 {
  import opened Wrappers
  import opened Bits
  import opened Tables
  import opened Resolution
  import opened PinConf
  import opened Gpio
  import opened Parking
  import opened FunctionIndex

  /** `enum tegra_mux_dt`: the function names, in table order. */
  const Functions: seq<PinFunction> := [
    PinFunction("gp"), PinFunction("uartc"), PinFunction("i2c8"), PinFunction("spi2"),
    PinFunction("i2c2"), PinFunction("can1"), PinFunction("can0"), PinFunction("rsvd0"),
    PinFunction("eth0"), PinFunction("eth2"), PinFunction("eth1"), PinFunction("dp"),
    PinFunction("eth3"), PinFunction("i2c4"), PinFunction("i2c7"), PinFunction("i2c9"),
    PinFunction("eqos"), PinFunction("pe2"), PinFunction("pe1"), PinFunction("pe0"),
    PinFunction("pe3"), PinFunction("pe4"), PinFunction("pe5"), PinFunction("pe6"),
    PinFunction("pe10"), PinFunction("pe7"), PinFunction("pe8"), PinFunction("pe9"),
    PinFunction("qspi0"), PinFunction("qspi1"), PinFunction("qspi"), PinFunction("sdmmc1"),
    PinFunction("sce"), PinFunction("soc"), PinFunction("gpio"), PinFunction("hdmi"),
    PinFunction("ufs0"), PinFunction("spi3"), PinFunction("spi1"), PinFunction("uartb"),
    PinFunction("uarte"), PinFunction("usb"), PinFunction("extperiph2"), PinFunction("extperiph1"),
    PinFunction("i2c3"), PinFunction("vi0"), PinFunction("i2c5"), PinFunction("uarta"),
    PinFunction("uartd"), PinFunction("i2c1"), PinFunction("i2s4"), PinFunction("i2s6"),
    PinFunction("aud"), PinFunction("spi5"), PinFunction("touch"), PinFunction("uartj"),
    PinFunction("rsvd1"), PinFunction("wdt"), PinFunction("tsc"), PinFunction("dmic3"),
    PinFunction("led"), PinFunction("vi0_alt"), PinFunction("i2s5"), PinFunction("nv"),
    PinFunction("extperiph3"), PinFunction("extperiph4"), PinFunction("spi4"), PinFunction("ccla"),
    PinFunction("i2s2"), PinFunction("i2s1"), PinFunction("i2s8"), PinFunction("i2s3"),
    PinFunction("rsvd2"), PinFunction("dmic5"), PinFunction("dca"), PinFunction("displayb"),
    PinFunction("displaya"), PinFunction("vi1"), PinFunction("dcb"), PinFunction("dmic1"),
    PinFunction("dmic4"), PinFunction("i2s7"), PinFunction("dmic2"), PinFunction("dspk0"),
    PinFunction("rsvd3"), PinFunction("tsc_alt"), PinFunction("istctrl"), PinFunction("vi1_alt"),
    PinFunction("dspk1"), PinFunction("igpu")
  ]

  // The function numbers the modelled rows use.
  const GP: nat := 0
  const UARTC: nat := 1
  const CAN0: nat := 6
  const EQOS: nat := 16
  const EXTPERIPH2: nat := 42
  const TOUCH: nat := 54
  const UARTJ: nat := 55
  const RSVD1: nat := 56
  const RSVD2: nat := 72
  const RSVD3: nat := 84

  /** `TEGRA_PIN_HDMI_CEC_PGG0 + 1`: the pins past the GPIOs are numbered from here. */
  const NumGpios: nat := 217

  /** A drive-register entry: the arguments of `DRV_PINGROUP_ENTRY_Y`, or `DRV_PINGROUP_ENTRY_N`. */
  datatype Drive =
    | DriveY(reg: int, dnBit: int, dnWidth: int, upBit: int, upWidth: int,
             slwrBit: int, slwrWidth: int, slwfBit: int, slwfWidth: int, bank: int)
    | DriveN

  /**
   * The arguments of one `PINGROUP` line for a one-pin group, with its drive
   * entry. The `e_lpdr` and `e_pbias_buf` columns feed fields the engine
   * never reads and are not kept.
   */
  datatype Row = Row(name: string, pin: nat, funcs: seq<nat>, r: int, bank: int, pupd: bool,
                     eIoHv: int, eLpbk: int, eInput: int, sfsel: int, schmitt: int, drv: Drive)

  /** How the fields that no macro sets are filled. */
  datatype Defaults = AsWritten | Repaired

  /** The descriptor a row expands to; the fields no macro sets are 0 as written, -1 repaired. */
  function Group(row: Row, d: Defaults): (g: PinGroup)
    ensures g.name == row.name && g.pins == [row.pin] && g.funcs == row.funcs
    ensures MuxAddr(g) == Addr(row.bank, row.r) && g.sfselBit == row.sfsel && g.parkedBitmask == Zero()
  {
    var unset := if d == AsWritten then 0 else -1;
    var drv := row.drv;
    PinGroup(
      row.name, [row.pin], row.funcs,
      row.bank, row.r, 0,
      row.bank, if row.pupd then row.r else -1, 2,
      row.bank, row.r, 4,
      row.eInput, unset, -1, unset, if d == AsWritten then 0 else row.eIoHv,
      row.bank, row.r, row.eLpbk,
      -1, row.schmitt, -1, 13,
      if drv.DriveY? then drv.bank else -1, if drv.DriveY? then drv.reg else -1,
      if drv.DriveY? then drv.dnBit else -1, if drv.DriveY? then drv.dnWidth else 0,
      if drv.DriveY? then drv.upBit else -1, if drv.DriveY? then drv.upWidth else 0,
      if drv.DriveY? then drv.slwrBit else -1, if drv.DriveY? then drv.slwrWidth else 0,
      if drv.DriveY? then drv.slwfBit else -1, if drv.DriveY? then drv.slwfWidth else 0,
      unset, unset, unset,
      row.sfsel,
      Zero())
  }

  const TouchClkPcc4: Row :=
    Row("touch_clk_pcc4", 201, [GP, TOUCH, RSVD2, RSVD3], 0x2000, 1, true, 5, 7, 6, 10, 12,
        DriveY(0x2004, 12, 5, 20, 5, -1, -1, -1, -1, 1))

  const Uart3RxPcc6: Row :=
    Row("uart3_rx_pcc6", 203, [UARTC, UARTJ, RSVD2, RSVD3], 0x2008, 1, true, 5, 7, 6, 10, 12,
        DriveY(0x200c, 12, 5, 20, 5, -1, -1, -1, -1, 1))

  const EqosComp: Row :=
    Row("eqos_comp", NumGpios + 0, [EQOS, RSVD1, RSVD2, RSVD3], 0x15050, 0, false, -1, -1, -1, -1, -1,
        DriveN)

  const Extperiph2ClkPp1: Row :=
    Row("extperiph2_clk_pp1", 93, [EXTPERIPH2, RSVD1, RSVD2, RSVD3], 0x0000, 0, true, -1, 7, 6, 10, 12,
        DriveY(0x0004, 12, 5, 20, 5, -1, -1, -1, -1, 0))

  const Rows: seq<Row> := [TouchClkPcc4, Uart3RxPcc6, EqosComp, Extperiph2ClkPp1]

  /** `tegra234_pinctrl`, restricted to the modelled rows, with its four flags. */
  function Table(d: Defaults): (soc: Soc)
    ensures |soc.groups| == |Rows| && forall i :: 0 <= i < |Rows| ==> soc.groups[i] == Group(Rows[i], d)
    ensures T234Flags(soc)
  {
    Soc(Functions, [Group(Rows[0], d), Group(Rows[1], d), Group(Rows[2], d), Group(Rows[3], d)], false, true, true, true)
  }

  /** Every register the modelled rows name, at zero. */
  const Regs0: RegFile := map[
    Addr(1, 0x2000) := Zero(), Addr(1, 0x2004) := Zero(),
    Addr(1, 0x2008) := Zero(), Addr(1, 0x200c) := Zero(),
    Addr(0, 0x15050) := Zero(),
    Addr(0, 0x0000) := Zero(), Addr(0, 0x0004) := Zero()]

  /** The flags of `tegra234_pinctrl` that the engine reads. */
  predicate T234Flags(soc: Soc)
  {
    !soc.hsmInMux && soc.schmittInMux && soc.drvtypeInMux && soc.sfselInMux
  }

  /** A field at a register offset and bit, or NotSupported when either is negative. */
  function At(bank: int, reg: int, bit: int, width: int): (r: Result<Loc>)
    ensures r.Ok? <==> reg >= 0 && bit >= 0
    ensures r.Ok? ==> r.value == Loc(bank, reg, bit, width)
    ensures r.Err? ==> r.error == NotSupported
  {
    if reg >= 0 && bit >= 0 then Ok(Loc(bank, reg, bit, width)) else Err(NotSupported)
  }

  /**
   * Where the mux-register parameters of any row live: the function at bits
   * 0-1, pull at 2-3 when the row has one, tristate at 4 and drive type at
   * 13, the rest at the row's columns; high-speed mode, lock and low-power
   * mode nowhere.
   */
  lemma MuxLayout(soc: Soc, row: Row, d: Defaults)
    requires T234Flags(soc)
    ensures var g := Group(row, d);
      && Resolve(soc, g, Function) == At(row.bank, row.r, 0, 2)
      && Resolve(soc, g, Pull) == At(row.bank, if row.pupd then row.r else -1, 2, 2)
      && Resolve(soc, g, Tristate) == At(row.bank, row.r, 4, 1)
      && Resolve(soc, g, EnableInput) == At(row.bank, row.r, row.eInput, 1)
      && Resolve(soc, g, Loopback) == At(row.bank, row.r, row.eLpbk, 1)
      && Resolve(soc, g, Schmitt) == At(row.bank, row.r, row.schmitt, 1)
      && Resolve(soc, g, DriveType) == At(row.bank, row.r, 13, 2)
      && Resolve(soc, g, HighSpeedMode) == Err(NotSupported)
      && Resolve(soc, g, Lock) == Err(NotSupported)
      && Resolve(soc, g, LowPowerMode) == Err(NotSupported)
  {
  }

  /** Where the drive-register parameters of any row live: nowhere without a drive entry. */
  lemma DriveLayout(soc: Soc, row: Row, d: Defaults)
    ensures var g := Group(row, d);
      match row.drv
      case DriveN =>
        && Resolve(soc, g, DriveDownStrength) == Err(NotSupported)
        && Resolve(soc, g, DriveUpStrength) == Err(NotSupported)
        && Resolve(soc, g, SlewRateRising) == Err(NotSupported)
        && Resolve(soc, g, SlewRateFalling) == Err(NotSupported)
      case DriveY(reg, dnBit, dnWidth, upBit, upWidth, slwrBit, slwrWidth, slwfBit, slwfWidth, bank) =>
        && Resolve(soc, g, DriveDownStrength) == At(bank, reg, dnBit, dnWidth)
        && Resolve(soc, g, DriveUpStrength) == At(bank, reg, upBit, upWidth)
        && Resolve(soc, g, SlewRateRising) == At(bank, reg, slwrBit, slwrWidth)
        && Resolve(soc, g, SlewRateFalling) == At(bank, reg, slwfBit, slwfWidth)
  {
  }

  /**
   * The fields no macro sets. As written, open-drain, io-reset and rcv-sel
   * are bit 0 of the row's mux register and pad-power is bit 0 of offset 0
   * in bank 0, for every row; repaired, rcv-sel is the `e_io_hv` column and
   * the other three are unsupported.
   */
  lemma UnsetLayout(soc: Soc, row: Row, d: Defaults)
    ensures var g := Group(row, d);
      && (d == AsWritten ==>
            && Resolve(soc, g, OpenDrain) == At(row.bank, row.r, 0, 1)
            && Resolve(soc, g, IoReset) == At(row.bank, row.r, 0, 1)
            && Resolve(soc, g, RcvSel) == At(row.bank, row.r, 0, 1)
            && Resolve(soc, g, PadPower) == Ok(Loc(0, 0, 0, 1)))
      && (d == Repaired ==>
            && Resolve(soc, g, OpenDrain) == Err(NotSupported)
            && Resolve(soc, g, IoReset) == Err(NotSupported)
            && Resolve(soc, g, RcvSel) == At(row.bank, row.r, row.eIoHv, 1)
            && Resolve(soc, g, PadPower) == Err(NotSupported))
  {
  }

  /** A drive field is absent, or at least one bit wide and inside the word. */
  predicate DriveFieldFits(bit: int, width: int)
  {
    bit >= 0 ==> 1 <= width <= 16 && bit + width <= 32
  }

  /** A one-bit column is -1 or a bit of the word past the fixed fields. */
  predicate ColumnFits(bit: int)
  {
    bit == -1 || (5 <= bit < 32 && bit != 13 && bit != 14)
  }

  /** Two drive fields share no bit. */
  predicate Separate(b1: int, w1: int, b2: int, w2: int)
  {
    b1 < 0 || b2 < 0 || b1 + w1 <= b2 || b2 + w2 <= b1
  }

  /**
   * What every `PINGROUP` line of the table satisfies: four functions, a mux
   * register, columns that are -1 or distinct free bits of it, and drive
   * fields that fit a separate drive register without sharing bits.
   */
  predicate RowShape(row: Row)
  {
    && |row.funcs| == 4 && row.r >= 0
    && ColumnFits(row.eIoHv) && ColumnFits(row.eLpbk) && ColumnFits(row.eInput) && ColumnFits(row.schmitt)
    && (row.eIoHv >= 0 ==> row.eIoHv != row.eLpbk && row.eIoHv != row.eInput && row.eIoHv != row.schmitt)
    && (row.eLpbk >= 0 ==> row.eLpbk != row.eInput && row.eLpbk != row.schmitt)
    && (row.eInput >= 0 ==> row.eInput != row.schmitt)
    && -1 <= row.sfsel < 32
    && match row.drv
       case DriveN => true
       case DriveY(reg, dnBit, dnWidth, upBit, upWidth, slwrBit, slwrWidth, slwfBit, slwfWidth, bank) =>
         && Addr(bank, reg) != Addr(row.bank, row.r)
         && DriveFieldFits(dnBit, dnWidth) && DriveFieldFits(upBit, upWidth)
         && DriveFieldFits(slwrBit, slwrWidth) && DriveFieldFits(slwfBit, slwfWidth)
         && Separate(dnBit, dnWidth, upBit, upWidth) && Separate(dnBit, dnWidth, slwrBit, slwrWidth)
         && Separate(dnBit, dnWidth, slwfBit, slwfWidth) && Separate(upBit, upWidth, slwrBit, slwrWidth)
         && Separate(upBit, upWidth, slwfBit, slwfWidth) && Separate(slwrBit, slwrWidth, slwfBit, slwfWidth)
  }

  /** Every field of a well-shaped row, as written or repaired, fits its register. */
  lemma RowWellFormed(soc: Soc, row: Row, d: Defaults)
    requires T234Flags(soc) && RowShape(row)
    ensures GroupWellFormed(soc, Group(row, d))
  {
    var g := Group(row, d);
    forall p | Resolve(soc, g, p).Ok?
      ensures LocFits(Resolve(soc, g, p).value)
    {
      if p in {DriveDownStrength, DriveUpStrength, SlewRateRising, SlewRateFalling} {
        DriveLayout(soc, row, d);
      } else if p in {OpenDrain, IoReset, RcvSel, PadPower} {
        UnsetLayout(soc, row, d);
      } else {
        MuxLayout(soc, row, d);
      }
    }
  }

  /** Bit `j` of register `a` is inside the field parameter `p` of `g` resolves to. */
  ghost predicate Covers(soc: Soc, g: PinGroup, p: Param, a: Addr, j: int)
  {
    && Resolve(soc, g, p).Ok?
    && LocAddr(Resolve(soc, g, p).value) == a
    && Resolve(soc, g, p).value.bit <= j < Resolve(soc, g, p).value.bit + Resolve(soc, g, p).value.width
  }

  /** The parameter that bit `j` of register `a` belongs to in a repaired row. */
  function Owner(row: Row, a: Addr, j: int): Param
  {
    if a == Addr(row.bank, row.r) then
      if j == 0 || j == 1 then Function
      else if j == 2 || j == 3 then Pull
      else if j == 4 then Tristate
      else if j == 13 || j == 14 then DriveType
      else if j == row.eIoHv then RcvSel
      else if j == row.eInput then EnableInput
      else if j == row.eLpbk then Loopback
      else Schmitt
    else
      match row.drv
      case DriveN => Unknown(0)
      case DriveY(_, dnBit, dnWidth, upBit, upWidth, slwrBit, slwrWidth, _, _, _) =>
        if 0 <= dnBit <= j < dnBit + dnWidth then DriveDownStrength
        else if 0 <= upBit <= j < upBit + upWidth then DriveUpStrength
        else if 0 <= slwrBit <= j < slwrBit + slwrWidth then SlewRateRising
        else SlewRateFalling
  }

  /** In a well-shaped repaired row, a covered bit belongs to the parameter covering it. */
  lemma OwnerCovers(soc: Soc, row: Row, p: Param, a: Addr, j: int)
    requires T234Flags(soc) && RowShape(row)
    ensures Covers(soc, Group(row, Repaired), p, a, j) ==> p == Owner(row, a, j)
  {
    if p in {DriveDownStrength, DriveUpStrength, SlewRateRising, SlewRateFalling} {
      DriveOwner(soc, row, p, a, j);
    } else if p in {OpenDrain, IoReset, RcvSel, PadPower} {
      UnsetLayout(soc, row, Repaired);
    } else {
      MuxOwner(soc, row, p, a, j);
    }
  }

  lemma MuxOwner(soc: Soc, row: Row, p: Param, a: Addr, j: int)
    requires T234Flags(soc) && RowShape(row)
    requires p in {Function, Pull, Tristate, EnableInput, Loopback, Schmitt, DriveType, HighSpeedMode, Lock, LowPowerMode} || p.Unknown?
    ensures Covers(soc, Group(row, Repaired), p, a, j) ==> p == Owner(row, a, j)
  {
    MuxLayout(soc, row, Repaired);
  }

  lemma DriveOwner(soc: Soc, row: Row, p: Param, a: Addr, j: int)
    requires RowShape(row) && p in {DriveDownStrength, DriveUpStrength, SlewRateRising, SlewRateFalling}
    ensures Covers(soc, Group(row, Repaired), p, a, j) ==> p == Owner(row, a, j)
  {
    DriveLayout(soc, row, Repaired);
    if row.drv.DriveY? && Covers(soc, Group(row, Repaired), p, a, j) {
      assert a == Addr(row.drv.bank, row.drv.reg);
    }
  }

  /** No two parameters of a well-shaped repaired row share a bit. */
  lemma RowFieldsDisjoint(soc: Soc, row: Row)
    requires T234Flags(soc) && RowShape(row)
    ensures FieldsDisjoint(soc, Group(row, Repaired))
  {
    var g := Group(row, Repaired);
    forall p, q | p != q && Resolve(soc, g, p).Ok? && Resolve(soc, g, q).Ok?
      ensures !Overlap(Resolve(soc, g, p).value, Resolve(soc, g, q).value)
    {
      var l := Resolve(soc, g, p).value;
      var m := Resolve(soc, g, q).value;
      var j := if l.bit < m.bit then m.bit else l.bit;
      OwnerCovers(soc, row, p, LocAddr(l), j);
      OwnerCovers(soc, row, q, LocAddr(l), j);
    }
  }

  /** The registers a row's fields can be in: its mux register and, with a drive entry, its drive register. */
  function RowRegisters(row: Row): set<Addr>
  {
    {Addr(row.bank, row.r)} + (if row.drv.DriveY? then {Addr(row.drv.bank, row.drv.reg)} else {})
  }

  /**
   * Every supported field of a row is in one of its registers, but for pad
   * power as written, which is in register 0 of bank 0.
   */
  lemma InRowRegisters(soc: Soc, row: Row, d: Defaults, p: Param)
    requires T234Flags(soc)
    ensures Resolve(soc, Group(row, d), p).Ok? ==>
              LocAddr(Resolve(soc, Group(row, d), p).value) in RowRegisters(row) ||
              (d == AsWritten && p == PadPower && LocAddr(Resolve(soc, Group(row, d), p).value) == Addr(0, 0))
  {
    if p in {DriveDownStrength, DriveUpStrength, SlewRateRising, SlewRateFalling} {
      DriveLayout(soc, row, d);
    } else if p in {OpenDrain, IoReset, RcvSel, PadPower} {
      UnsetLayout(soc, row, d);
    } else {
      MuxLayout(soc, row, d);
    }
  }

  /** Repaired rows on different registers are apart. */
  lemma RowsApart(soc: Soc, row1: Row, row2: Row)
    requires T234Flags(soc) && RowRegisters(row1) !! RowRegisters(row2)
    ensures Apart(soc, Group(row1, Repaired), Group(row2, Repaired))
  {
    forall p, q
      ensures Resolve(soc, Group(row1, Repaired), p).Ok? && Resolve(soc, Group(row2, Repaired), q).Ok? ==>
                !Overlap(Resolve(soc, Group(row1, Repaired), p).value, Resolve(soc, Group(row2, Repaired), q).value)
    {
      InRowRegisters(soc, row1, Repaired, p);
      InRowRegisters(soc, row2, Repaired, q);
    }
  }

  /** As written, the rcv-sel field of every row is bit 0 of its function field, so its fields are not disjoint. */
  lemma RcvSelInFunctionAsWritten(soc: Soc, row: Row)
    requires T234Flags(soc) && row.r >= 0
    ensures var g := Group(row, AsWritten);
      && Resolve(soc, g, RcvSel) == Ok(Loc(row.bank, row.r, 0, 1))
      && Resolve(soc, g, Function) == Ok(Loc(row.bank, row.r, 0, 2))
      && !FieldsDisjoint(soc, g)
  {
    var g := Group(row, AsWritten);
    MuxLayout(soc, row, AsWritten);
    UnsetLayout(soc, row, AsWritten);
    assert Overlap(Resolve(soc, g, RcvSel).value, Resolve(soc, g, Function).value);
  }

  /** As written, every row's pad-power field is the same bit, so no two rows are apart. */
  lemma PadPowerSharedAsWritten(soc: Soc, row1: Row, row2: Row)
    ensures Resolve(soc, Group(row1, AsWritten), PadPower) == Resolve(soc, Group(row2, AsWritten), PadPower) == Ok(Loc(0, 0, 0, 1))
    ensures !Apart(soc, Group(row1, AsWritten), Group(row2, AsWritten))
  {
    UnsetLayout(soc, row1, AsWritten);
    UnsetLayout(soc, row2, AsWritten);
    assert Overlap(Resolve(soc, Group(row1, AsWritten), PadPower).value, Resolve(soc, Group(row2, AsWritten), PadPower).value);
  }

  /** The modelled rows are well shaped and no two share a register. */
  lemma RowsShaped()
    ensures forall i :: 0 <= i < |Rows| ==> RowShape(Rows[i])
    ensures forall i, j :: 0 <= i < |Rows| && 0 <= j < |Rows| && i != j ==> RowRegisters(Rows[i]) !! RowRegisters(Rows[j])
  {
  }

  /**
   * Repaired, the table is well formed, no two parameters of a group share a
   * bit and no two groups share a bit.
   */
  lemma RepairedTable()
    ensures SocWellFormed(Table(Repaired)) && GroupsDisjoint(Table(Repaired))
    ensures forall i :: 0 <= i < |Rows| ==> FieldsDisjoint(Table(Repaired), Table(Repaired).groups[i])
  {
    var soc := Table(Repaired);
    RowsShaped();
    forall i | 0 <= i < |Rows|
      ensures GroupWellFormed(soc, soc.groups[i]) && FieldsDisjoint(soc, soc.groups[i])
    {
      RowWellFormed(soc, Rows[i], Repaired);
      RowFieldsDisjoint(soc, Rows[i]);
    }
    forall i, j | 0 <= i < |Rows| && 0 <= j < |Rows| && i != j
      ensures Apart(soc, soc.groups[i], soc.groups[j])
    {
      RowsApart(soc, Rows[i], Rows[j]);
    }
  }

  /** As written, the table is well formed, but every group aliases a field and no two groups are apart. */
  lemma AsWrittenTable()
    ensures SocWellFormed(Table(AsWritten)) && !GroupsDisjoint(Table(AsWritten))
    ensures forall i :: 0 <= i < |Rows| ==> !FieldsDisjoint(Table(AsWritten), Table(AsWritten).groups[i])
    ensures forall i, j :: 0 <= i < |Rows| && 0 <= j < |Rows| ==>
              !Apart(Table(AsWritten), Table(AsWritten).groups[i], Table(AsWritten).groups[j])
  {
    var soc := Table(AsWritten);
    RowsShaped();
    forall i | 0 <= i < |Rows|
      ensures GroupWellFormed(soc, soc.groups[i]) && !FieldsDisjoint(soc, soc.groups[i])
    {
      AsWrittenRow(soc, Rows[i]);
    }
    AsWrittenShared(soc);
    NoneApartAsWritten(soc, soc.groups, Rows);
  }

  /** As written, no group of a list of row expansions is apart from any other. */
  lemma NoneApartAsWritten(soc: Soc, groups: seq<PinGroup>, rows: seq<Row>)
    requires |groups| == |rows| && forall i :: 0 <= i < |rows| ==> groups[i] == Group(rows[i], AsWritten)
    ensures forall i, j :: 0 <= i < |groups| && 0 <= j < |groups| ==> !Apart(soc, groups[i], groups[j])
  {
    forall i, j | 0 <= i < |groups| && 0 <= j < |groups|
      ensures !Apart(soc, groups[i], groups[j])
    {
      PadPowerSharedAsWritten(soc, rows[i], rows[j]);
    }
  }

  lemma AsWrittenShared(soc: Soc)
    requires soc == Table(AsWritten)
    ensures !GroupsDisjoint(soc)
  {
    PadPowerSharedAsWritten(soc, Rows[0], Rows[1]);
    assert !Apart(soc, soc.groups[0], soc.groups[1]);
  }

  lemma AsWrittenRow(soc: Soc, row: Row)
    requires T234Flags(soc) && RowShape(row)
    ensures GroupWellFormed(soc, Group(row, AsWritten)) && !FieldsDisjoint(soc, Group(row, AsWritten))
  {
    RowWellFormed(soc, row, AsWritten);
    RcvSelInFunctionAsWritten(soc, row);
  }

  /** Every modelled group, as written or repaired, is ready on `Regs0`. */
  lemma RowsReady(d: Defaults)
    ensures SocReady(Table(d), Regs0)
  {
    var soc := Table(d);
    RowsShaped();
    assert Regs0.Keys == RowRegisters(Rows[0]) + RowRegisters(Rows[1]) + RowRegisters(Rows[2]) + RowRegisters(Rows[3]);
    RowReady(soc, Rows[0], d, Regs0);
    RowReady(soc, Rows[1], d, Regs0);
    RowReady(soc, Rows[2], d, Regs0);
    RowReady(soc, Rows[3], d, Regs0);
  }

  /** A well-shaped row is ready on registers holding its own and, as written, register 0 of bank 0. */
  lemma RowReady(soc: Soc, row: Row, d: Defaults, regs: RegFile)
    requires T234Flags(soc) && RowShape(row) && RowRegisters(row) <= regs.Keys && Addr(0, 0) in regs
    ensures Ready(soc, Group(row, d), regs)
  {
    RowWellFormed(soc, row, d);
    forall p | Resolve(soc, Group(row, d), p).Ok?
      ensures LocAddr(Resolve(soc, Group(row, d), p).value) in regs
    {
      InRowRegisters(soc, row, d, p);
    }
  }

  /**
   * As written, pad-power 0 on any row stores a 1 in bit 0 of bank 0,
   * register 0, which is the low bit of extperiph2_clk_pp1's function field:
   * that group moves from slot 0 to slot 1, or from slot 2 to slot 3.
   */
  lemma PadPowerSwitchesFunctionAsWritten(soc: Soc, regs: RegFile, row: Row)
    requires T234Flags(soc)
    requires Ready(soc, Group(row, AsWritten), regs) && Ready(soc, Group(Extperiph2ClkPp1, AsWritten), regs)
    ensures var g := Group(row, AsWritten); var h := Group(Extperiph2ClkPp1, AsWritten);
      && SetOne(soc, regs, g, Config(PadPower, 0)).Ok?
      && var after := SetOne(soc, regs, g, Config(PadPower, 0)).value;
      && Ready(soc, h, after)
      && GetConfig(soc, regs, h, Function).Ok? && GetConfig(soc, after, h, Function).Ok?
      && GetConfig(soc, after, h, Function).value == GetConfig(soc, regs, h, Function).value / 2 * 2 + 1
  {
    UnsetLayout(soc, row, AsWritten);
    MuxLayout(soc, Extperiph2ClkPp1, AsWritten);
    SharedBitSwitches(soc, regs, Group(row, AsWritten), Group(Extperiph2ClkPp1, AsWritten));
  }

  /** A one-bit field that is the low bit of another group's function field: setting it to 1 sets that bit. */
  lemma SharedBitSwitches(soc: Soc, regs: RegFile, g: PinGroup, h: PinGroup)
    requires Ready(soc, g, regs) && Ready(soc, h, regs)
    requires Resolve(soc, g, PadPower) == Ok(Loc(0, 0, 0, 1)) && Resolve(soc, h, Function) == Ok(Loc(0, 0, 0, 2))
    ensures && SetOne(soc, regs, g, Config(PadPower, 0)).Ok?
      && var after := SetOne(soc, regs, g, Config(PadPower, 0)).value;
      && Ready(soc, h, after)
      && GetConfig(soc, regs, h, Function).Ok? && GetConfig(soc, after, h, Function).Ok?
      && GetConfig(soc, after, h, Function).value == GetConfig(soc, regs, h, Function).value / 2 * 2 + 1
  {
    PadPowerInverted(soc, regs, g, 0);
    var after := SetOne(soc, regs, g, Config(PadPower, 0)).value;
    ReadyKeys(soc, h, regs, after);
    SetOneFrame(soc, regs, g, Config(PadPower, 0));
    var w, w' := regs[Addr(0, 0)], after[Addr(0, 0)];
    assert w'[0] && w'[1] == w[1];
    FieldTwo(w, 0);
    FieldTwo(w', 0);
  }


  /** `set_mux` TOUCH on touch_clk_pcc4 writes slot 1 and sets the SFIO-select bit 10. */
  lemma TouchClkPcc4SetMux(soc: Soc, regs: RegFile, d: Defaults)
    requires T234Flags(soc) && Ready(soc, Group(TouchClkPcc4, d), regs)
    ensures var g := Group(TouchClkPcc4, d);
      && SetMux(soc, regs, g, TOUCH).Ok?
      && GetConfig(soc, SetMux(soc, regs, g, TOUCH).value, g, Function) == Ok(1)
      && SetMux(soc, regs, g, TOUCH).value[Addr(1, 0x2000)][10]
  {
    var g := Group(TouchClkPcc4, d);
    assert g.funcs == [GP, TOUCH, RSVD2, RSVD3] && g.sfselBit == 10 && g.muxBit == 0;
    assert FindSlot(g.funcs, TOUCH) == Some(1);
    SetMuxEffect(soc, regs, g, TOUCH);
  }

  /** CAN0 is none of touch_clk_pcc4's functions: `set_mux` refuses it. */
  lemma TouchClkPcc4NotCan0(soc: Soc, regs: RegFile, d: Defaults)
    requires T234Flags(soc) && Ready(soc, Group(TouchClkPcc4, d), regs)
    ensures SetMux(soc, regs, Group(TouchClkPcc4, d), CAN0) == Err(Invalid)
  {
  }

  /** `set_mux` as written shifts by the -1 of eqos_comp's SFIO-select column. */
  lemma EqosCompShiftAsWritten(soc: Soc, d: Defaults)
    requires T234Flags(soc)
    ensures SfselShiftAsWritten(soc, Group(EqosComp, d), EQOS) == Some(-1)
  {
  }

  /**
   * `set_mux` with the SFIO-select bit skipped where the group has none:
   * EQOS on eqos_comp writes slot 0 and no other bit of any register.
   */
  lemma EqosCompSetMux(soc: Soc, regs: RegFile, d: Defaults)
    requires T234Flags(soc) && Ready(soc, Group(EqosComp, d), regs)
    ensures var g := Group(EqosComp, d);
      && SetMux(soc, regs, g, EQOS).Ok?
      && var after := SetMux(soc, regs, g, EQOS).value;
      && GetConfig(soc, after, g, Function) == Ok(0)
      && (forall a :: a in regs && a != Addr(0, 0x15050) ==> after[a] == regs[a])
      && (forall j :: 2 <= j < 32 ==> after[Addr(0, 0x15050)][j] == regs[Addr(0, 0x15050)][j])
  {
    var g := Group(EqosComp, d);
    assert FindSlot(g.funcs, EQOS) == Some(0);
    SetMuxEffect(soc, regs, g, EQOS);
  }

  /** The GPIO callbacks find each modelled pin's group. */
  lemma GpioLookups(d: Defaults)
    ensures GpioGroup(Table(d).groups, 201) == Some(0)
    ensures GpioGroup(Table(d).groups, 203) == Some(1)
    ensures GpioGroup(Table(d).groups, NumGpios) == Some(2)
    ensures GpioGroup(Table(d).groups, 93) == Some(3)
  {
    var gs := Table(d).groups;
    assert gs[0] == Group(TouchClkPcc4, d) && gs[1] == Group(Uart3RxPcc6, d);
    assert gs[2] == Group(EqosComp, d) && gs[3] == Group(Extperiph2ClkPp1, d);
    assert gs[0].pins == [201] && gs[1].pins == [203] && gs[2].pins == [NumGpios] && gs[3].pins == [93];
  }

  /** Pin 202 belongs to no modelled group. */
  lemma GpioLookupMiss(d: Defaults)
    ensures GpioGroup(Table(d).groups, 202) == None
  {
  }

  /**
   * A GPIO request on eqos_comp's pin saves its mux word and then fails with
   * Invalid, the group having no SFIO-select bit; no register changes.
   */
  lemma EqosCompGpioRequest(d: Defaults, s: GpioState)
    requires GpioReady(Table(d), s, NumGpios)
    ensures RequestEnable(Table(d), s, NumGpios).status == Fail(Invalid)
    ensures RequestEnable(Table(d), s, NumGpios).state.regs == s.regs
    ensures Addr(0, 0x15050) in s.regs && RequestEnable(Table(d), s, NumGpios).state.gpioConf[NumGpios] == s.regs[Addr(0, 0x15050)]
  {
    GpioLookups(d);
    assert Table(d).groups[2] == Group(EqosComp, d);
    MuxField(Table(d), Group(EqosComp, d), s.regs);
  }

  /** Nothing in the table has a parked mask: clearing the parked bits changes no register. */
  lemma NothingParked(d: Defaults, regs: RegFile)
    requires ParkMapped(Table(d).groups, regs)
    ensures ClearParked(Table(d).groups, regs) == regs
  {
    var groups := Table(d).groups;
    ClearParkedEffect(groups, regs);
    forall a | a in regs
      ensures ClearParked(groups, regs)[a] == regs[a]
    {
      forall j | 0 <= j < 32
        ensures !Parks(groups, a, j)
      {
        assert forall i :: 0 <= i < |groups| ==> !groups[i].parkedBitmask[j];
      }
    }
  }

  /** As written, a second probe counts TOUCH twice while its list holds touch_clk_pcc4 alone. */
  lemma TouchSecondProbeAsWritten(d: Defaults)
    ensures FunctionGroups(Table(d).groups, TOUCH, |Rows|) == [0]
    ensures ProbeCountAsWritten(Table(d).groups, TOUCH, |Rows|, ProbeCountAsWritten(Table(d).groups, TOUCH, |Rows|, 0)) == 2
  {
    var gs := Table(d).groups;
    assert gs[0] == Group(TouchClkPcc4, d) && gs[1] == Group(Uart3RxPcc6, d);
    assert gs[2] == Group(EqosComp, d) && gs[3] == Group(Extperiph2ClkPp1, d);
    assert Offers(gs[0], TOUCH) && !Offers(gs[1], TOUCH) && !Offers(gs[2], TOUCH) && !Offers(gs[3], TOUCH);
    assert FunctionGroups(gs, TOUCH, 1) == [0];
    assert FunctionGroups(gs, TOUCH, 2) == [0];
    assert FunctionGroups(gs, TOUCH, 3) == [0];
    assert FunctionGroups(gs, TOUCH, 4) == [0];
  }
}
