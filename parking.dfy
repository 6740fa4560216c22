/**
 * `tegra_pinctrl_clear_parked_bits`: at probe every group with a nonzero
 * parked mask has those bits cleared in its mux register, or in its drive
 * register when it has no mux register.
 */
module Parking {
  import opened Bits
  import opened Tables
  import opened PinConf

  /** The register every group with a nonzero parked mask parks into is present. */
  ghost predicate ParkMapped(groups: seq<PinGroup>, regs: RegFile)
  {
    forall i :: 0 <= i < |groups| && NonZero(groups[i].parkedBitmask) ==> ParkAddr(groups[i]) in regs
  }

  /** A ready SoC has its parking registers. */
  lemma SocReadyParkMapped(soc: Soc, regs: RegFile)
    requires SocReady(soc, regs)
    ensures ParkMapped(soc.groups, regs)
  {
  }

  /** The loop over the groups, in order; each clears its mask in the register it parks into. */
  function ClearParked(groups: seq<PinGroup>, regs: RegFile): (r: RegFile)
    requires ParkMapped(groups, regs)
    ensures r.Keys == regs.Keys
    decreases |groups|
  {
    if groups == [] then regs
    else
      var g := groups[|groups| - 1];
      var prev := ClearParked(groups[..|groups| - 1], regs);
      if NonZero(g.parkedBitmask) then prev[ParkAddr(g) := ClearMask(prev[ParkAddr(g)], g.parkedBitmask)]
      else prev
  }

  /** Some group parks bit `j` of register `a`. */
  ghost predicate Parks(groups: seq<PinGroup>, a: Addr, j: int)
  {
    exists i :: 0 <= i < |groups| && ParkAddr(groups[i]) == a && 0 <= j < 32 && groups[i].parkedBitmask[j]
  }

  /** The union of the parked masks of the groups that park into `a`. */
  function ParkedBits(groups: seq<PinGroup>, a: Addr): (r: Word)
    ensures forall j :: 0 <= j < 32 ==> (r[j] <==> Parks(groups, a, j))
    decreases |groups|
  {
    if groups == [] then Zero()
    else
      var g := groups[|groups| - 1];
      var prev := ParkedBits(groups[..|groups| - 1], a);
      assert forall j :: 0 <= j < 32 ==> (Parks(groups, a, j) <==> Parks(groups[..|groups| - 1], a, j) || (ParkAddr(g) == a && g.parkedBitmask[j])) by {
        forall j | 0 <= j < 32
          ensures Parks(groups, a, j) ==> Parks(groups[..|groups| - 1], a, j) || (ParkAddr(g) == a && g.parkedBitmask[j])
        {
          if Parks(groups, a, j) {
            var i :| 0 <= i < |groups| && ParkAddr(groups[i]) == a && 0 <= j < 32 && groups[i].parkedBitmask[j];
            if i < |groups| - 1 {
              assert groups[..|groups| - 1][i] == groups[i];
            }
          }
        }
      }
      if NonZero(g.parkedBitmask) && ParkAddr(g) == a then Or(prev, g.parkedBitmask) else prev
  }

  /** Each register ends with exactly the union of the masks parked into it cleared. */
  lemma {:induction false} ClearParkedAt(groups: seq<PinGroup>, regs: RegFile, a: Addr)
    requires ParkMapped(groups, regs) && a in regs
    ensures ClearParked(groups, regs)[a] == ClearMask(regs[a], ParkedBits(groups, a))
    decreases |groups|
  {
    if groups == [] {
      assert ClearMask(regs[a], Zero()) == regs[a];
    } else {
      var g := groups[|groups| - 1];
      var front := groups[..|groups| - 1];
      ClearParkedAt(front, regs, a);
      if NonZero(g.parkedBitmask) && ParkAddr(g) == a {
        ClearMaskTwice(regs[a], ParkedBits(front, a), g.parkedBitmask);
      }
    }
  }

  /**
   * After clearing, a bit of a register is set exactly when it was set before
   * and no group parks it.
   */
  lemma ClearParkedEffect(groups: seq<PinGroup>, regs: RegFile)
    requires ParkMapped(groups, regs)
    ensures forall a, j :: a in regs && 0 <= j < 32 ==>
              (ClearParked(groups, regs)[a][j] <==> regs[a][j] && !Parks(groups, a, j))
  {
    forall a, j | a in regs && 0 <= j < 32
      ensures ClearParked(groups, regs)[a][j] <==> regs[a][j] && !Parks(groups, a, j)
    {
      ClearParkedAt(groups, regs, a);
    }
  }

  /** Clearing the parked bits a second time changes nothing. */
  lemma ClearParkedIdempotent(groups: seq<PinGroup>, regs: RegFile)
    requires ParkMapped(groups, regs)
    ensures ParkMapped(groups, ClearParked(groups, regs))
    ensures ClearParked(groups, ClearParked(groups, regs)) == ClearParked(groups, regs)
  {
    var once := ClearParked(groups, regs);
    forall a | a in regs
      ensures ClearParked(groups, once)[a] == once[a]
    {
      ClearParkedAt(groups, regs, a);
      ClearParkedAt(groups, once, a);
      ClearMaskTwice(regs[a], ParkedBits(groups, a), ParkedBits(groups, a));
      assert Or(ParkedBits(groups, a), ParkedBits(groups, a)) == ParkedBits(groups, a);
    }
  }
}
