/**
 * `tegra_pinctrl_suspend` and `tegra_pinctrl_resume`: every word of every
 * bank is copied, bank by bank and word by word, into one flat backup buffer,
 * and copied back in the same order.
 */
module Suspend {
  import opened Bits
  import opened Tables
  import opened PinConf

  /** Word `k` of bank `bank`, at byte offset `4 * k`. */
  function WordAddr(bank: nat, k: nat): Addr
  {
    Addr(bank, 4 * k)
  }

  /** Where bank `b` starts in the backup buffer: the words of the banks before it. */
  function BankBase(sizes: seq<nat>, b: nat): (r: nat)
    requires b <= |sizes|
  {
    if b == 0 then 0 else BankBase(sizes, b - 1) + sizes[b - 1]
  }

  /** The words of all banks: `backup_regs_size / 4`. */
  function TotalWords(sizes: seq<nat>): nat
  {
    BankBase(sizes, |sizes|)
  }

  /** Bank `b` lies inside the buffer, after the banks before it. */
  lemma {:induction false} BankInside(sizes: seq<nat>, b: nat, c: nat)
    requires b < c <= |sizes|
    ensures BankBase(sizes, b) + sizes[b] <= BankBase(sizes, c)
    decreases c
  {
    if b + 1 < c {
      BankInside(sizes, b, c - 1);
    }
  }

  /** `a` is one of the bank words. */
  predicate IsBankWord(sizes: seq<nat>, a: Addr)
  {
    0 <= a.bank < |sizes| && a.reg >= 0 && a.reg % 4 == 0 && a.reg / 4 < sizes[a.bank]
  }

  /** The position of a bank word in the backup buffer. */
  function FlatIndex(sizes: seq<nat>, a: Addr): (r: nat)
    requires IsBankWord(sizes, a)
    ensures r < TotalWords(sizes)
  {
    BankInside(sizes, a.bank, |sizes|);
    BankBase(sizes, a.bank) + a.reg / 4
  }

  /** Every word of every bank is a register. */
  ghost predicate BanksMapped(sizes: seq<nat>, regs: RegFile)
  {
    forall a :: IsBankWord(sizes, a) ==> a in regs
  }

  /** The words of bank `b`, in address order. */
  function BankWords(sizes: seq<nat>, regs: RegFile, b: nat): (r: seq<Word>)
    requires BanksMapped(sizes, regs) && b < |sizes|
    ensures |r| == sizes[b]
    ensures forall k :: 0 <= k < sizes[b] ==> r[k] == regs[WordAddr(b, k)]
  {
    seq(sizes[b], k requires 0 <= k < sizes[b] => assert IsBankWord(sizes, WordAddr(b, k)); regs[WordAddr(b, k)])
  }

  /** `tegra_pinctrl_suspend`: the first `n` banks, one after the other. */
  function Snapshot(sizes: seq<nat>, regs: RegFile, n: nat): (r: seq<Word>)
    requires BanksMapped(sizes, regs) && n <= |sizes|
    ensures |r| == BankBase(sizes, n)
  {
    if n == 0 then [] else Snapshot(sizes, regs, n - 1) + BankWords(sizes, regs, n - 1)
  }

  /** The backup holds every bank word at its flat position. */
  lemma {:induction false} SnapshotAt(sizes: seq<nat>, regs: RegFile, n: nat, a: Addr)
    requires BanksMapped(sizes, regs) && n <= |sizes|
    requires IsBankWord(sizes, a) && a.bank < n
    ensures FlatIndex(sizes, a) < |Snapshot(sizes, regs, n)|
    ensures Snapshot(sizes, regs, n)[FlatIndex(sizes, a)] == regs[a]
    decreases n
  {
    BankInside(sizes, a.bank, n);
    assert a == WordAddr(a.bank, a.reg / 4);
    if a.bank < n - 1 {
      SnapshotAt(sizes, regs, n - 1, a);
    }
  }

  /** `tegra_pinctrl_resume`: every bank word takes its backed-up value; other registers keep theirs. */
  function Restored(sizes: seq<nat>, regs: RegFile, backup: seq<Word>): (r: RegFile)
    requires |backup| >= TotalWords(sizes)
    ensures r.Keys == regs.Keys
  {
    map a | a in regs :: if IsBankWord(sizes, a) then backup[FlatIndex(sizes, a)] else regs[a]
  }

  /**
   * A resume after a suspend gives back exactly the registers at the suspend,
   * whatever they became in between, when the registers are the bank words.
   */
  lemma SuspendResume(sizes: seq<nat>, regs: RegFile, later: RegFile)
    requires BanksMapped(sizes, regs) && forall a :: a in regs ==> IsBankWord(sizes, a)
    requires later.Keys == regs.Keys
    ensures Restored(sizes, later, Snapshot(sizes, regs, |sizes|)) == regs
  {
    var backup := Snapshot(sizes, regs, |sizes|);
    forall a | a in regs
      ensures Restored(sizes, later, backup)[a] == regs[a]
    {
      SnapshotAt(sizes, regs, |sizes|, a);
    }
  }

  /** Bank word `a` comes before word `k` of bank `b` in the copy order. */
  predicate CopiedBefore(a: Addr, b: nat, k: nat)
  {
    a.bank < b || (a.bank == b && a.reg / 4 < k)
  }

  /** The registers when the resume loop has reached word `k` of bank `b`. */
  function Partial(sizes: seq<nat>, regs: RegFile, backup: seq<Word>, b: nat, k: nat): (r: RegFile)
    requires |backup| >= TotalWords(sizes)
    ensures r.Keys == regs.Keys
  {
    map a | a in regs :: if IsBankWord(sizes, a) && CopiedBefore(a, b, k) then backup[FlatIndex(sizes, a)] else regs[a]
  }

  /** One more word copied back. */
  lemma PartialStep(sizes: seq<nat>, regs: RegFile, backup: seq<Word>, b: nat, k: nat)
    requires |backup| >= TotalWords(sizes) && BanksMapped(sizes, regs)
    requires b < |sizes| && k < sizes[b]
    ensures IsBankWord(sizes, WordAddr(b, k)) && FlatIndex(sizes, WordAddr(b, k)) == BankBase(sizes, b) + k
    ensures Partial(sizes, regs, backup, b, k + 1) ==
            Partial(sizes, regs, backup, b, k)[WordAddr(b, k) := backup[BankBase(sizes, b) + k]]
  {
    assert IsBankWord(sizes, WordAddr(b, k));
  }

  /** The end of one bank is the start of the next. */
  lemma PartialNextBank(sizes: seq<nat>, regs: RegFile, backup: seq<Word>, b: nat)
    requires |backup| >= TotalWords(sizes) && b < |sizes|
    ensures Partial(sizes, regs, backup, b, sizes[b]) == Partial(sizes, regs, backup, b + 1, 0)
  {
  }

  /** Before the loop nothing is copied; after the last bank everything is. */
  lemma PartialEnds(sizes: seq<nat>, regs: RegFile, backup: seq<Word>)
    requires |backup| >= TotalWords(sizes)
    ensures Partial(sizes, regs, backup, 0, 0) == regs
    ensures Partial(sizes, regs, backup, |sizes|, 0) == Restored(sizes, regs, backup)
  {
  }
}
