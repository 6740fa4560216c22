/**
 * The function-to-groups index built at probe: for each function in turn,
 * the names of the mux groups that offer it, in table order, appended to one
 * pool of `4 * ngroups` entries.
 */
module FunctionIndex {
  import opened Tables

  /** Group `g` joins the list of function `fn`: it has a mux register and one of its slots holds `fn`. */
  predicate Offers(g: PinGroup, fn: nat)
  {
    g.muxReg != -1 && fn in g.funcs
  }

  /** The indices, in table order, of the groups among the first `n` that offer `fn`. */
  function FunctionGroups(groups: seq<PinGroup>, fn: nat, n: nat): (r: seq<nat>)
    requires n <= |groups|
    ensures |r| <= n
    ensures forall k :: 0 <= k < |r| ==> r[k] < n
  {
    if n == 0 then []
    else FunctionGroups(groups, fn, n - 1) + (if Offers(groups[n - 1], fn) then [n - 1] else [])
  }

  /** A function's list holds exactly the groups that offer it, each once, ascending. */
  lemma {:induction false} FunctionGroupsExact(groups: seq<PinGroup>, fn: nat, n: nat)
    requires n <= |groups|
    ensures forall x: nat :: x in FunctionGroups(groups, fn, n) <==> x < n && Offers(groups[x], fn)
    ensures forall i, j :: 0 <= i < j < |FunctionGroups(groups, fn, n)| ==>
              FunctionGroups(groups, fn, n)[i] < FunctionGroups(groups, fn, n)[j]
  {
    if n > 0 {
      FunctionGroupsExact(groups, fn, n - 1);
    }
  }

  /** `pool` holds, from position `at` on, the names of the groups at the indices `idx`. */
  ghost predicate ListAt(pool: seq<string>, at: nat, groups: seq<PinGroup>, idx: seq<nat>)
  {
    && at + |idx| <= |pool|
    && forall k :: 0 <= k < |idx| ==> idx[k] < |groups| && pool[at + k] == groups[idx[k]].name
  }

  /** A list that ends before `first` survives any change from `first` on. */
  lemma ListAtKept(pool: seq<string>, pool': seq<string>, first: nat, at: nat, groups: seq<PinGroup>, idx: seq<nat>)
    requires first <= |pool| && first <= |pool'| && pool[..first] == pool'[..first]
    requires ListAt(pool, at, groups, idx) && at + |idx| <= first
    ensures ListAt(pool', at, groups, idx)
  {
    forall k | 0 <= k < |idx|
      ensures pool'[at + k] == groups[idx[k]].name
    {
      assert pool[..first][at + k] == pool'[..first][at + k];
    }
  }

  /** The entries the first `nf` functions take in the pool. */
  function Total(groups: seq<PinGroup>, nf: nat): nat
  {
    if nf == 0 then 0 else Total(groups, nf - 1) + |FunctionGroups(groups, nf - 1, |groups|)|
  }

  /** How many of the functions below `nf` occur in `funcs`. */
  function Distinct(funcs: seq<nat>, nf: nat): nat
  {
    if nf == 0 then 0 else Distinct(funcs, nf - 1) + (if nf - 1 in funcs then 1 else 0)
  }

  /** How many functions below `nf` group `g` is listed under. */
  function Hits(g: PinGroup, nf: nat): nat
  {
    if g.muxReg != -1 then Distinct(g.funcs, nf) else 0
  }

  /** Counting one more group: each function's list grows by one exactly when the group offers it. */
  lemma {:induction false} TotalStep(groups: seq<PinGroup>, nf: nat, n: nat)
    requires 0 < n <= |groups|
    ensures TotalUpTo(groups, nf, n) == TotalUpTo(groups, nf, n - 1) + Hits(groups[n - 1], nf)
  {
    if nf > 0 {
      TotalStep(groups, nf - 1, n);
      var g := groups[n - 1];
      assert |FunctionGroups(groups, nf - 1, n)| ==
             |FunctionGroups(groups, nf - 1, n - 1)| + (if Offers(g, nf - 1) then 1 else 0);
      assert Hits(g, nf) == Hits(g, nf - 1) + (if Offers(g, nf - 1) then 1 else 0);
    }
  }

  /** `Total` with only the first `n` groups in the table. */
  function TotalUpTo(groups: seq<PinGroup>, nf: nat, n: nat): nat
    requires n <= |groups|
  {
    if nf == 0 then 0 else TotalUpTo(groups, nf - 1, n) + |FunctionGroups(groups, nf - 1, n)|
  }

  /** A value not in `t` other than `x` is not in `s`: `s` has at most one more distinct function than `t`. */
  lemma {:induction false} DistinctCover(s: seq<nat>, t: seq<nat>, x: nat, nf: nat)
    requires forall v :: v in s ==> v in t || v == x
    ensures Distinct(s, nf) <= Distinct(t, nf) + (if x < nf then 1 else 0)
  {
    if nf > 0 {
      DistinctCover(s, t, x, nf - 1);
    }
  }

  /** A list of slots names at most as many distinct functions as it has slots. */
  lemma {:induction false} DistinctBound(funcs: seq<nat>, nf: nat)
    ensures Distinct(funcs, nf) <= |funcs|
  {
    if funcs == [] {
      DistinctNone(nf);
    } else {
      DistinctBound(funcs[1..], nf);
      DistinctCover(funcs, funcs[1..], funcs[0], nf);
    }
  }

  lemma {:induction false} DistinctNone(nf: nat)
    ensures Distinct([], nf) == 0
  {
    if nf > 0 {
      DistinctNone(nf - 1);
    }
  }

  /** The pool never holds more than four entries per group: the bound the probe asserts. */
  lemma {:induction false} TotalBound(groups: seq<PinGroup>, nf: nat, n: nat)
    requires n <= |groups|
    requires forall i :: 0 <= i < |groups| ==> |groups[i].funcs| == 4
    ensures TotalUpTo(groups, nf, n) <= 4 * n
  {
    if n == 0 {
      TotalEmpty(groups, nf);
    } else {
      TotalBound(groups, nf, n - 1);
      TotalStep(groups, nf, n);
      DistinctBound(groups[n - 1].funcs, nf);
    }
  }

  lemma {:induction false} TotalEmpty(groups: seq<PinGroup>, nf: nat)
    ensures TotalUpTo(groups, nf, 0) == 0
  {
    if nf > 0 {
      TotalEmpty(groups, nf - 1);
    }
  }

  /** Over the whole table, `TotalUpTo` is `Total`. */
  lemma {:induction false} TotalWhole(groups: seq<PinGroup>, nf: nat)
    ensures TotalUpTo(groups, nf, |groups|) == Total(groups, nf)
  {
    if nf > 0 {
      TotalWhole(groups, nf - 1);
    }
  }

  /** The lists of all functions fit the pool of four entries per group, so the probe's BUG_ON never fires. */
  lemma PoolBound(groups: seq<PinGroup>, nf: nat)
    requires forall i :: 0 <= i < |groups| ==> |groups[i].funcs| == 4
    ensures Total(groups, nf) <= 4 * |groups|
  {
    TotalWhole(groups, nf);
    TotalBound(groups, nf, |groups|);
  }

  /** The lists of the first functions end no later than the lists of more functions. */
  lemma {:induction false} TotalMonotone(groups: seq<PinGroup>, m: nat, nf: nat)
    requires m <= nf
    ensures Total(groups, m) <= Total(groups, nf)
    decreases nf
  {
    if m < nf {
      TotalMonotone(groups, m, nf - 1);
    }
  }

  /** The lists of the first `n` groups are a prefix of the lists of more groups. */
  lemma {:induction false} FunctionGroupsPrefix(groups: seq<PinGroup>, fn: nat, m: nat, n: nat)
    requires m <= n <= |groups|
    ensures |FunctionGroups(groups, fn, m)| <= |FunctionGroups(groups, fn, n)|
    ensures FunctionGroups(groups, fn, m) == FunctionGroups(groups, fn, n)[..|FunctionGroups(groups, fn, m)|]
    decreases n
  {
    if m < n {
      FunctionGroupsPrefix(groups, fn, m, n - 1);
    }
  }

  /** Appending the next offering group's name extends the list by that group. */
  lemma CollectStep(before: seq<string>, after: seq<string>, first: nat, groups: seq<PinGroup>, fn: nat, gn: nat)
    requires gn < |groups| && Offers(groups[gn], fn)
    requires ListAt(before, first, groups, FunctionGroups(groups, fn, gn))
    requires first + |FunctionGroups(groups, fn, gn)| < |before|
    requires after == before[first + |FunctionGroups(groups, fn, gn)| := groups[gn].name]
    ensures ListAt(after, first, groups, FunctionGroups(groups, fn, gn + 1))
    ensures after[..first] == before[..first]
  {
    var idx := FunctionGroups(groups, fn, gn);
    assert FunctionGroups(groups, fn, gn + 1) == idx + [gn];
    forall k | 0 <= k < |idx|
      ensures after[first + k] == groups[idx[k]].name
    {
      assert after[first + k] == before[first + k];
    }
  }

  /** A group that does not offer the function leaves the list as it is. */
  lemma CollectSkip(groups: seq<PinGroup>, fn: nat, gn: nat)
    requires gn < |groups| && !Offers(groups[gn], fn)
    ensures FunctionGroups(groups, fn, gn + 1) == FunctionGroups(groups, fn, gn)
  {
  }

  /**
   * The inner loop of the probe for function `fn`: the names of the groups
   * offering it are written from `pool[first]` on; the entries before `first`
   * stay as they were.
   */
  method CollectGroups(groups: seq<PinGroup>, fn: nat, pool: array<string>, first: nat) returns (n: nat)
    requires forall i :: 0 <= i < |groups| ==> |groups[i].funcs| == 4
    requires first + |FunctionGroups(groups, fn, |groups|)| <= pool.Length
    modifies pool
    ensures n == |FunctionGroups(groups, fn, |groups|)|
    ensures ListAt(pool[..], first, groups, FunctionGroups(groups, fn, |groups|))
    ensures pool[..first] == old(pool[..first])
  {
    n := 0;
    FunctionGroupsPrefix(groups, fn, 0, |groups|);
    for gn := 0 to |groups|
      invariant n == |FunctionGroups(groups, fn, gn)| && n <= |FunctionGroups(groups, fn, |groups|)|
      invariant ListAt(pool[..], first, groups, FunctionGroups(groups, fn, gn))
      invariant pool[..first] == old(pool[..first])
    {
      var g := groups[gn];
      if g.muxReg == -1 {
        CollectSkip(groups, fn, gn);
        continue;
      }
      var gfn := 0;
      while gfn < 4 && g.funcs[gfn] != fn
        invariant 0 <= gfn <= 4
        invariant forall k :: 0 <= k < gfn ==> g.funcs[k] != fn
      {
        gfn := gfn + 1;
      }
      if gfn == 4 {
        CollectSkip(groups, fn, gn);
        continue;
      }
      FunctionGroupsPrefix(groups, fn, gn + 1, |groups|);
      ghost var before := pool[..];
      pool[first + n] := g.name;
      CollectStep(before, pool[..], first, groups, fn, gn);
      n := n + 1;
    }
  }

  /** The lists of the functions before `fn`, laid out one after another up to `cursor`. */
  ghost predicate IndexUpTo(pool: seq<string>, groups: seq<PinGroup>, start: seq<nat>, count: seq<nat>, fn: nat, cursor: nat)
  {
    && |start| == fn && |count| == fn
    && cursor == Total(groups, fn) <= |pool|
    && forall f :: 0 <= f < fn ==>
         && start[f] == Total(groups, f)
         && count[f] == |FunctionGroups(groups, f, |groups|)|
         && ListAt(pool, start[f], groups, FunctionGroups(groups, f, |groups|))
  }

  /** One more function's list, written from `cursor` on, extends the index. */
  lemma IndexStep(before: seq<string>, after: seq<string>, groups: seq<PinGroup>, start: seq<nat>, count: seq<nat>,
                  fn: nat, cursor: nat, n: nat)
    requires IndexUpTo(before, groups, start, count, fn, cursor)
    requires |after| == |before| && cursor + n <= |before| && after[..cursor] == before[..cursor]
    requires n == |FunctionGroups(groups, fn, |groups|)| && ListAt(after, cursor, groups, FunctionGroups(groups, fn, |groups|))
    ensures IndexUpTo(after, groups, start + [cursor], count + [n], fn + 1, cursor + n)
  {
    var start', count' := start + [cursor], count + [n];
    forall f | 0 <= f < fn + 1
      ensures start'[f] == Total(groups, f)
      ensures count'[f] == |FunctionGroups(groups, f, |groups|)|
      ensures ListAt(after, start'[f], groups, FunctionGroups(groups, f, |groups|))
    {
      if f < fn {
        assert start'[f] == start[f] && count'[f] == count[f];
        TotalMonotone(groups, f + 1, fn);
        ListAtKept(before, after, cursor, start[f], groups, FunctionGroups(groups, f, |groups|));
      } else {
        assert start'[f] == cursor && count'[f] == n;
      }
    }
  }

  /**
   * The probe loop. `pool` is `group_pins`; function `fn`'s list starts at
   * `start[fn]`, holds `count[fn]` entries, the names of its groups in table
   * order, and each list starts where the previous one ends.
   */
  method BuildFunctionIndex(groups: seq<PinGroup>, nf: nat) returns (pool: array<string>, start: seq<nat>, count: seq<nat>)
    requires forall i :: 0 <= i < |groups| ==> |groups[i].funcs| == 4
    ensures pool.Length == 4 * |groups|
    ensures |start| == nf && |count| == nf
    ensures forall fn :: 0 <= fn < nf ==>
              && start[fn] == Total(groups, fn)
              && count[fn] == |FunctionGroups(groups, fn, |groups|)|
              && ListAt(pool[..], start[fn], groups, FunctionGroups(groups, fn, |groups|))
  {
    pool := new string[4 * |groups|](_ => "");
    start, count := [], [];
    var cursor := 0;
    for fn := 0 to nf
      invariant IndexUpTo(pool[..], groups, start, count, fn, cursor)
    {
      TotalWhole(groups, fn + 1);
      TotalBound(groups, fn + 1, |groups|);
      ghost var before := pool[..];
      FunctionGroupsPrefix(groups, fn, 0, |groups|);
      var n := CollectGroups(groups, fn, pool, cursor);
      IndexStep(before, pool[..], groups, start, count, fn, cursor, n);
      start := start + [cursor];
      count := count + [n];
      cursor := cursor + n;
    }
  }

  /**
   * `func->ngroups` as a probe leaves it: the value it held before the probe
   * plus one for each of the first `n` groups that offers `fn`. The count
   * lives in the static function table, and the probe never resets it.
   */
  function ProbeCountAsWritten(groups: seq<PinGroup>, fn: nat, n: nat, prior: nat): (r: nat)
    requires n <= |groups|
    ensures r == prior + |FunctionGroups(groups, fn, n)|
  {
    if n == 0 then prior
    else ProbeCountAsWritten(groups, fn, n - 1, prior) + (if Offers(groups[n - 1], fn) then 1 else 0)
  }

  /**
   * A second probe of the device, as written: the count of every function
   * with a group becomes twice its list, so `get_func_groups` reports
   * entries past the end of the list just built.
   */
  lemma SecondProbeAsWritten(groups: seq<PinGroup>, fn: nat)
    requires FunctionGroups(groups, fn, |groups|) != []
    ensures var first := ProbeCountAsWritten(groups, fn, |groups|, 0);
      && first == |FunctionGroups(groups, fn, |groups|)|
      && ProbeCountAsWritten(groups, fn, |groups|, first) == 2 * first
      && ProbeCountAsWritten(groups, fn, |groups|, first) > |FunctionGroups(groups, fn, |groups|)|
  {
  }
}
