/** What `generate_wait` (miditoavrasm.py:21-88) computes, stated and proved
    about the model in `DelayLoop`: the shape of the capacity chain, the
    greedy split and its bounds, the 8-bit encoding of the loop counts, the
    outcome for every cycle count, the nesting depth, and the shape of the
    emitted code. */
module DelayLoopFacts {
  import opened Text
  import opened DelayLoop

  // ---------------------------------------------------------------------
  // The capacity chain (miditoavrasm.py:37-45)
  // ---------------------------------------------------------------------

  /** The capacity list starts at `3 + busyCycles`, each entry is
      `256 * previous + 2`, so it is strictly increasing; every entry but the
      last was too small for `cycles` and the last one is large enough, so the
      number of levels is the least that can hold the request. */
  lemma {:induction false} CapacityChain(cycles: int, busyCycles: nat)
    ensures var caps := Capacities(cycles, busyCycles);
      && |caps| >= 1 && caps[0] == 3 + busyCycles
      && (forall j, k :: 0 <= j && k == j + 1 && k < |caps| ==> caps[k] == 256 * caps[j] + 2)
      && (forall i, j :: 0 <= i < j < |caps| ==> caps[i] < caps[j])
      && (forall k :: 0 <= k < |caps| - 1 ==> cycles > 256 * caps[k] + 2)
      && cycles <= 256 * caps[|caps| - 1] + 2
  {
    ChainBasics(3 + busyCycles, cycles);
    ChainRecurrence(3 + busyCycles, cycles);
    ChainIncreasing(3 + busyCycles, cycles);
    ChainNeeded(3 + busyCycles, cycles);
  }

  lemma {:induction false} ChainRecurrence(total: int, cycles: int)
    requires total >= 3
    decreases cycles - total
    ensures var caps := Chain(total, cycles);
      forall j, k :: 0 <= j && k == j + 1 && k < |caps| ==> caps[k] == 256 * caps[j] + 2
  {
    if cycles > 256 * total - 1 + 3 {
      var next := 256 * total - 1 + 3;
      ChainRecurrence(next, cycles);
      ChainBasics(next, cycles);
      var rest := Chain(next, cycles);
      var caps := [total] + rest;
      assert Chain(total, cycles) == caps;
      forall j, k | 0 <= j && k == j + 1 && k < |caps|
        ensures caps[k] == 256 * caps[j] + 2
      {
        if j > 0 {
          assert caps[k] == rest[j] && caps[j] == rest[j - 1];
        }
      }
    }
  }

  lemma {:induction false} ChainIncreasing(total: int, cycles: int)
    requires total >= 3
    decreases cycles - total
    ensures var caps := Chain(total, cycles);
      forall i, j :: 0 <= i < j < |caps| ==> caps[i] < caps[j]
  {
    if cycles > 256 * total - 1 + 3 {
      var next := 256 * total - 1 + 3;
      ChainIncreasing(next, cycles);
      ChainBasics(next, cycles);
      var rest := Chain(next, cycles);
      var caps := [total] + rest;
      assert Chain(total, cycles) == caps;
      forall i, j | 0 <= i < j < |caps|
        ensures caps[i] < caps[j]
      {
        assert caps[j] == rest[j - 1];
        if i > 0 {
          assert caps[i] == rest[i - 1];
        }
      }
    }
  }

  lemma {:induction false} ChainNeeded(total: int, cycles: int)
    requires total >= 3
    decreases cycles - total
    ensures var caps := Chain(total, cycles);
      forall k :: 0 <= k < |caps| - 1 ==> cycles > 256 * caps[k] + 2
  {
    if cycles > 256 * total - 1 + 3 {
      var next := 256 * total - 1 + 3;
      ChainNeeded(next, cycles);
      ChainBasics(next, cycles);
      var rest := Chain(next, cycles);
      var caps := [total] + rest;
      assert Chain(total, cycles) == caps;
      forall k | 0 <= k < |caps| - 1
        ensures cycles > 256 * caps[k] + 2
      {
        if k > 0 {
          assert caps[k] == rest[k - 1];
        }
      }
    }
  }

  // ---------------------------------------------------------------------
  // The greedy split (miditoavrasm.py:51-64)
  // ---------------------------------------------------------------------

  /** `qs[0] * caps[n-1] + qs[1] * caps[n-2] + ...`: quotients listed
      outermost first weighted by the capacity of their level. */
  function WeightedSum(qs: seq<int>, caps: seq<int>): int
    requires |qs| <= |caps|
  {
    if |qs| == 0 then 0
    else WeightedSum(qs[..|qs| - 1], caps) + qs[|qs| - 1] * caps[|caps| - |qs|]
  }

  /** After `k` levels of the split, what the levels took plus what is left is
      what there was. */
  lemma {:induction false} RunningSum(c: int, caps: seq<int>, k: nat)
    requires Positive(caps) && k <= |caps|
    ensures c == WeightedSum(Quotients(c, caps)[..k], caps) + Running(c, caps, k)
  {
    if k > 0 {
      RunningSum(c, caps, k - 1);
      var qs := Quotients(c, caps);
      assert qs[..k][..k - 1] == qs[..k - 1];
      var a := Running(c, caps, k - 1);
      var b := caps[|caps| - k];
      assert qs[k - 1] == a / b;
      assert Running(c, caps, k) == a % b;
      assert WeightedSum(qs[..k], caps) == WeightedSum(qs[..k - 1], caps) + (a / b) * b;
      DivMod(a, b);
    }
  }

  lemma DivMod(a: int, b: int)
    requires b > 0
    ensures a == (a / b) * b + a % b
  {
  }

  /** The split is exact: once `3` cycles per outer level are set aside, the
      quotients times their capacities plus the remainder give the request
      back, and the remainder is below the innermost capacity. */
  lemma PlanSplitsCycles(cycles: int, busyCycles: nat)
    requires cycles > 12
    ensures var p := Plan(cycles, busyCycles);
      && cycles - 3 * (|p.capacities| - 1) == WeightedSum(p.quotients, p.capacities) + p.remainder
      && 0 <= p.remainder < p.capacities[0]
  {
    var p := Plan(cycles, busyCycles);
    var n := |p.capacities|;
    ChainBasics(3 + busyCycles, cycles);
    RunningSum(cycles - (n - 1) * 3, p.capacities, n);
    assert p.quotients[..n] == p.quotients;
  }

  lemma DivAtMost256(a: int, d: int)
    requires d >= 3 && 0 <= a <= 256 * d + 2
    ensures 0 <= a / d <= 256
  {
    assert (a / d) * d <= a;
  }

  /** Every level takes between 0 and 256 times its capacity. */
  lemma QuotientRange(cycles: int, busyCycles: nat)
    requires cycles > 12
    ensures var p := Plan(cycles, busyCycles);
      forall k :: 0 <= k < |p.quotients| ==> 0 <= p.quotients[k] <= 256
  {
    var p := Plan(cycles, busyCycles);
    var caps := p.capacities;
    var n := |caps|;
    var c := cycles - (n - 1) * 3;
    CapacityChain(cycles, busyCycles);
    ChainBasics(3 + busyCycles, cycles);
    assert c <= cycles;
    forall k | 0 <= k < n
      ensures 0 <= p.quotients[k] <= 256
    {
      assert p.quotients[k] == Quotient(c, caps, k);
      QuotientAtMost256(c, caps, k);
    }
  }

  /** In a chain of capacities `3 <= L0`, `L(k+1) = 256 * Lk + 2`, a request
      the top level can absorb yields quotients of at most 256 at every level. */
  lemma QuotientAtMost256(c: int, caps: seq<int>, k: nat)
    requires k < |caps| && Positive(caps) && caps[0] >= 3
    requires forall i, j :: 0 <= i < j < |caps| ==> caps[i] < caps[j]
    requires forall j, m :: 0 <= j && m == j + 1 && m < |caps| ==> caps[m] == 256 * caps[j] + 2
    requires 0 <= c <= 256 * caps[|caps| - 1] + 2
    ensures 0 <= Quotient(c, caps, k) <= 256
  {
    var n := |caps|;
    assert caps[n - 1 - k] >= 3 by {
      if n - 1 - k > 0 {
        assert caps[0] < caps[n - 1 - k];
      }
    }
    if k == 0 {
      DivAtMost256(c, caps[n - 1]);
    } else {
      assert caps[n - k] == 256 * caps[n - 1 - k] + 2;
      DivAtMost256(Running(c, caps, k), caps[n - 1 - k]);
    }
  }

  /** How an 8-bit loop register counts: loaded with 0 it runs 256 times. */
  function Iterations(v: int): int
  {
    if v == 0 then 256 else v
  }

  /** The loaded values: an outer level whose quotient is `q` runs `q + 1`
      times, and its register is loaded with `q + 1` except that 256 is
      written as 0 — which an 8-bit register runs 256 times — so the value
      fits a byte exactly when `q <= 255`; a quotient of 256 loads 257. The
      innermost level loads its quotient unchanged, which may be 0 or 256. */
  lemma CountEncoding(cycles: int, busyCycles: nat)
    requires cycles > 12
    ensures var p := Plan(cycles, busyCycles);
      var n := |p.counts|;
      && (forall k :: 0 <= k < n - 1 ==>
            && (0 <= p.counts[k] <= 255 <==> p.quotients[k] <= 255)
            && (p.quotients[k] <= 255 ==> Iterations(p.counts[k]) == p.quotients[k] + 1)
            && (p.quotients[k] == 256 ==> p.counts[k] == 257))
      && p.counts[n - 1] == p.quotients[n - 1]
      && 0 <= p.counts[n - 1] <= 256
  {
    QuotientRange(cycles, busyCycles);
  }

  /** The innermost count is not remapped: 1541 cycles load 256 into the
      innermost register, which does not fit a byte. */
  lemma InnermostCountCanBe256()
    ensures Plan(1541, 0).counts == [2, 256] && Plan(1541, 0).remainder == 0
  {
    var caps := [3, 770];
    assert Chain(770, 1541) == [770];
    assert Capacities(1541, 0) == caps;
    assert Running(1538, caps, 1) == 768;
    assert Running(1538, caps, 2) == 0;
    assert Counts(1538, caps) == [2, 256];
  }

  /** An outer count can be 257: for 394248 cycles the middle level's
      quotient is 256. */
  lemma OuterCountCanBe257()
    ensures Plan(394248, 0).counts == [2, 257, 0] && Plan(394248, 0).remainder == 0
  {
    var caps := [3, 770, 197122];
    assert Chain(197122, 394248) == [197122];
    assert Chain(770, 394248) == [770, 197122];
    assert Capacities(394248, 0) == caps;
    assert Running(394242, caps, 1) == 197120;
    assert Running(394242, caps, 2) == 0;
    assert Running(394242, caps, 3) == 0;
    assert Counts(394242, caps) == [2, 257, 0];
  }

  /** A 196356-cycle request, whose outer loop must run 256 times, loads the
      sentinel 0 into the outer register. */
  lemma OuterCountSentinel()
    ensures Plan(196356, 0).counts == [0, 1] && Plan(196356, 0).remainder == 0
  {
    var caps := [3, 770];
    assert Chain(770, 196356) == [770];
    assert Capacities(196356, 0) == caps;
    assert Running(196353, caps, 1) == 3;
    assert Running(196353, caps, 2) == 0;
    assert Counts(196353, caps) == [0, 1];
  }

  // ---------------------------------------------------------------------
  // Outcomes and nesting (miditoavrasm.py:24-35, 74-86)
  // ---------------------------------------------------------------------

  /** Without a busy body the leftover is below 3, so the filler alone covers
      it: a second delay loop is never created and the call returns text. */
  lemma BusyFreeWaitNeverNests(uniqueLabel: string, cycles: int, firstRegister: int, busyCode: string)
    requires cycles > 12
    ensures Plan(cycles, 0).remainder < 3
    ensures Wait(uniqueLabel, cycles, firstRegister, busyCode, 0)
         == Returns(Strip(RenderLines(NestLines(uniqueLabel, firstRegister, busyCode, Plan(cycles, 0).counts)
                                      + FillerLines(Plan(cycles, 0).remainder))))
  {
  }

  /** The one outcome of each request: 0 cycles give the empty string; a
      negative count, 1 or 2 give `None`; 3 to 12 never return, nor does a
      larger request whose leftover lands in 3 to 12; everything else returns
      text. No request raises. */
  lemma WaitOutcome(uniqueLabel: string, cycles: int, firstRegister: int, busyCode: string, busyCycles: nat)
    ensures cycles == 0 ==> Wait(uniqueLabel, cycles, firstRegister, busyCode, busyCycles) == Returns("")
    ensures Wait(uniqueLabel, cycles, firstRegister, busyCode, busyCycles).ReturnsNone?
        <==> cycles < 0 || cycles == 1 || cycles == 2
    ensures Wait(uniqueLabel, cycles, firstRegister, busyCode, busyCycles).Hangs?
        <==> 3 <= cycles <= 12 || (cycles > 12 && 3 <= Plan(cycles, busyCycles).remainder <= 12)
    ensures !Wait(uniqueLabel, cycles, firstRegister, busyCode, busyCycles).RaisesTypeError?
  {
    if cycles > 12 && Plan(cycles, busyCycles).remainder > 12 {
      BusyFreeWaitNeverNests(uniqueLabel + NestSuffix, Plan(cycles, busyCycles).remainder, firstRegister, "");
    }
  }

  /** Nesting depth is at most one: when the leftover needs a second loop,
      that loop gets an empty body, the label with `_Nest` appended, and
      itself ends in plain filler. */
  lemma NestingDepthAtMostOne(uniqueLabel: string, cycles: int, firstRegister: int, busyCode: string, busyCycles: nat)
    requires cycles > 12 && Plan(cycles, busyCycles).remainder > 12
    ensures var rest := Plan(cycles, busyCycles).remainder;
      var inner := Plan(rest, 0);
      && inner.remainder < 3
      && Wait(uniqueLabel, cycles, firstRegister, busyCode, busyCycles)
         == Returns(Strip(RenderLines(
              NestLines(uniqueLabel, firstRegister, busyCode, Plan(cycles, busyCycles).counts)
              + [NestedLoop(Strip(RenderLines(
                   NestLines(uniqueLabel + NestSuffix, firstRegister, "", inner.counts)
                   + FillerLines(inner.remainder))))])))
  {
    BusyFreeWaitNeverNests(uniqueLabel + NestSuffix, Plan(cycles, busyCycles).remainder, firstRegister, "");
  }

  // ---------------------------------------------------------------------
  // Shape of the emitted code (miditoavrasm.py:66-72)
  // ---------------------------------------------------------------------

  function Count(ls: seq<Line>, p: Line -> bool): nat
  {
    if |ls| == 0 then 0 else Count(ls[..|ls| - 1], p) + (if p(ls[|ls| - 1]) then 1 else 0)
  }

  predicate IsLoad(l: Line) { l.Ldi? }
  predicate IsLabel(l: Line) { l.LabelDef? }
  predicate IsDecrement(l: Line) { l.Dec? }
  predicate IsBranch(l: Line) { l.Brne? }

  /** What may follow the decrements: filler or the second delay loop. */
  predicate IsTail(ls: seq<Line>)
  {
    forall k :: 0 <= k < |ls| ==> ls[k].RjmpNext? || ls[k].Nop? || ls[k].NestedLoop?
  }

  lemma {:induction false} CountAppend(a: seq<Line>, b: seq<Line>, p: Line -> bool)
    ensures Count(a + b, p) == Count(a, p) + Count(b, p)
    decreases |b|
  {
    if |b| > 0 {
      assert (a + b)[..|a + b| - 1] == a + b[..|b| - 1];
      CountAppend(a, b[..|b| - 1], p);
    } else {
      assert a + b == a;
    }
  }

  lemma {:induction false} CountUniform(ls: seq<Line>, p: Line -> bool)
    ensures (forall k :: 0 <= k < |ls| ==> p(ls[k])) ==> Count(ls, p) == |ls|
    ensures (forall k :: 0 <= k < |ls| ==> !p(ls[k])) ==> Count(ls, p) == 0
  {
    if |ls| > 0 {
      CountUniform(ls[..|ls| - 1], p);
    }
  }

  /** Peeling the outermost level off the decrements. */
  lemma DecLinesUnfold(firstRegister: int, n: nat, uniqueLabel: string)
    requires n > 0
    ensures DecLines(firstRegister, n, uniqueLabel)
         == DecLines(firstRegister + 1, n - 1, uniqueLabel) + [Dec(firstRegister), Brne(uniqueLabel)]
  {
    var d := DecLines(firstRegister, n, uniqueLabel);
    var e := DecLines(firstRegister + 1, n - 1, uniqueLabel) + [Dec(firstRegister), Brne(uniqueLabel)];
    forall k | 0 <= k < 2 * n
      ensures d[k] == e[k]
    {
      if k < 2 * n - 2 {
        assert e[k] == DecLines(firstRegister + 1, n - 1, uniqueLabel)[k];
      }
    }
  }

  lemma {:induction false} DecLinesCounts(firstRegister: int, n: nat, uniqueLabel: string)
    decreases n
    ensures Count(DecLines(firstRegister, n, uniqueLabel), IsDecrement) == n
    ensures Count(DecLines(firstRegister, n, uniqueLabel), IsBranch) == n
    ensures Count(DecLines(firstRegister, n, uniqueLabel), IsLoad) == 0
    ensures Count(DecLines(firstRegister, n, uniqueLabel), IsLabel) == 0
  {
    var d := DecLines(firstRegister, n, uniqueLabel);
    if n > 0 {
      var shorter := DecLines(firstRegister + 1, n - 1, uniqueLabel);
      var pair := [Dec(firstRegister), Brne(uniqueLabel)];
      DecLinesUnfold(firstRegister, n, uniqueLabel);
      DecLinesCounts(firstRegister + 1, n - 1, uniqueLabel);
      CountPair(Dec(firstRegister), Brne(uniqueLabel), IsDecrement);
      CountPair(Dec(firstRegister), Brne(uniqueLabel), IsBranch);
      CountPair(Dec(firstRegister), Brne(uniqueLabel), IsLoad);
      CountPair(Dec(firstRegister), Brne(uniqueLabel), IsLabel);
      CountAppend(shorter, pair, IsDecrement);
      CountAppend(shorter, pair, IsBranch);
      CountAppend(shorter, pair, IsLoad);
      CountAppend(shorter, pair, IsLabel);
    } else {
      assert d == [];
    }
  }

  lemma CountPair(a: Line, b: Line, p: Line -> bool)
    ensures Count([a, b], p) == (if p(a) then 1 else 0) + (if p(b) then 1 else 0)
  {
    assert [a, b][..1] == [a];
    assert [a][..0] == [];
    assert Count([a], p) == Count([], p) + (if p(a) then 1 else 0);
    assert Count([a, b], p) == Count([a], p) + (if p(b) then 1 else 0);
  }

  /** The count over the four parts of the loop code. */
  lemma CountFour(a: seq<Line>, b: seq<Line>, c: seq<Line>, d: seq<Line>, p: Line -> bool)
    ensures Count(a + b + c + d, p) == Count(a, p) + Count(b, p) + Count(c, p) + Count(d, p)
  {
    CountAppend(a, b, p);
    CountAppend(a + b, c, p);
    CountAppend(a + b + c, d, p);
  }

  /** A count over the loop code is the count over its parts. */
  lemma NestCount(uniqueLabel: string, firstRegister: int, busyCode: string, counts: seq<int>, tail: seq<Line>, p: Line -> bool)
    ensures Count(NestLines(uniqueLabel, firstRegister, busyCode, counts) + tail, p)
         == Count(LoadLines(counts, firstRegister), p)
            + (if p(LabelDef(uniqueLabel)) then 1 else 0) + (if p(Code(Tabbify(busyCode))) then 1 else 0)
            + Count(DecLines(firstRegister, |counts|, uniqueLabel), p) + Count(tail, p)
  {
    var loads := LoadLines(counts, firstRegister);
    var middle := [LabelDef(uniqueLabel), Code(Tabbify(busyCode))];
    var decs := DecLines(firstRegister, |counts|, uniqueLabel);
    assert NestLines(uniqueLabel, firstRegister, busyCode, counts) + tail == loads + middle + decs + tail;
    CountFour(loads, middle, decs, tail, p);
    CountPair(LabelDef(uniqueLabel), Code(Tabbify(busyCode)), p);
  }

  /** The loop code holds exactly one `ldi` and one `dec`/`brne` pair per
      level and one label definition, whatever filler or second loop follows. */
  lemma NestCodeCounts(uniqueLabel: string, firstRegister: int, busyCode: string, counts: seq<int>, tail: seq<Line>)
    requires IsTail(tail)
    ensures var code := NestLines(uniqueLabel, firstRegister, busyCode, counts) + tail;
      && Count(code, IsLoad) == |counts|
      && Count(code, IsDecrement) == |counts|
      && Count(code, IsBranch) == |counts|
      && Count(code, IsLabel) == 1
  {
    DecLinesCounts(firstRegister, |counts|, uniqueLabel);
    LoadLinesCounts(counts, firstRegister);
    TailCounts(tail);
    NestCount(uniqueLabel, firstRegister, busyCode, counts, tail, IsLoad);
    NestCount(uniqueLabel, firstRegister, busyCode, counts, tail, IsDecrement);
    NestCount(uniqueLabel, firstRegister, busyCode, counts, tail, IsBranch);
    NestCount(uniqueLabel, firstRegister, busyCode, counts, tail, IsLabel);
  }

  lemma LoadLinesCounts(counts: seq<int>, firstRegister: int)
    ensures var loads := LoadLines(counts, firstRegister);
      && Count(loads, IsLoad) == |counts|
      && Count(loads, IsDecrement) == 0
      && Count(loads, IsBranch) == 0
      && Count(loads, IsLabel) == 0
  {
    var loads := LoadLines(counts, firstRegister);
    CountUniform(loads, IsLoad);
    CountUniform(loads, IsDecrement);
    CountUniform(loads, IsBranch);
    CountUniform(loads, IsLabel);
  }

  lemma TailCounts(tail: seq<Line>)
    requires IsTail(tail)
    ensures && Count(tail, IsLoad) == 0
            && Count(tail, IsDecrement) == 0
            && Count(tail, IsBranch) == 0
            && Count(tail, IsLabel) == 0
  {
    CountUniform(tail, IsLoad);
    CountUniform(tail, IsDecrement);
    CountUniform(tail, IsBranch);
    CountUniform(tail, IsLabel);
  }

  /** The order of the loop code: the `ldi` lines first, outermost level in
      `firstRegister`, then the label, then the decrements from the highest
      register down, each followed by a `brne` to that one label; no `brne`
      anywhere targets another label. */
  lemma NestCodeLayout(uniqueLabel: string, firstRegister: int, busyCode: string, counts: seq<int>, tail: seq<Line>)
    requires IsTail(tail)
    ensures var code := NestLines(uniqueLabel, firstRegister, busyCode, counts) + tail;
      var n := |counts|;
      && (forall k :: 0 <= k < n ==> code[k] == Ldi(firstRegister + k, counts[k]))
      && code[n] == LabelDef(uniqueLabel)
      && (forall j :: 0 <= j < n ==>
            code[n + 2 + 2 * j] == Dec(firstRegister + n - 1 - j) && code[n + 3 + 2 * j] == Brne(uniqueLabel))
      && (forall k :: 0 <= k < |code| && code[k].Brne? ==> code[k].target == uniqueLabel)
  {
    NestLoadsFirst(uniqueLabel, firstRegister, busyCode, counts, tail);
    NestDecrementsAfter(uniqueLabel, firstRegister, busyCode, counts, tail);
    NestBranchTargets(uniqueLabel, firstRegister, busyCode, counts, tail);
  }

  lemma NestLoadsFirst(uniqueLabel: string, firstRegister: int, busyCode: string, counts: seq<int>, tail: seq<Line>)
    ensures var code := NestLines(uniqueLabel, firstRegister, busyCode, counts) + tail;
      && (forall k :: 0 <= k < |counts| ==> code[k] == Ldi(firstRegister + k, counts[k]))
      && code[|counts|] == LabelDef(uniqueLabel)
  {
    var loads := LoadLines(counts, firstRegister);
    var code := NestLines(uniqueLabel, firstRegister, busyCode, counts) + tail;
    assert code == loads + ([LabelDef(uniqueLabel), Code(Tabbify(busyCode))]
                            + DecLines(firstRegister, |counts|, uniqueLabel) + tail);
    forall k | 0 <= k < |counts|
      ensures code[k] == Ldi(firstRegister + k, counts[k])
    {
      assert code[k] == loads[k];
    }
  }

  lemma NestDecrementsAfter(uniqueLabel: string, firstRegister: int, busyCode: string, counts: seq<int>, tail: seq<Line>)
    ensures var code := NestLines(uniqueLabel, firstRegister, busyCode, counts) + tail;
      var n := |counts|;
      forall j :: 0 <= j < n ==>
        code[n + 2 + 2 * j] == Dec(firstRegister + n - 1 - j) && code[n + 3 + 2 * j] == Brne(uniqueLabel)
  {
    var n := |counts|;
    var head := LoadLines(counts, firstRegister) + [LabelDef(uniqueLabel), Code(Tabbify(busyCode))];
    var decs := DecLines(firstRegister, n, uniqueLabel);
    var code := NestLines(uniqueLabel, firstRegister, busyCode, counts) + tail;
    assert code == head + decs + tail;
    forall j | 0 <= j < n
      ensures code[n + 2 + 2 * j] == Dec(firstRegister + n - 1 - j)
      ensures code[n + 3 + 2 * j] == Brne(uniqueLabel)
    {
      assert code[n + 2 + 2 * j] == decs[2 * j];
      assert code[n + 3 + 2 * j] == decs[2 * j + 1];
    }
  }

  lemma NestBranchTargets(uniqueLabel: string, firstRegister: int, busyCode: string, counts: seq<int>, tail: seq<Line>)
    requires IsTail(tail)
    ensures var code := NestLines(uniqueLabel, firstRegister, busyCode, counts) + tail;
      forall k :: 0 <= k < |code| && code[k].Brne? ==> code[k].target == uniqueLabel
  {
    var n := |counts|;
    var head := LoadLines(counts, firstRegister) + [LabelDef(uniqueLabel), Code(Tabbify(busyCode))];
    var decs := DecLines(firstRegister, n, uniqueLabel);
    var code := NestLines(uniqueLabel, firstRegister, busyCode, counts) + tail;
    assert code == head + decs + tail;
    forall k | 0 <= k < |code| && code[k].Brne?
      ensures code[k].target == uniqueLabel
    {
      if n + 2 <= k < n + 2 + 2 * n {
        assert code[k] == decs[k - n - 2];
      }
    }
  }
}
