/** The delay-loop synthesizer `generate_wait` (miditoavrasm.py:21-88).

    For a cycle count it picks a chain of loop capacities, splits the count
    over them greedily, and emits one `ldi` per loop register, the loop label,
    the optional busy body and one `dec`/`brne` pair per register, followed by
    a short filler or, when the leftover is too large, a second delay loop.

    The Python function has four possible outcomes, kept apart by `Run`:
    it returns a string, it returns `None` (the bare `return` at line 35), it
    never returns (the `while cycles >= 3` loops at lines 27-28 and 75-76 do
    not change `cycles`), or it raises a `TypeError` (a string concatenated
    with `None`). */
module DelayLoop {
  import opened Text

  /** What running a piece of the generator gives: a text, `None`, no end at
      all (a loop that never stops, and grows its output until memory runs
      out), or a `TypeError`. */
  datatype Run = Returns(text: string) | ReturnsNone | Hangs | RaisesTypeError

  // ---------------------------------------------------------------------
  // Loop capacities (miditoavrasm.py:37-45)
  // ---------------------------------------------------------------------

  /** The capacity chain grown from `total`: each further level holds
      `256 * previous + 2` cycles, and a level is added only while `cycles`
      exceeds what the last level can absorb. */
  function Chain(total: int, cycles: int): (caps: seq<int>)
    requires total >= 3
    decreases cycles - total
  {
    if cycles > 256 * total - 1 + 3 then [total] + Chain(256 * total - 1 + 3, cycles) else [total]
  }

  /** What the rest of the model needs of the chain: it starts at `total`,
      level k is at least 3k above it, the last one is large enough for
      `cycles` and every level past the first was needed. */
  lemma {:induction false} ChainBasics(total: int, cycles: int)
    requires total >= 3
    decreases cycles - total
    ensures var caps := Chain(total, cycles);
      && |caps| >= 1 && caps[0] == total
      && cycles <= 256 * caps[|caps| - 1] + 2
      && (|caps| > 1 ==> cycles > caps[|caps| - 1])
      && (forall k :: 0 <= k < |caps| ==> caps[k] >= total + 3 * k)
  {
    if cycles > 256 * total - 1 + 3 {
      ChainBasics(256 * total - 1 + 3, cycles);
    }
  }

  /** `loop_max_length` for a request of `cycles` with a busy body costing
      `busyCycles`: the innermost level costs `3 + busyCycles` per iteration. */
  function Capacities(cycles: int, busyCycles: nat): seq<int>
  {
    Chain(3 + busyCycles, cycles)
  }

  ghost predicate Positive(caps: seq<int>)
  {
    forall k :: 0 <= k < |caps| ==> caps[k] > 0
  }

  /** Builds the capacity list with the source's `while` loop. */
  method LoopCapacities(cycles: int, busyCycles: nat) returns (caps: seq<int>)
    ensures caps == Capacities(cycles, busyCycles)
  {
    var total := 3 + busyCycles;
    caps := [total];
    while cycles > 256 * total - 1 + 3
      invariant total >= 3 && |caps| >= 1 && caps[|caps| - 1] == total
      invariant caps[..|caps| - 1] + Chain(total, cycles) == Capacities(cycles, busyCycles)
      decreases cycles - total
    {
      ghost var done := caps[..|caps| - 1];
      ghost var previous := total;
      assert caps == done + [previous];
      total := 256 * total - 1 + 3;
      caps := caps + [total];
      assert caps[..|caps| - 1] == done + [previous];
    }
  }

  // ---------------------------------------------------------------------
  // Greedy split of the cycle count (miditoavrasm.py:51-64)
  // ---------------------------------------------------------------------

  /** The running value after the outermost `k` levels have taken their share:
      the `cycles` variable of the split loop after `k` passes. */
  function Running(c: int, caps: seq<int>, k: nat): (r: int)
    requires k <= |caps| && Positive(caps)
    ensures k > 0 ==> 0 <= r < caps[|caps| - k]
    ensures c >= 0 ==> 0 <= r <= c
  {
    if k == 0 then c else Running(c, caps, k - 1) % caps[|caps| - k]
  }

  /** The quotient taken at the `k`-th level counted from the outermost one,
      `cycles // loop_max_length[i]` with `i == |caps| - 1 - k`. Python's `//`
      and `%` agree with Dafny's for a positive divisor. */
  function Quotient(c: int, caps: seq<int>, k: nat): int
    requires k < |caps| && Positive(caps)
  {
    Running(c, caps, k) / caps[|caps| - 1 - k]
  }

  /** The quotients of all levels, outermost first. */
  function Quotients(c: int, caps: seq<int>): seq<int>
    requires Positive(caps)
  {
    seq(|caps|, k requires 0 <= k < |caps| => Quotient(c, caps, k))
  }

  /** The value loaded for a quotient `q` at loop `level` (0 is innermost):
      outer loops load `q + 1`, with 256 written as 0; the innermost loop
      loads `q` unchanged. */
  function LoopCount(q: int, level: nat): int
  {
    if level != 0 then (if q + 1 == 256 then 0 else q + 1) else q
  }

  /** `loop_lengths`: one loaded value per level, outermost first. */
  function Counts(c: int, caps: seq<int>): seq<int>
    requires Positive(caps)
  {
    seq(|caps|, k requires 0 <= k < |caps| => LoopCount(Quotient(c, caps, k), |caps| - 1 - k))
  }

  /** Runs the source's split loop over `caps`, outermost level first. */
  method SplitCycles(c: int, caps: seq<int>) returns (counts: seq<int>, rest: int)
    requires Positive(caps)
    ensures counts == Counts(c, caps)
    ensures rest == Running(c, caps, |caps|)
  {
    counts := [];
    rest := c;
    var i := |caps|;
    while i > 0
      invariant 0 <= i <= |caps|
      invariant rest == Running(c, caps, |caps| - i)
      invariant counts == Counts(c, caps)[..|caps| - i]
    {
      i := i - 1;
      var cycleTimes := rest / caps[i];
      if i != 0 {
        if cycleTimes + 1 == 256 {
          cycleTimes := -1;
        }
        counts := counts + [cycleTimes + 1];
      } else {
        counts := counts + [cycleTimes];
      }
      rest := rest % caps[i];
    }
  }

  /** The whole arithmetic plan of one loop nest. */
  datatype LoopNest = LoopNest(
    capacities: seq<int>,  // innermost first, as `loop_max_length`
    quotients: seq<int>,   // outermost first
    counts: seq<int>,      // outermost first, as `loop_lengths`
    remainder: int)        // the cycles left over after the nest

  /** The plan for a request of more than 12 cycles: `3 * (levels - 1)` cycles
      are set aside for the outer loops' entry, the rest is split greedily. */
  function Plan(cycles: int, busyCycles: nat): (p: LoopNest)
    requires cycles > 12
    ensures p.capacities == Capacities(cycles, busyCycles)
    ensures |p.quotients| == |p.counts| == |p.capacities| >= 1
    ensures 0 <= p.remainder <= cycles && p.remainder < 3 + busyCycles
  {
    var caps := Capacities(cycles, busyCycles);
    ChainBasics(3 + busyCycles, cycles);
    var n := |caps|;
    var c := cycles - (n - 1) * 3;
    assert c >= 0 by {
      if n > 1 {
        assert cycles > caps[n - 1] >= 3 + 3 * (n - 1);
      }
    }
    LoopNest(caps, Quotients(c, caps), Counts(c, caps), Running(c, caps, n))
  }

  // ---------------------------------------------------------------------
  // Emitted text (miditoavrasm.py:66-86)
  // ---------------------------------------------------------------------

  /** One piece of emitted assembly. `Code` is caller-supplied text inserted
      verbatim; `NestedLoop` carries the text of the second delay loop. */
  datatype Line =
    | Ldi(register: int, value: int)
    | LabelDef(name: string)
    | Code(text: string)
    | Dec(register: int)
    | Brne(target: string)
    | RjmpNext
    | Nop
    | NestedLoop(text: string)

  const NestSuffix: string := "_Nest"
  const NestComment: string := "; Cannot delay for this amount in this loop. Creating a new delay loop\n"

  /** The text of each piece, as the source's format strings write it. */
  function Render(l: Line): string
  {
    match l
    case Ldi(r, v) => "ldi r" + IntToString(r) + ", " + IntToString(v) + "\n"
    case LabelDef(name) => name + ":\n"
    case Code(text) => text
    case Dec(r) => "    dec r" + IntToString(r) + "\n"
    case Brne(target) => "    brne " + target + "\n"
    case RjmpNext => "    rjmp PC+1\n"
    case Nop => "    nop\n"
    case NestedLoop(text) => "\n" + Tabbify(NestComment + text)
  }

  /** The strings of `parts` written one after another. */
  function Flatten(parts: seq<string>): string
  {
    if |parts| == 0 then "" else Flatten(parts[..|parts| - 1]) + parts[|parts| - 1]
  }

  /** The text of each piece, piece by piece. */
  function Rendered(ls: seq<Line>): seq<string>
  {
    seq(|ls|, k requires 0 <= k < |ls| => Render(ls[k]))
  }

  /** The text of a sequence of pieces. */
  function RenderLines(ls: seq<Line>): string
  {
    Flatten(Rendered(ls))
  }

  /** One `ldi` per level, outermost level in the first register. */
  function LoadLines(counts: seq<int>, firstRegister: int): seq<Line>
  {
    seq(|counts|, i requires 0 <= i < |counts| => Ldi(firstRegister + i, counts[i]))
  }

  /** One `dec`/`brne` pair per level, innermost (highest) register first. */
  function DecLines(firstRegister: int, n: nat, uniqueLabel: string): seq<Line>
  {
    seq(2 * n, k requires 0 <= k < 2 * n =>
      if k % 2 == 0 then Dec(firstRegister + n - 1 - k / 2) else Brne(uniqueLabel))
  }

  /** The straight-line filler for a leftover of one or two cycles. */
  function FillerLines(rest: int): seq<Line>
  {
    if rest == 2 then [RjmpNext] else if rest == 1 then [Nop] else []
  }

  /** The loop nest proper: loads, uniqueLabel, busy body, decrements. */
  function NestLines(uniqueLabel: string, firstRegister: int, busyCode: string, counts: seq<int>): seq<Line>
  {
    LoadLines(counts, firstRegister) + [LabelDef(uniqueLabel), Code(Tabbify(busyCode))]
      + DecLines(firstRegister, |counts|, uniqueLabel)
  }

  /** What `generate_wait(uniqueLabel, cycles, firstRegister, busyCode, busyCycles)`
      does. */
  function Wait(uniqueLabel: string, cycles: int, firstRegister: int, busyCode: string, busyCycles: nat): Run
    decreases cycles, busyCycles
  {
    if cycles == 0 then Returns("")
    else if cycles <= 12 then
      // `while cycles >= 3` never changes `cycles`; below 3 the filler is
      // built and discarded by the bare `return`
      if cycles >= 3 then Hangs else ReturnsNone
    else
      var p := Plan(cycles, busyCycles);
      var nest := NestLines(uniqueLabel, firstRegister, busyCode, p.counts);
      if p.remainder <= 12 then Filled(nest, p.remainder)
      else Nested(nest, Wait(uniqueLabel + NestSuffix, p.remainder, firstRegister, "", 0))
  }

  /** The end of a wait whose leftover is at most 12 cycles: `while rest >= 3`
      never returns; otherwise one or two cycles of filler follow the nest. */
  function Filled(nest: seq<Line>, rest: int): Run
  {
    if rest >= 3 then Hangs else Returns(Strip(RenderLines(nest + FillerLines(rest))))
  }

  /** The end of a wait whose leftover needed a second loop: its text is
      appended, indented, after the comment; a `None` from it raises. */
  function Nested(nest: seq<Line>, inner: Run): Run
  {
    match inner
    case Returns(text) => Returns(Strip(RenderLines(nest + [NestedLoop(text)])))
    case ReturnsNone => RaisesTypeError
    case Hangs => Hangs
    case RaisesTypeError => RaisesTypeError
  }

  lemma {:induction false} FlattenAppend(a: seq<string>, b: seq<string>)
    ensures Flatten(a + b) == Flatten(a) + Flatten(b)
    decreases |b|
  {
    if |b| > 0 {
      assert (a + b)[..|a + b| - 1] == a + b[..|b| - 1];
      FlattenAppend(a, b[..|b| - 1]);
    } else {
      assert a + b == a;
    }
  }

  lemma RenderLinesAppend(a: seq<Line>, b: seq<Line>)
    ensures RenderLines(a + b) == RenderLines(a) + RenderLines(b)
  {
    assert Rendered(a + b) == Rendered(a) + Rendered(b);
    FlattenAppend(Rendered(a), Rendered(b));
  }

  lemma RenderSingle(a: Line)
    ensures RenderLines([a]) == Render(a)
  {
    var x := Render(a);
    assert Rendered([a]) == [x];
    assert [x][..0] == [];
    assert Flatten([x]) == Flatten([]) + x;
  }

  lemma RenderPair(a: Line, b: Line)
    ensures RenderLines([a, b]) == Render(a) + Render(b)
  {
    RenderLinesAppend([a], [b]);
    assert [a] + [b] == [a, b];
    RenderSingle(a);
    RenderSingle(b);
  }

  lemma LoadLinesStep(counts: seq<int>, firstRegister: int, i: nat)
    requires i < |counts|
    ensures LoadLines(counts, firstRegister)[..i + 1]
         == LoadLines(counts, firstRegister)[..i] + [Ldi(firstRegister + i, counts[i])]
  {
  }

  lemma DecLinesStep(firstRegister: int, n: nat, uniqueLabel: string, i: nat)
    requires i < n
    ensures DecLines(firstRegister, n, uniqueLabel)[..2 * (n - i)]
         == DecLines(firstRegister, n, uniqueLabel)[..2 * (n - i - 1)] + [Dec(firstRegister + i), Brne(uniqueLabel)]
  {
    assert DecLines(firstRegister, n, uniqueLabel)[2 * (n - i - 1)] == Dec(firstRegister + i);
  }

  /** No decrement written yet is the empty text; all of them are the whole
      decrement code. */
  lemma DecTextEnds(firstRegister: int, n: nat, uniqueLabel: string)
    ensures RenderLines(DecLines(firstRegister, n, uniqueLabel)[..0]) == ""
    ensures DecLines(firstRegister, n, uniqueLabel)[..2 * n] == DecLines(firstRegister, n, uniqueLabel)
  {
    assert DecLines(firstRegister, n, uniqueLabel)[..0] == [];
  }

  /** One more `dec`/`brne` pair of text, for register `firstRegister + i`. */
  lemma DecTextStep(firstRegister: int, n: nat, uniqueLabel: string, i: nat)
    requires i < n
    ensures RenderLines(DecLines(firstRegister, n, uniqueLabel)[..2 * (n - i)])
         == RenderLines(DecLines(firstRegister, n, uniqueLabel)[..2 * (n - i - 1)])
            + (Render(Dec(firstRegister + i)) + Render(Brne(uniqueLabel)))
  {
    var done := DecLines(firstRegister, n, uniqueLabel)[..2 * (n - i - 1)];
    DecLinesStep(firstRegister, n, uniqueLabel, i);
    RenderLinesAppend(done, [Dec(firstRegister + i), Brne(uniqueLabel)]);
    RenderPair(Dec(firstRegister + i), Brne(uniqueLabel));
  }

  /** The `ldi` loop (miditoavrasm.py:66-67). */
  method EmitLoads(counts: seq<int>, firstRegister: int) returns (output: string)
    ensures output == RenderLines(LoadLines(counts, firstRegister))
  {
    output := "";
    ghost var loads := LoadLines(counts, firstRegister);
    assert loads[..0] == [];
    for i := 0 to |counts|
      invariant output == RenderLines(loads[..i])
    {
      LoadLinesStep(counts, firstRegister, i);
      RenderLinesAppend(loads[..i], [Ldi(firstRegister + i, counts[i])]);
      RenderSingle(Ldi(firstRegister + i, counts[i]));
      output := output + Render(Ldi(firstRegister + i, counts[i]));
    }
    assert loads[..|counts|] == loads;
  }

  /** The `dec`/`brne` loop (miditoavrasm.py:71-72), highest register first. */
  method EmitDecrements(firstRegister: int, n: nat, uniqueLabel: string) returns (output: string)
    ensures output == RenderLines(DecLines(firstRegister, n, uniqueLabel))
  {
    output := "";
    DecTextEnds(firstRegister, n, uniqueLabel);
    for i := n downto 0
      invariant output == RenderLines(DecLines(firstRegister, n, uniqueLabel)[..2 * (n - i)])
    {
      DecTextStep(firstRegister, n, uniqueLabel, i);
      output := output + (Render(Dec(firstRegister + i)) + Render(Brne(uniqueLabel)));
    }
  }

  /** The loop nest text: loads, label line with the busy body, decrements. */
  method EmitNest(uniqueLabel: string, firstRegister: int, busyCode: string, counts: seq<int>)
    returns (output: string)
    ensures output == RenderLines(NestLines(uniqueLabel, firstRegister, busyCode, counts))
  {
    ghost var loads := LoadLines(counts, firstRegister);
    ghost var middle := [LabelDef(uniqueLabel), Code(Tabbify(busyCode))];
    ghost var decs := DecLines(firstRegister, |counts|, uniqueLabel);
    output := EmitLoads(counts, firstRegister);
    RenderPair(LabelDef(uniqueLabel), Code(Tabbify(busyCode)));
    output := output + (uniqueLabel + ":\n" + Tabbify(busyCode));
    RenderLinesAppend(loads, middle);
    var decrements := EmitDecrements(firstRegister, |counts|, uniqueLabel);
    output := output + decrements;
    RenderLinesAppend(loads + middle, decs);
  }

  /** The filler after the loop nest (miditoavrasm.py:74-82). */
  method EmitFiller(output: string, ghost nest: seq<Line>, rest: int) returns (r: Run)
    requires output == RenderLines(nest) && rest <= 12
    ensures r == Filled(nest, rest)
  {
    if rest >= 3 {
      return Hangs;
    }
    var text := output;
    if rest == 2 {
      text := text + Render(RjmpNext);
    } else if rest == 1 {
      text := text + Render(Nop);
    }
    RenderSingle(RjmpNext);
    RenderSingle(Nop);
    RenderLinesAppend(nest, FillerLines(rest));
    assert text == RenderLines(nest + FillerLines(rest));
    return Returns(Strip(text));
  }

  /** The second delay loop after the nest (miditoavrasm.py:84-86), given
      the outcome of the recursive call. */
  method AppendNested(output: string, ghost nest: seq<Line>, inner: Run) returns (r: Run)
    requires output == RenderLines(nest)
    ensures r == Nested(nest, inner)
  {
    match inner
    case Returns(text) =>
      RenderSingle(NestedLoop(text));
      RenderLinesAppend(nest, [NestedLoop(text)]);
      return Returns(Strip(output + Render(NestedLoop(text))));
    case ReturnsNone =>
      return RaisesTypeError;
    case Hangs =>
      return Hangs;
    case RaisesTypeError =>
      return RaisesTypeError;
  }

  /** `generate_wait` with its loops and its recursive call. */
  method GenerateWait(uniqueLabel: string, cycles: int, firstRegister: int, busyCode: string, busyCycles: nat)
    returns (r: Run)
    ensures r == Wait(uniqueLabel, cycles, firstRegister, busyCode, busyCycles)
    decreases cycles, busyCycles
  {
    if cycles == 0 {
      return Returns("");
    } else if cycles <= 12 {
      if cycles >= 3 {
        return Hangs;
      }
      return ReturnsNone;
    }
    var caps := LoopCapacities(cycles, busyCycles);
    ChainBasics(3 + busyCycles, cycles);
    ghost var p := Plan(cycles, busyCycles);
    var rest := cycles - (|caps| - 1) * 3;
    var counts;
    counts, rest := SplitCycles(rest, caps);
    assert counts == p.counts && rest == p.remainder;
    var output := EmitNest(uniqueLabel, firstRegister, busyCode, counts);
    if rest <= 12 {
      r := EmitFiller(output, NestLines(uniqueLabel, firstRegister, busyCode, counts), rest);
    } else {
      var nested := GenerateWait(uniqueLabel + NestSuffix, rest, firstRegister, "", 0);
      r := AppendNested(output, NestLines(uniqueLabel, firstRegister, busyCode, counts), nested);
    }
  }
}
