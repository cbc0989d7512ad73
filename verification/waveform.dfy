/** The square-wave code of one note (`generate_note`,
    miditoavrasm.py:127-143) and the half-period subroutines every note calls
    (`generate_note_waits`, miditoavrasm.py:102-111).

    Times enter the model already converted to clock cycles: the conversion
    `time_to_cycles` (floating-point rounding) is not part of this model, so a
    note carries its period and its half period as cycle counts. */
module Waveform {
  import opened Text
  import opened DelayLoop
  import opened DelayLoopFacts

  /** One entry of the frequency table: the note's name, and its period and
      half period as cycle counts. */
  datatype NoteDef = NoteDef(name: string, periodCycles: nat, halfPeriodCycles: nat)

  /** Registers the two kinds of delay loop start counting in. */
  const NoteRegister: int := 21
  const HalfPeriodRegister: int := 18

  /** The source draws the label token as 40 lowercase letters. */
  const TokenLength: nat := 40

  predicate IsToken(token: string)
  {
    |token| == TokenLength && forall k :: 0 <= k < |token| ==> 'a' <= token[k] <= 'z'
  }

  /** The loop labels a note's two delay loops are given. */
  function PreWaitLabel(name: string, token: string): string
  {
    name + "_PreWait_" + token
  }

  function NoteLabel(name: string, token: string): string
  {
    name + "_" + token
  }

  /** The busy body of a note's loop: drive the pin high, wait half a period,
      drive it low, wait half a period — one full period of the tone. */
  function NoteBody(name: string): (r: string)
    ensures |r| > 4 && r[..4] == Indentation && r[|r| - 1] == '\n'
  {
    Tabbify("out PORTB, r16\ncall " + name + "Wait\nout PORTB, r17\ncall " + name + "Wait") + "\n"
  }

  /** The outcome of a failed wait once its caller goes on: a `None` meets a
      string concatenation and raises; a wait that never returns stays so. */
  function Failure(r: Run): (f: Run)
    requires !r.Returns?
    ensures f.Hangs? <==> r.Hangs?
    ensures !f.Returns? && !f.ReturnsNone?
  {
    if r.Hangs? then Hangs else RaisesTypeError
  }

  /** What `generate_note(name, period, before, duration)` does with its
      times given in cycles: a silent delay of `before` cycles, then a loop of
      `duration` cycles whose body plays one period and costs
      `periodCycles + 2` cycles. */
  function NoteRun(name: string, periodCycles: nat, before: int, duration: int, token: string): Run
  {
    var pre := Wait(PreWaitLabel(name, token), before, NoteRegister, "", 0);
    if !pre.Returns? then Failure(pre)
    else
      var main := Wait(NoteLabel(name, token), duration, NoteRegister, NoteBody(name), periodCycles + 2);
      if !main.Returns? then Failure(main)
      else Returns("\n" + pre.text + "\n" + main.text)
  }

  /** `generate_note`, building its output step by step. */
  method GenerateNote(name: string, periodCycles: nat, before: int, duration: int, token: string) returns (r: Run)
    ensures r == NoteRun(name, periodCycles, before, duration, token)
  {
    var pre := GenerateWait(PreWaitLabel(name, token), before, NoteRegister, "", 0);
    if !pre.Returns? {
      return Failure(pre);
    }
    var output := "\n" + pre.text + "\n";
    var noteCode := NoteBody(name);
    var main := GenerateWait(NoteLabel(name, token), duration, NoteRegister, noteCode, periodCycles + 2);
    if !main.Returns? {
      return Failure(main);
    }
    output := output + main.text;
    return Returns(output);
  }

  /** The outcome of one note in terms of its two cycle counts: it raises
      exactly when the gap is negative, 1 or 2 cycles, or the gap is fine and
      the duration is; it never returns when either wait never returns; and
      otherwise its text is the gap's code and the loop's code, each after a
      newline. */
  lemma NoteOutcome(name: string, periodCycles: nat, before: int, duration: int, token: string)
    ensures var r := NoteRun(name, periodCycles, before, duration, token);
      var pre := Wait(PreWaitLabel(name, token), before, NoteRegister, "", 0);
      var main := Wait(NoteLabel(name, token), duration, NoteRegister, NoteBody(name), periodCycles + 2);
      && (r.RaisesTypeError? <==>
            (before < 0 || before == 1 || before == 2)
            || (pre.Returns? && (duration < 0 || duration == 1 || duration == 2)))
      && (r.Hangs? <==> pre.Hangs? || (pre.Returns? && main.Hangs?))
      && (r.Returns? <==> pre.Returns? && main.Returns?)
      && (r.Returns? ==> r.text == "\n" + pre.text + "\n" + main.text)
  {
    WaitOutcome(PreWaitLabel(name, token), before, NoteRegister, "", 0);
    WaitOutcome(NoteLabel(name, token), duration, NoteRegister, NoteBody(name), periodCycles + 2);
  }

  /** The gap loops forever exactly when it is 3 to 12 cycles long: a longer
      gap's loop has no busy body, so its leftover is always covered by filler. */
  lemma GapHangsOnlyWhenShort(name: string, before: int, token: string)
    ensures Wait(PreWaitLabel(name, token), before, NoteRegister, "", 0).Hangs? <==> 3 <= before <= 12
  {
    WaitOutcome(PreWaitLabel(name, token), before, NoteRegister, "", 0);
    if before > 12 {
      BusyFreeWaitNeverNests(PreWaitLabel(name, token), before, NoteRegister, "");
    }
  }

  // ---------------------------------------------------------------------
  // Labels
  // ---------------------------------------------------------------------

  /** Every label a note's code may define: each of its two waits defines its
      own label and, when it nests, that label with `_Nest` appended. */
  function NoteLabels(name: string, token: string): seq<string>
  {
    [PreWaitLabel(name, token), PreWaitLabel(name, token) + NestSuffix,
     NoteLabel(name, token), NoteLabel(name, token) + NestSuffix]
  }

  /** The labels of one note are pairwise distinct. */
  lemma NoteLabelsDistinct(name: string, token: string)
    ensures var ls := NoteLabels(name, token);
      forall i, j :: 0 <= i < j < |ls| ==> ls[i] != ls[j]
  {
    var ls := NoteLabels(name, token);
    assert |ls[0]| == |name| + |token| + 9;
    assert |ls[1]| == |name| + |token| + 14;
    assert |ls[2]| == |name| + |token| + 1;
    assert |ls[3]| == |name| + |token| + 6;
  }

  /** How each label of a note ends: the plain labels in the note's token,
      the nested ones in `_Nest` after a plain label. */
  lemma LabelEnds(name: string, token: string, i: nat)
    requires i < 4
    ensures var l := NoteLabels(name, token)[i];
      var plain := if i < 2 then PreWaitLabel(name, token) else NoteLabel(name, token);
      && |plain| >= |token| && plain[|plain| - |token|..] == token
      && (i % 2 == 0 ==> l == plain)
      && (i % 2 == 1 ==> l == plain + NestSuffix && l[..|l| - 5] == plain && l[|l| - 5] == '_')
  {
    var plain := if i < 2 then PreWaitLabel(name, token) else NoteLabel(name, token);
    if i < 2 {
      assert plain == (name + "_PreWait_") + token;
    } else {
      assert plain == (name + "_") + token;
    }
  }

  /** Two notes drawn with different tokens define disjoint sets of labels,
      whatever their names: the labels of a note end either in its token or in
      `_Nest`, and a token of lowercase letters never ends in `_Nest`. */
  lemma DistinctTokensDistinctLabels(name1: string, token1: string, name2: string, token2: string)
    requires IsToken(token1) && IsToken(token2) && token1 != token2
    ensures forall i, j :: 0 <= i < 4 && 0 <= j < 4 ==> NoteLabels(name1, token1)[i] != NoteLabels(name2, token2)[j]
  {
    forall i, j | 0 <= i < 4 && 0 <= j < 4
      ensures NoteLabels(name1, token1)[i] != NoteLabels(name2, token2)[j]
    {
      LabelsDiffer(name1, token1, i, name2, token2, j);
    }
  }

  lemma LabelsDiffer(name1: string, token1: string, i: nat, name2: string, token2: string, j: nat)
    requires IsToken(token1) && IsToken(token2) && token1 != token2 && i < 4 && j < 4
    ensures NoteLabels(name1, token1)[i] != NoteLabels(name2, token2)[j]
  {
    LabelEnds(name1, token1, i);
    LabelEnds(name2, token2, j);
    var plain1 := if i < 2 then PreWaitLabel(name1, token1) else NoteLabel(name1, token1);
    var plain2 := if j < 2 then PreWaitLabel(name2, token2) else NoteLabel(name2, token2);
    if i % 2 == j % 2 {
      EndsDiffer(plain1, token1, plain2, token2);
    } else if i % 2 == 0 {
      NestedNotPlain(plain2, plain1, token1);
    } else {
      NestedNotPlain(plain1, plain2, token2);
    }
  }

  /** Texts ending in different tokens differ, also with `_Nest` appended. */
  lemma EndsDiffer(p1: string, token1: string, p2: string, token2: string)
    requires |token1| == |token2| && token1 != token2
    requires |p1| >= |token1| && p1[|p1| - |token1|..] == token1
    requires |p2| >= |token2| && p2[|p2| - |token2|..] == token2
    ensures p1 != p2 && p1 + NestSuffix != p2 + NestSuffix
  {
    assert (p1 + NestSuffix)[..|p1|] == p1;
    assert (p2 + NestSuffix)[..|p2|] == p2;
  }

  /** A text with `_Nest` appended never equals a text ending in a token. */
  lemma NestedNotPlain(p: string, q: string, token: string)
    requires IsToken(token) && |q| >= |token| && q[|q| - |token|..] == token
    ensures p + NestSuffix != q
  {
    var l := p + NestSuffix;
    assert l[|l| - 5] == '_';
    assert q[|q| - 5] == token[35];
  }

  // ---------------------------------------------------------------------
  // Half-period subroutines (miditoavrasm.py:102-111)
  // ---------------------------------------------------------------------

  /** The subroutine of one note: its `<name>Wait` label, the indented delay
      and `ret`. */
  function WaitBlock(name: string, body: string): string
  {
    "\n" + name + "Wait:\n" + Tabbify(body) + "\nret\n"
  }

  /** The delay of one note's subroutine. A `None` from the delay becomes
      empty text, since `tabbify` turns any falsy value into "". */
  function HalfPeriodDelay(note: NoteDef): Run
  {
    match Wait(note.name + "WaitLoop", note.halfPeriodCycles, HalfPeriodRegister, "", 0)
    case Returns(text) => Returns(text)
    case ReturnsNone => Returns("")
    case Hangs => Hangs
    case RaisesTypeError => RaisesTypeError
  }

  /** The labels one entry's subroutine defines: its entry point and the
      label of its delay loop (a delay without busy body never nests, see
      DelayLoopFacts.BusyFreeWaitNeverNests). */
  function SubroutineLabels(n: string): seq<string>
  {
    [n + "Wait", n + "WaitLoop"]
  }

  /** A subroutine label ends in `Wait` or in `Loop`, so its fourth
      character from the end is `W` or `L`. */
  lemma SubroutineLabelMark(n: string, j: nat)
    requires j < 2
    ensures var l := SubroutineLabels(n)[j];
      && |l| >= 4 && l[|l| - 4..] == (if j == 0 then "Wait" else "Loop")
      && l[|l| - 4] == (if j == 0 then 'W' else 'L')
  {
    var l := SubroutineLabels(n)[j];
    if j == 0 {
      assert l[|l| - 4..] == "Wait";
    } else {
      assert l[|l| - 4..] == "Loop";
    }
  }

  /** No label of a note's code is the label of a subroutine, whatever the
      names: the fourth character from the end of a note label is a letter
      of its token or the `N` of `_Nest`, never `W` or `L`. */
  lemma NoteLabelsNotSubroutineLabels(name: string, token: string, n: string)
    requires IsToken(token)
    ensures forall i, j :: 0 <= i < 4 && 0 <= j < 2 ==> NoteLabels(name, token)[i] != SubroutineLabels(n)[j]
  {
    forall i, j | 0 <= i < 4 && 0 <= j < 2
      ensures NoteLabels(name, token)[i] != SubroutineLabels(n)[j]
    {
      NoteLabelMark(name, token, i);
      SubroutineLabelMark(n, j);
    }
  }

  /** The fourth character from the end of a note label: a letter of the
      token for a plain label, the `N` of `_Nest` for a nested one. */
  lemma NoteLabelMark(name: string, token: string, i: nat)
    requires IsToken(token) && i < 4
    ensures var l := NoteLabels(name, token)[i];
      |l| >= 4 && ('a' <= l[|l| - 4] <= 'z' || l[|l| - 4] == 'N')
  {
    LabelEnds(name, token, i);
    var l := NoteLabels(name, token)[i];
    if i % 2 == 0 {
      assert l[|l| - 4] == token[36];
    } else {
      assert l[|l| - 5..] == NestSuffix;
    }
  }

  /** Subroutines of entries with different names define different labels,
      and the two labels of one subroutine differ. */
  lemma SubroutineLabelsDistinct(n1: string, n2: string)
    ensures forall i, j :: 0 <= i < 2 && 0 <= j < 2 && (n1 != n2 || i != j) ==>
      SubroutineLabels(n1)[i] != SubroutineLabels(n2)[j]
  {
    forall i, j | 0 <= i < 2 && 0 <= j < 2 && SubroutineLabels(n1)[i] == SubroutineLabels(n2)[j]
      ensures n1 == n2 && i == j
    {
      var l1, l2 := SubroutineLabels(n1)[i], SubroutineLabels(n2)[j];
      SubroutineLabelMark(n1, i);
      SubroutineLabelMark(n2, j);
      assert l1[|l1| - 4] == l2[|l2| - 4];
      var suffix := if i == 0 then "Wait" else "WaitLoop";
      assert l1 == n1 + suffix && l2 == n2 + suffix;
      assert n1 == l1[..|n1|] == l2[..|n2|] == n2;
    }
  }

  /** The subroutine of one entry, or the outcome of its delay when that
      does not return. */
  function EntryBlock(note: NoteDef): Run
  {
    var delay := HalfPeriodDelay(note);
    if delay.Returns? then Returns(WaitBlock(note.name, delay.text)) else delay
  }

  /** The subroutine of every entry, in table order. */
  function EntryBlocks(notes: seq<NoteDef>): seq<Run>
  {
    seq(|notes|, k requires 0 <= k < |notes| => EntryBlock(notes[k]))
  }

  /** Appending texts one after another: the first part that does not
      return ends the run, which then has that part's outcome. */
  function Concat(parts: seq<Run>): Run
  {
    if |parts| == 0 then Returns("")
    else
      var done := Concat(parts[..|parts| - 1]);
      var part := parts[|parts| - 1];
      if !done.Returns? then done
      else if !part.Returns? then part
      else Returns(done.text + part.text)
  }

  /** What `generate_note_waits(notes)` does: one subroutine per table entry,
      in table order. */
  function NoteWaits(notes: seq<NoteDef>): Run
  {
    Concat(EntryBlocks(notes))
  }

  /** Once a prefix fails to return, the whole run fails the same way. */
  lemma {:induction false} ConcatFailurePersists(parts: seq<Run>, k: nat)
    requires k <= |parts| && !Concat(parts[..k]).Returns?
    ensures Concat(parts) == Concat(parts[..k])
    decreases |parts| - k
  {
    if k < |parts| {
      assert parts[..k + 1][..k] == parts[..k];
      ConcatFailurePersists(parts, k + 1);
    } else {
      assert parts[..k] == parts;
    }
  }

  /** `generate_note_waits`, appending one subroutine per table entry. */
  method GenerateNoteWaits(notes: seq<NoteDef>) returns (r: Run)
    ensures r == NoteWaits(notes)
  {
    var output := "";
    ghost var blocks := EntryBlocks(notes);
    for i := 0 to |notes|
      invariant Concat(blocks[..i]) == Returns(output)
    {
      assert blocks[..i + 1][..i] == blocks[..i];
      var note := notes[i];
      var delay := GenerateWait(note.name + "WaitLoop", note.halfPeriodCycles, HalfPeriodRegister, "", 0);
      if delay.Hangs? || delay.RaisesTypeError? {
        r := delay;
        ConcatFailurePersists(blocks, i + 1);
        return;
      }
      var body := if delay.Returns? then delay.text else "";
      output := output + ("\n" + note.name + "Wait:\n" + Tabbify(body) + "\nret\n");
    }
    assert blocks[..|notes|] == blocks;
    r := Returns(output);
  }

  /** The run returns exactly when every part returns; otherwise it has the
      outcome of the first part that does not. */
  lemma {:induction false} ConcatOutcome(parts: seq<Run>)
    ensures Concat(parts).Returns? <==> forall k :: 0 <= k < |parts| ==> parts[k].Returns?
    ensures !Concat(parts).Returns? ==>
      exists k :: 0 <= k < |parts| && Concat(parts) == parts[k]
                  && forall j :: 0 <= j < k ==> parts[j].Returns?
  {
    if |parts| > 0 {
      var init := parts[..|parts| - 1];
      ConcatOutcome(init);
      assert forall k :: 0 <= k < |init| ==> init[k] == parts[k];
      if !Concat(init).Returns? {
        var k :| 0 <= k < |init| && Concat(init) == init[k]
                 && forall j :: 0 <= j < k ==> init[j].Returns?;
        assert Concat(parts) == parts[k];
      }
    }
  }

  /** Concatenation is compositional: the run of `a + b` is the run of `a`
      followed by the run of `b`. */
  lemma {:induction false} ConcatAppend(a: seq<Run>, b: seq<Run>)
    requires Concat(a).Returns? && Concat(b).Returns?
    ensures Concat(a + b) == Returns(Concat(a).text + Concat(b).text)
    decreases |b|
  {
    if |b| == 0 {
      assert a + b == a;
    } else {
      var init := b[..|b| - 1];
      assert (a + b)[..|a + b| - 1] == a + init;
      assert (a + b)[|a + b| - 1] == b[|b| - 1];
      ConcatAppend(a, init);
      var textA, textI, last := Concat(a).text, Concat(init).text, b[|b| - 1].text;
      assert (textA + textI) + last == textA + (textI + last);
    }
  }

  /** Some entry of the table has a half period of 3 to 12 cycles. */
  predicate SomeShortHalfPeriod(notes: seq<NoteDef>)
  {
    exists k :: 0 <= k < |notes| && 3 <= notes[k].halfPeriodCycles <= 12
  }

  /** One entry's delay never raises, and never returns only when its half
      period is 3 to 12 cycles; a `None` becomes an empty body. */
  lemma HalfPeriodDelayOutcome(note: NoteDef)
    ensures HalfPeriodDelay(note).Hangs? <==> 3 <= note.halfPeriodCycles <= 12
    ensures HalfPeriodDelay(note).Returns? <==> !(3 <= note.halfPeriodCycles <= 12)
  {
    WaitOutcome(note.name + "WaitLoop", note.halfPeriodCycles, HalfPeriodRegister, "", 0);
    if note.halfPeriodCycles > 12 {
      BusyFreeWaitNeverNests(note.name + "WaitLoop", note.halfPeriodCycles, HalfPeriodRegister, "");
    }
  }

  /** The subroutine table never raises, and never returns exactly when some
      half period is between 3 and 12 cycles. */
  lemma NoteWaitsOutcome(notes: seq<NoteDef>)
    ensures NoteWaits(notes).Hangs? <==> SomeShortHalfPeriod(notes)
    ensures NoteWaits(notes).Returns? <==> !SomeShortHalfPeriod(notes)
  {
    var bs := EntryBlocks(notes);
    ConcatOutcome(bs);
    forall k | 0 <= k < |notes|
      ensures bs[k].Hangs? <==> 3 <= notes[k].halfPeriodCycles <= 12
      ensures bs[k].Returns? <==> !(3 <= notes[k].halfPeriodCycles <= 12)
    {
      HalfPeriodDelayOutcome(notes[k]);
    }
  }

  lemma EntryBlocksAppend(a: seq<NoteDef>, b: seq<NoteDef>)
    ensures EntryBlocks(a + b) == EntryBlocks(a) + EntryBlocks(b)
  {
    var ab, ba := EntryBlocks(a + b), EntryBlocks(a) + EntryBlocks(b);
    forall k | 0 <= k < |a + b|
      ensures ab[k] == ba[k]
    {
      if k < |a| {
        assert (a + b)[k] == a[k];
      } else {
        assert (a + b)[k] == b[k - |a|];
      }
    }
  }

  /** The subroutines of the table `a + b` are those of `a` followed by those
      of `b`. */
  lemma NoteWaitsAppend(a: seq<NoteDef>, b: seq<NoteDef>)
    requires NoteWaits(a).Returns? && NoteWaits(b).Returns?
    ensures NoteWaits(a + b) == Returns(NoteWaits(a).text + NoteWaits(b).text)
  {
    EntryBlocksAppend(a, b);
    ConcatAppend(EntryBlocks(a), EntryBlocks(b));
  }

  /** The subroutine of an entry whose half period is not 3 to 12 cycles,
      so that its delay returns. */
  function Subroutine(note: NoteDef): string
    requires !(3 <= note.halfPeriodCycles <= 12)
  {
    HalfPeriodDelayOutcome(note);
    WaitBlock(note.name, HalfPeriodDelay(note).text)
  }

  /** The subroutine of every entry, in table order. */
  function SubroutineTexts(notes: seq<NoteDef>): seq<string>
    requires !SomeShortHalfPeriod(notes)
  {
    seq(|notes|, k requires 0 <= k < |notes| && !(3 <= notes[k].halfPeriodCycles <= 12) => Subroutine(notes[k]))
  }

  /** Parts that all return concatenate to their texts, flattened. */
  lemma {:induction false} ConcatReturns(parts: seq<Run>, texts: seq<string>)
    requires |parts| == |texts|
    requires forall k :: 0 <= k < |parts| ==> parts[k] == Returns(texts[k])
    ensures Concat(parts) == Returns(Flatten(texts))
  {
    if |parts| > 0 {
      var n := |parts|;
      ConcatReturns(parts[..n - 1], texts[..n - 1]);
    }
  }

  /** When no half period is 3 to 12 cycles, the table's text is one
      subroutine per entry, in table order, each labelled with the entry's
      name and holding the indented delay of half its period. */
  lemma NoteWaitsText(notes: seq<NoteDef>)
    requires !SomeShortHalfPeriod(notes)
    ensures NoteWaits(notes) == Returns(Flatten(SubroutineTexts(notes)))
  {
    var bs, ts := EntryBlocks(notes), SubroutineTexts(notes);
    forall k | 0 <= k < |notes|
      ensures bs[k] == Returns(ts[k])
    {
      HalfPeriodDelayOutcome(notes[k]);
    }
    ConcatReturns(bs, ts);
  }
}
