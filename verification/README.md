# miditoavrasm in Dafny

miditoavrasm turns a MIDI melody into AVR assembly that toggles a buzzer pin.
This project models the code generator at its core, from `miditoavrasm.py`:

- `generate_wait` synthesises a busy-wait of a given number of clock cycles.
  It picks a chain of nested 8-bit countdown loops, splits the cycle count
  over them greedily, and emits `ldi`/`dec`/`brne` code. A short filler or a
  second, nested delay loop covers what is left over.
- `tabbify` indents text by four spaces per line.
- `generate_note_waits` emits one `<note>Wait` half-period subroutine per
  entry of the frequency table.
- `generate_note` emits the silent gap before a note and a loop whose body
  plays one period of the tone.
- `generate_melody` walks the timeline of on/off events. It groups the
  events that start together and matches every group member with the first
  event, from the leader's position on, that switches its note off.

The modules follow that structure:

- `Text` holds `tabbify` and the Python string operations it uses.
- `DelayLoop` holds `generate_wait`: a specification function `Wait` and the
  method `GenerateWait` with the source's loops.
- `DelayLoopFacts` proves what the synthesiser computes.
- `Waveform` holds notes and subroutines.
- `Melody` holds the timeline.

Python outcomes other than a returned string are made explicit by the
datatype `Run`:

- a bare `return` gives `None`;
- a `while cycles >= 3` loop whose body never changes `cycles` never returns;
- concatenating `None` to a string raises `TypeError`.

Each function that stands for one of the source's loops has a method partner
that runs that loop and is proved equal to it. Lemmas then state what the specification promises:
outcomes, bounds, round trips, ordering and label uniqueness.

## Model

| member | source | states |
|---|---|---|
| Text.StripEnd | miditoavrasm.py:88 | the result is a prefix of the input, everything cut off is whitespace, and the result does not end in whitespace |
| Text.StripStart | miditoavrasm.py:88 | the result is a suffix of the input, everything cut off is whitespace, and the result does not start with whitespace |
| Text.Strip | miditoavrasm.py:88 | `str.strip()`: the result is the slice of the input between two cut points with only whitespace outside them, and it neither starts nor ends with whitespace |
| Text.SplitOn | miditoavrasm.py:17 | `str.split(sep)` yields at least one piece, and no piece contains the separator |
| Text.JoinSplitReplaces | miditoavrasm.py:17 | splitting on a character and joining with a string replaces every occurrence of that character by the string |
| Text.SplitJoinRoundTrip | miditoavrasm.py:17 | splitting on a character and joining with that character gives the text back |
| Text.Tabbify | miditoavrasm.py:15-18 | the result is empty exactly when the text is empty, and otherwise starts with four spaces |
| Text.TabbifyRoundTrip | miditoavrasm.py:15-18 | removing the indentation `tabbify` added recovers the original text, so indentation loses nothing |
| Text.TabbifyIndentsEveryLine | miditoavrasm.py:15-18 | every newline in a tabbified text is followed by the four-space indentation |
| Text.IntToString | miditoavrasm.py:67 | a formatted integer is non-empty and holds no newline or space |
| Text.NatToStringRoundTrip | miditoavrasm.py:67 | reading back the decimal digits of a natural number gives the number |
| DelayLoop.ChainBasics | miditoavrasm.py:37-45 | the capacity chain starts at the base cost, level k is at least 3k above the base, and its last level can absorb the request |
| DelayLoop.LoopCapacities | miditoavrasm.py:37-45 | the source's `while` loop builds exactly the capacity chain `Capacities` |
| DelayLoop.Running | miditoavrasm.py:54-64 | after a level has taken its share, what is left lies below that level's capacity and never exceeds the input |
| DelayLoop.SplitCycles | miditoavrasm.py:53-64 | the source's split loop produces the counts `Counts` and leaves the remainder `Running` of all levels |
| DelayLoop.Plan | miditoavrasm.py:51-64 | one quotient and one count per level, and a remainder below the innermost capacity `3 + busyCycles` |
| DelayLoop.EmitLoads | miditoavrasm.py:66-67 | the `ldi` loop writes one load per level, in order, outermost level in the first register |
| DelayLoop.EmitDecrements | miditoavrasm.py:71-72 | the decrement loop writes one `dec`/`brne` pair per level, highest register first |
| DelayLoop.EmitNest | miditoavrasm.py:66-72 | the loop nest text is the loads, the label line with the indented busy body, and the decrements |
| DelayLoop.EmitFiller | miditoavrasm.py:74-82 | after the loop nest, a leftover of 3 to 12 cycles never returns; otherwise a leftover of 2 or 1 adds `rjmp PC+1` or `nop` after the nest, 0 adds nothing, and the text is stripped, as `Filled` states |
| DelayLoop.AppendNested | miditoavrasm.py:84-86 | a second delay loop's text follows the nest after the comment, a `None` from it raises and a hang stays a hang, as `Nested` states |
| DelayLoop.GenerateWait | miditoavrasm.py:21-88 | the method with the source's loops and recursion has exactly the outcome of `Wait` for every input |
| DelayLoopFacts.CapacityChain | miditoavrasm.py:37-45 | the chain starts at `3 + busyCycles`, each level is `256 * previous + 2`, levels strictly increase, every level but the last was too small, and the last one suffices |
| DelayLoopFacts.PlanSplitsCycles | miditoavrasm.py:51-64 | after 3 cycles per outer level are set aside, quotients times capacities plus the remainder equal the request, and the remainder is below the innermost capacity |
| DelayLoopFacts.QuotientRange | miditoavrasm.py:54-64 | every level's quotient lies between 0 and 256 |
| DelayLoopFacts.CountEncoding | miditoavrasm.py:57-62 | an outer count is `q + 1` with 256 written as 0; it fits a byte exactly when `q <= 255`, and a quotient of 256 loads 257; the innermost count is the quotient itself, between 0 and 256 |
| DelayLoopFacts.InnermostCountCanBe256 | miditoavrasm.py:57-62 | a 1541-cycle request loads 256 into the innermost register |
| DelayLoopFacts.OuterCountCanBe257 | miditoavrasm.py:57-62 | a 394248-cycle request loads 257 into an outer register |
| DelayLoopFacts.OuterCountSentinel | miditoavrasm.py:57-60 | a 196356-cycle request loads the sentinel 0 into the outer register |
| DelayLoopFacts.BusyFreeWaitNeverNests | miditoavrasm.py:74-86 | without a busy body the leftover is below 3, so the wait is the nest plus filler and returns text |
| DelayLoopFacts.WaitOutcome | miditoavrasm.py:24-86 | 0 cycles return ""; a negative count, 1 or 2 return `None`; 3 to 12 never return, as does a larger request whose leftover is 3 to 12; nothing raises |
| DelayLoopFacts.NestingDepthAtMostOne | miditoavrasm.py:84-86 | a leftover above 12 creates one nested loop with the `_Nest` label and no body, and that loop ends in plain filler |
| DelayLoopFacts.DecLinesCounts | miditoavrasm.py:71-72 | the decrement code holds exactly one `dec` and one `brne` per level, and no load or label |
| DelayLoopFacts.NestCodeCounts | miditoavrasm.py:66-72 | the emitted loop code holds one `ldi`, one `dec` and one `brne` per level and exactly one label definition |
| DelayLoopFacts.NestCodeLayout | miditoavrasm.py:66-72 | the loads come first in register order, then the label, then `dec` from the highest register down, each followed by `brne` to that label; no branch targets another label |
| Waveform.NoteBody | miditoavrasm.py:135-138 | the note's busy body is indented and ends in a newline |
| Waveform.Failure | miditoavrasm.py:133 | concatenating a failed wait never returns text: a wait that never returns stays that way, and `None` raises |
| Waveform.GenerateNote | miditoavrasm.py:127-143 | the method has exactly the outcome of `NoteRun`: the gap's wait, then the note's loop with a `periodCycles + 2` body |
| Waveform.NoteOutcome | miditoavrasm.py:127-143 | a note raises exactly when its gap is negative, 1 or 2 cycles, or its gap returns and its duration is; it hangs exactly when one of its waits does; otherwise its text is both waits, each after a newline |
| Waveform.GapHangsOnlyWhenShort | miditoavrasm.py:133 | the silent gap never returns exactly when it is 3 to 12 cycles long |
| Waveform.SubroutineLabelMark | miditoavrasm.py:107-108 | the two labels of a subroutine end in `Wait` and `Loop`, so their fourth character from the end is `W` or `L` |
| Waveform.NoteLabelsNotSubroutineLabels | miditoavrasm.py:107-108 | no label a note's code may define is the `<name>Wait` or `<name>WaitLoop` label of any subroutine, whatever the names |
| Waveform.SubroutineLabelsDistinct | miditoavrasm.py:107-108 | the two labels of one subroutine differ, and subroutines of differently named entries share no label |
| Waveform.NoteLabelsDistinct | miditoavrasm.py:130-140 | the four labels one note's code may define are pairwise distinct |
| Waveform.DistinctTokensDistinctLabels | miditoavrasm.py:130-140 | two notes with different 40-letter tokens define disjoint label sets, whatever their names |
| Waveform.GenerateNoteWaits | miditoavrasm.py:102-111 | the method has exactly the outcome of `NoteWaits` |
| Waveform.ConcatFailurePersists | miditoavrasm.py:104-109 | once a prefix of the appended parts fails, the whole run fails the same way |
| Waveform.ConcatOutcome | miditoavrasm.py:104-109 | the appended run returns exactly when every part returns, and otherwise has the outcome of the first part that does not |
| Waveform.ConcatAppend | miditoavrasm.py:104-109 | the run of `a + b` is the run of `a` followed by the run of `b` |
| Waveform.ConcatReturns | miditoavrasm.py:104-109 | appending parts that all return gives their texts joined in order |
| Waveform.HalfPeriodDelayOutcome | miditoavrasm.py:108 | one entry's delay never raises, since `tabbify(None)` is ""; it never returns exactly when the half period is 3 to 12 cycles |
| Waveform.NoteWaitsOutcome | miditoavrasm.py:102-111 | the subroutine table never raises, and never returns exactly when some half period is 3 to 12 cycles |
| Waveform.NoteWaitsAppend | miditoavrasm.py:102-111 | the subroutines of the table `a + b` are those of `a` followed by those of `b` |
| Waveform.NoteWaitsText | miditoavrasm.py:102-111 | when no half period is 3 to 12 cycles, the table's text is, entry by entry in table order, a `<name>Wait` label, the indented delay of half the period and `ret` |
| Melody.ZeroPrefixSpec | miditoavrasm.py:153-157 | the zero run is a prefix, all its deltas are 0, and it stops only at the end or at a non-zero delta |
| Melody.GroupShape | miditoavrasm.py:150-157 | a group is its leader, then the events from the leader's own position up to the first non-zero delta; the leader appears twice exactly when its delta is 0 |
| Melody.CollectGroup | miditoavrasm.py:151-157 | the source's scan builds exactly `Group` |
| Melody.FirstOff | miditoavrasm.py:161-162 | a found index lies at or after the start and switches the note off |
| Melody.FirstOffSpec | miditoavrasm.py:161-168 | the search finds the first "off" event of the note from the start on, and finds nothing exactly when there is none |
| Melody.FindOff | miditoavrasm.py:161-168 | the source's inner search loop returns `FirstOff` |
| Melody.NotesFor | miditoavrasm.py:160-168 | a group emits at most one note per member |
| Melody.NotesForSound | miditoavrasm.py:160-168 | every emitted note takes its gap from a member with the same name, and its note and duration from an event at or after the leader's position that switches it off |
| Melody.NotesForAllMatched | miditoavrasm.py:160-168 | when every member's note is switched off at or after the leader's position, each member emits exactly one note, in member order, from its first "off" event |
| Melody.NotesForUnmatched | miditoavrasm.py:160-168 | members whose note is never switched off emit nothing |
| Melody.NotesAtSound | miditoavrasm.py:150-168 | every note one event emits comes from the group of an "on" event, takes its note and duration from an "off" event of that note at or after it, and its gap is the "on" delta or 0 |
| Melody.ScheduleSound | miditoavrasm.py:146-170 | every emitted note comes from the group of an "on" event at some index i, takes its note and duration from an "off" event of that note at or after i, and its gap is the "on" delta or 0 |
| Melody.ScheduleComplete | miditoavrasm.py:146-170 | an "on" event whose members are all switched off at or after its position emits one note per member, in order, right after everything emitted before it |
| Melody.SimultaneousOnsetsExample | miditoavrasm.py:150-168 | two notes switched on together and off together give five notes: C, C, E, E, E |
| Melody.OffInGroupExample | miditoavrasm.py:150-168 | an "off" event with delta 0 joins the preceding "on" event's group and is matched with itself, giving a note of length 0 |
| Melody.EmitGroup | miditoavrasm.py:159-168 | the group's notes extend the output by exactly the next scheduled notes, or the melody ends with the first failing note |
| Melody.GenerateMelody | miditoavrasm.py:146-170 | the method has exactly the outcome of `MelodyRun`: every scheduled note's text in order, or the first failure |
| Melody.MelodyOutcome | miditoavrasm.py:146-170 | the melody returns text exactly when every scheduled note does; otherwise it has the outcome of the first note that does not, and never `None` |
| Melody.MelodyLabelsDistinct | miditoavrasm.py:130-140 | with pairwise different tokens, no two emitted notes define the same label |

## Left out

- Command-line parsing, the help text and file reading and writing (miditoavrasm.py:173-224) are left out: they are I/O.
- `parse_notes` (miditoavrasm.py:91-99) is left out: it reads `notes.csv`. The model takes the table as a sequence of `NoteDef`.
- `parse_midi` (miditoavrasm.py:114-124) is left out: it calls the `mido` library. The model takes the timeline as a sequence of `TimelineEvent`.
- `time_to_cycles` (miditoavrasm.py:10-12) is left out because it is floating-point rounding. It is the same for the half-period division `note[1] / 2` (line 106). Every time enters the model as an integer cycle count.
- The zero-delta test of line 154 (`Melody.Group`) is made on the cycle count, while the source compares the time in seconds. The two agree except for a non-zero time that rounds to 0 cycles.
- The random 40-letter token of line 131 is a parameter `tokens`, and the `k`-th emitted note receives `tokens(k)`. Label disjointness (Melody.MelodyLabelsDistinct) is proved for distinct tokens only, since random draws can collide.
- The model does not prove that the emitted code burns exactly the requested number of cycles. That would need a cycle model of the AVR instructions. The arithmetic the source relies on is proved instead: the split, the bounds and the count encoding.
- `busyCycles` is a natural number. Every caller passes 0 or a period plus 2. A negative value is not modelled: -1 and -2 give an innermost capacity of 2 or 1, -3 divides by zero at line 55, and anything below -3 loops forever at line 40.
- `Hangs` stands for both a loop that never ends and the memory exhaustion it causes: the `lpm` loops (miditoavrasm.py:27-28, 75-76) append to the output on every pass, so the process runs out of memory rather than spinning quietly. The model does not distinguish the two.
- `Text.IsSpace` lists the characters Python's `str.isspace` accepts. The `str.strip` model relies on that list and does no Unicode table lookup.
- Simultaneous onsets are not de-duplicated: the code lists a leader with delta 0 twice and emits five notes for two notes started together (Melody.SimultaneousOnsetsExample). The model follows the code.
