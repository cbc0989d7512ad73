/** The melody compiler `generate_melody` (miditoavrasm.py:146-170).

    It walks the timeline; every event that is not an "off" event leads a
    group made of itself followed by the run of zero-delta events that starts
    at its own position — so a leader whose delta is 0 appears twice, and
    zero-delta "off" events join the group too. For each member it looks,
    from the leader's position on, for the first "off" event of the same note
    name and emits one note: the off event's note, the member's delta as the
    gap, the off event's delta as the duration.

    Deltas are cycle counts here (see `Waveform`), so the zero test is made on
    cycles. Each emitted note draws a fresh random label token; the model
    takes the tokens as the parameter `tokens`, the `k`-th note receiving
    `tokens(k)`. */
module Melody {
  import opened DelayLoop
  import opened Waveform

  datatype Option<T> = None | Some(value: T)

  /** A timeline event: a note, the time since the previous event, and
      whether it switches the note off. */
  datatype TimelineEvent = TimelineEvent(note: NoteDef, delta: nat, isOff: bool)

  /** One note to sound: its gap before, and how long it lasts. */
  datatype NoteInstance = NoteInstance(note: NoteDef, before: nat, duration: nat)

  // ---------------------------------------------------------------------
  // Grouping (miditoavrasm.py:150-157)
  // ---------------------------------------------------------------------

  /** The longest prefix of `s` whose events all have delta 0. */
  function ZeroPrefix(s: seq<TimelineEvent>): seq<TimelineEvent>
  {
    if |s| == 0 || s[0].delta != 0 then [] else [s[0]] + ZeroPrefix(s[1..])
  }

  /** The zero prefix is a prefix of `s`, all its deltas are 0, and it stops
      only at the end of `s` or at a non-zero delta. */
  lemma {:induction false} ZeroPrefixSpec(s: seq<TimelineEvent>)
    ensures var r := ZeroPrefix(s);
      && |r| <= |s| && r == s[..|r|]
      && (forall k :: 0 <= k < |r| ==> r[k].delta == 0)
      && (|r| < |s| ==> s[|r|].delta != 0)
  {
    if |s| > 0 && s[0].delta == 0 {
      ZeroPrefixSpec(s[1..]);
      var r := ZeroPrefix(s[1..]);
      assert ZeroPrefix(s) == [s[0]] + r;
      assert s == [s[0]] + s[1..];
    }
  }

  /** `related_notes` for the event at `i`: the event, then every event from
      position `i` on up to the first non-zero delta. */
  function Group(events: seq<TimelineEvent>, i: nat): seq<TimelineEvent>
    requires i < |events|
  {
    [events[i]] + ZeroPrefix(events[i..])
  }

  /** The group starts with its leader; the rest is exactly the events from
      the leader's own position up to the first non-zero delta; so the leader
      is listed twice exactly when its delta is 0, and every member but the
      first has delta 0. */
  lemma GroupShape(events: seq<TimelineEvent>, i: nat)
    requires i < |events|
    ensures var g := Group(events, i);
      && g[0] == events[i]
      && |g| - 1 <= |events| - i
      && (forall k :: 1 <= k < |g| ==> g[k] == events[i + k - 1] && g[k].delta == 0)
      && (i + |g| - 1 < |events| ==> events[i + |g| - 1].delta != 0)
      && (events[i].delta == 0 <==> |g| >= 2 && g[1] == events[i])
  {
    var z := ZeroPrefix(events[i..]);
    ZeroPrefixSpec(events[i..]);
    assert Group(events, i) == [events[i]] + z;
    forall k | 1 <= k < |Group(events, i)|
      ensures Group(events, i)[k] == events[i + k - 1]
    {
      assert z[k - 1] == events[i..][k - 1];
    }
    if i + |z| < |events| {
      assert events[i..][|z|] == events[i + |z|];
    }
  }

  /** Runs the source's scan for the zero-delta run after the leader. */
  method CollectGroup(events: seq<TimelineEvent>, i: nat) returns (related: seq<TimelineEvent>)
    requires i < |events|
    ensures related == Group(events, i)
  {
    related := [events[i]];
    var j := i;
    while j < |events|
      invariant i <= j <= |events|
      invariant related == [events[i]] + events[i..j]
      invariant forall k :: i <= k < j ==> events[k].delta == 0
    {
      if events[j].delta != 0 {
        break;
      }
      related := related + [events[j]];
      j := j + 1;
    }
    ZeroPrefixIs(events[i..], j - i);
    assert events[i..][..j - i] == events[i..j];
  }

  /** A prefix of zero deltas that stops at a non-zero delta (or at the end)
      is the zero prefix. */
  lemma ZeroPrefixIs(s: seq<TimelineEvent>, n: nat)
    requires n <= |s|
    requires forall k :: 0 <= k < n ==> s[k].delta == 0
    requires n == |s| || s[n].delta != 0
    ensures ZeroPrefix(s) == s[..n]
  {
    ZeroPrefixSpec(s);
  }

  // ---------------------------------------------------------------------
  // Matching each member with its "off" event (miditoavrasm.py:159-168)
  // ---------------------------------------------------------------------

  /** The event switches off the note called `name`. */
  predicate Closes(e: TimelineEvent, name: string)
  {
    e.isOff && e.note.name == name
  }

  /** The first event from position `from` on that switches off `name`. */
  function FirstOff(events: seq<TimelineEvent>, from: nat, name: string): (r: Option<nat>)
    decreases |events| - from
    ensures r.Some? ==> from <= r.value < |events| && Closes(events[r.value], name)
  {
    if from >= |events| then None
    else if Closes(events[from], name) then Some(from)
    else FirstOff(events, from + 1, name)
  }

  /** `FirstOff` finds the first event from `from` on that switches `name`
      off, and finds nothing exactly when there is none. */
  lemma {:induction false} FirstOffSpec(events: seq<TimelineEvent>, from: nat, name: string)
    decreases |events| - from
    ensures var r := FirstOff(events, from, name);
      && (r.Some? ==> from <= r.value < |events| && Closes(events[r.value], name)
                      && forall m :: from <= m < r.value ==> !Closes(events[m], name))
      && (r.None? <==> forall m :: from <= m < |events| ==> !Closes(events[m], name))
  {
    if from < |events| && !Closes(events[from], name) {
      FirstOffSpec(events, from + 1, name);
    }
  }

  /** Runs the source's inner search loop. */
  method FindOff(events: seq<TimelineEvent>, from: nat, name: string) returns (off: Option<nat>)
    requires from <= |events|
    ensures off == FirstOff(events, from, name)
  {
    var m := from;
    while m < |events|
      invariant from <= m <= |events|
      invariant FirstOff(events, m, name) == FirstOff(events, from, name)
    {
      if events[m].note.name == name && events[m].isOff {
        return Some(m);
      }
      m := m + 1;
    }
    return None;
  }

  /** The notes a group emits: one per member whose note is switched off at
      or after position `i`, in member order. The note, its period and the
      duration come from the "off" event; the gap is the member's delta. */
  function NotesFor(events: seq<TimelineEvent>, i: nat, members: seq<TimelineEvent>): (ns: seq<NoteInstance>)
    ensures |ns| <= |members|
  {
    if |members| == 0 then []
    else
      var done := NotesFor(events, i, members[..|members| - 1]);
      var m := members[|members| - 1];
      match FirstOff(events, i, m.note.name)
      case None => done
      case Some(j) => done + [NoteInstance(events[j].note, m.delta, events[j].delta)]
  }

  /** Every note a group emits takes its gap from a member, and its note and
      duration from an event at or after `i` that switches that note off. */
  lemma {:induction false} NotesForSound(events: seq<TimelineEvent>, i: nat, members: seq<TimelineEvent>)
    ensures forall x :: x in NotesFor(events, i, members) ==>
      && (exists g :: 0 <= g < |members| && x.before == members[g].delta && x.note.name == members[g].note.name)
      && (exists j :: i <= j < |events| && events[j].isOff && x.note == events[j].note && x.duration == events[j].delta)
  {
    if |members| > 0 {
      var init := members[..|members| - 1];
      NotesForSound(events, i, init);
      forall x | x in NotesFor(events, i, members)
        ensures exists g :: 0 <= g < |members| && x.before == members[g].delta && x.note.name == members[g].note.name
      {
        if x in NotesFor(events, i, init) {
          var g :| 0 <= g < |init| && x.before == init[g].delta && x.note.name == init[g].note.name;
          assert members[g] == init[g];
        } else {
          assert x.before == members[|members| - 1].delta;
        }
      }
    }
  }

  /** When every member's note is switched off at or after `i`, each member
      emits exactly one note, in member order, matched with the first such event. */
  lemma {:induction false} NotesForAllMatched(events: seq<TimelineEvent>, i: nat, members: seq<TimelineEvent>)
    requires forall g :: 0 <= g < |members| ==> FirstOff(events, i, members[g].note.name).Some?
    ensures |NotesFor(events, i, members)| == |members|
    ensures forall g :: 0 <= g < |members| ==>
      var j := FirstOff(events, i, members[g].note.name).value;
      NotesFor(events, i, members)[g] == NoteInstance(events[j].note, members[g].delta, events[j].delta)
  {
    if |members| > 0 {
      var init := members[..|members| - 1];
      assert forall g :: 0 <= g < |init| ==> init[g] == members[g];
      NotesForAllMatched(events, i, init);
    }
  }

  /** A member whose note is never switched off emits nothing. */
  lemma {:induction false} NotesForUnmatched(events: seq<TimelineEvent>, i: nat, members: seq<TimelineEvent>)
    requires forall g :: 0 <= g < |members| ==> FirstOff(events, i, members[g].note.name).None?
    ensures NotesFor(events, i, members) == []
  {
    if |members| > 0 {
      var init := members[..|members| - 1];
      assert forall g :: 0 <= g < |init| ==> init[g] == members[g];
      NotesForUnmatched(events, i, init);
    }
  }

  lemma {:induction false} NotesForPrefix(events: seq<TimelineEvent>, i: nat, members: seq<TimelineEvent>, g: nat)
    requires g <= |members|
    ensures var p := NotesFor(events, i, members[..g]);
      |p| <= |NotesFor(events, i, members)| && p == NotesFor(events, i, members)[..|p|]
    decreases |members| - g
  {
    if g < |members| {
      assert members[..g + 1][..g] == members[..g];
      NotesForPrefix(events, i, members, g + 1);
    } else {
      assert members[..g] == members;
    }
  }

  // ---------------------------------------------------------------------
  // The whole schedule
  // ---------------------------------------------------------------------

  /** The notes emitted while visiting the event at `i`: none for an "off"
      event. */
  function NotesAt(events: seq<TimelineEvent>, i: nat): seq<NoteInstance>
    requires i < |events|
  {
    if events[i].isOff then [] else NotesFor(events, i, Group(events, i))
  }

  /** The notes emitted while visiting the first `n` events. */
  function ScheduleUpTo(events: seq<TimelineEvent>, n: nat): seq<NoteInstance>
    requires n <= |events|
  {
    if n == 0 then [] else ScheduleUpTo(events, n - 1) + NotesAt(events, n - 1)
  }

  /** Every note the melody emits, in emission order. */
  function Schedule(events: seq<TimelineEvent>): seq<NoteInstance>
  {
    ScheduleUpTo(events, |events|)
  }

  lemma {:induction false} ScheduleUpToPrefix(events: seq<TimelineEvent>, n: nat)
    requires n <= |events|
    ensures var p := ScheduleUpTo(events, n);
      |p| <= |Schedule(events)| && p == Schedule(events)[..|p|]
    decreases |events| - n
  {
    var p := ScheduleUpTo(events, n);
    if n < |events| {
      ScheduleUpToPrefix(events, n + 1);
      assert ScheduleUpTo(events, n + 1) == p + NotesAt(events, n);
      PrefixOfPrefix(Schedule(events), p, [], NotesAt(events, n));
      assert p + [] == p;
    } else {
      assert Schedule(events)[..|p|] == p;
    }
  }

  /** What has been emitted part-way through the group of the event at `i`
      is a prefix of the whole schedule. */
  lemma SchedulePartPrefix(events: seq<TimelineEvent>, i: nat, g: nat)
    requires i < |events| && !events[i].isOff && g <= |Group(events, i)|
    ensures var p := ScheduleUpTo(events, i) + NotesFor(events, i, Group(events, i)[..g]);
      |p| <= |Schedule(events)| && p == Schedule(events)[..|p|]
  {
    var grp := Group(events, i);
    ScheduleUpToPrefix(events, i + 1);
    NotesForPrefix(events, i, grp, g);
    assert ScheduleUpTo(events, i + 1) == ScheduleUpTo(events, i) + NotesFor(events, i, grp);
    PrefixOfPrefix(Schedule(events), ScheduleUpTo(events, i), NotesFor(events, i, grp[..g]), NotesFor(events, i, grp));
  }

  /** Replacing the tail of a prefix by a prefix of that tail gives a prefix. */
  lemma PrefixOfPrefix<T>(all: seq<T>, head: seq<T>, part: seq<T>, whole: seq<T>)
    requires |head + whole| <= |all| && head + whole == all[..|head + whole|]
    requires |part| <= |whole| && part == whole[..|part|]
    ensures |head + part| <= |all| && head + part == all[..|head + part|]
  {
    assert (head + whole)[..|head + part|] == head + part;
  }

  /** `x` comes from the group of the "on" event at some index `i`: its note
      and duration are those of an "off" event of that note at `j >= i`, and
      its gap is the "on" event's delta or 0. */
  ghost predicate FromOnAndOff(events: seq<TimelineEvent>, x: NoteInstance)
  {
    exists i, j :: OnAndOff(events, x, i, j)
  }

  /** `x` comes from the "on" event at `i` and the "off" event at `j`. */
  ghost predicate OnAndOff(events: seq<TimelineEvent>, x: NoteInstance, i: int, j: int)
  {
    0 <= i <= j < |events| && !events[i].isOff && events[j].isOff
    && x.note == events[j].note && x.duration == events[j].delta
    && (x.before == events[i].delta || x.before == 0)
  }

  /** The notes one "on" event emits all come from that event's group. */
  lemma NotesAtSound(events: seq<TimelineEvent>, i: nat)
    requires i < |events|
    ensures forall x :: x in NotesAt(events, i) ==> FromOnAndOff(events, x)
  {
    if !events[i].isOff {
      var grp := Group(events, i);
      GroupShape(events, i);
      NotesForSound(events, i, grp);
      forall x | x in NotesAt(events, i)
        ensures FromOnAndOff(events, x)
      {
        var g :| 0 <= g < |grp| && x.before == grp[g].delta && x.note.name == grp[g].note.name;
        var j :| i <= j < |events| && events[j].isOff && x.note == events[j].note && x.duration == events[j].delta;
        assert x.before == events[i].delta || x.before == 0;
        assert OnAndOff(events, x, i, j);
      }
    }
  }

  lemma SoundAppend(events: seq<TimelineEvent>, a: seq<NoteInstance>, b: seq<NoteInstance>, ab: seq<NoteInstance>)
    requires ab == a + b
    requires forall x :: x in a ==> FromOnAndOff(events, x)
    requires forall x :: x in b ==> FromOnAndOff(events, x)
    ensures forall x :: x in ab ==> FromOnAndOff(events, x)
  {
  }

  /** Soundness: every emitted note comes from the group of an "on" event at
      some index i, takes its note and its duration from an "off" event of
      that note at or after i, and its gap is the "on" event's delta or 0. */
  lemma {:induction false} ScheduleSound(events: seq<TimelineEvent>, n: nat)
    requires n <= |events|
    ensures forall x :: x in ScheduleUpTo(events, n) ==> FromOnAndOff(events, x)
  {
    if n > 0 {
      var done := ScheduleUpTo(events, n - 1);
      var next := NotesAt(events, n - 1);
      ScheduleSound(events, n - 1);
      NotesAtSound(events, n - 1);
      SoundAppend(events, done, next, ScheduleUpTo(events, n));
    }
  }

  /** Completeness: an "on" event whose group members all have their note
      switched off at or after it emits one note per member, in member order,
      right after everything emitted before it. */
  lemma ScheduleComplete(events: seq<TimelineEvent>, i: nat)
    requires i < |events| && !events[i].isOff
    requires forall g :: 0 <= g < |Group(events, i)| ==> FirstOff(events, i, Group(events, i)[g].note.name).Some?
    ensures var before := |ScheduleUpTo(events, i)|;
      var grp := Group(events, i);
      && before + |grp| <= |Schedule(events)|
      && forall g :: 0 <= g < |grp| ==>
           var j := FirstOff(events, i, grp[g].note.name).value;
           Schedule(events)[before + g] == NoteInstance(events[j].note, grp[g].delta, events[j].delta)
  {
    var grp := Group(events, i);
    var all := Schedule(events);
    var head := ScheduleUpTo(events, i);
    var whole := NotesFor(events, i, grp);
    NotesForAllMatched(events, i, grp);
    SchedulePartPrefix(events, i, |grp|);
    assert grp[..|grp|] == grp;
    IndexInPrefix(all, head, whole);
    forall g | 0 <= g < |Group(events, i)|
      ensures var j := FirstOff(events, i, Group(events, i)[g].note.name).value;
        Schedule(events)[|ScheduleUpTo(events, i)| + g] == NoteInstance(events[j].note, Group(events, i)[g].delta, events[j].delta)
    {
      var j := FirstOff(events, i, grp[g].note.name).value;
      assert whole[g] == NoteInstance(events[j].note, grp[g].delta, events[j].delta);
      assert all[|head| + g] == whole[g];
    }
  }

  /** The elements of a part that follows `head` in a prefix of `all`. */
  lemma IndexInPrefix<T>(all: seq<T>, head: seq<T>, whole: seq<T>)
    requires |head + whole| <= |all| && head + whole == all[..|head + whole|]
    ensures forall g :: 0 <= g < |whole| ==> all[|head| + g] == whole[g]
  {
    forall g | 0 <= g < |whole|
      ensures all[|head| + g] == whole[g]
    {
      assert (head + whole)[|head| + g] == whole[g];
    }
  }

  /** Two notes switched on together with delta 0, then switched off after
      `q` cycles: the first "on" event's group lists itself twice and the
      second note once, the second "on" event's group lists itself twice, so
      five notes are emitted — C, C, E, E, E — all with gap 0 and duration
      `q`. */
  lemma SimultaneousOnsetsExample(c: NoteDef, e: NoteDef, q: nat)
    requires q > 0 && c.name != e.name
    ensures var events := [TimelineEvent(c, 0, false), TimelineEvent(e, 0, false),
                           TimelineEvent(c, q, true), TimelineEvent(e, q, true)];
      Schedule(events) == [NoteInstance(c, 0, q), NoteInstance(c, 0, q),
                           NoteInstance(e, 0, q), NoteInstance(e, 0, q), NoteInstance(e, 0, q)]
  {
    var events := [TimelineEvent(c, 0, false), TimelineEvent(e, 0, false),
                   TimelineEvent(c, q, true), TimelineEvent(e, q, true)];
    var onC, onE := events[0], events[1];
    ExampleGroups(c, e, q);
    ExampleOffs(c, e, q);
    var noteC, noteE := NoteInstance(c, 0, q), NoteInstance(e, 0, q);
    assert [onC, onC, onE][..2] == [onC, onC];
    assert [onC, onC][..1] == [onC];
    assert [onC][..0] == [];
    assert NotesFor(events, 0, [onC]) == [noteC];
    assert NotesFor(events, 0, [onC, onC]) == [noteC, noteC];
    assert NotesFor(events, 0, [onC, onC, onE]) == [noteC, noteC, noteE];
    assert [onE, onE][..1] == [onE];
    assert [onE][..0] == [];
    assert NotesFor(events, 1, [onE]) == [noteE];
    assert NotesFor(events, 1, [onE, onE]) == [noteE, noteE];
    assert ScheduleUpTo(events, 1) == [noteC, noteC, noteE];
    assert ScheduleUpTo(events, 2) == [noteC, noteC, noteE] + [noteE, noteE];
    assert ScheduleUpTo(events, 3) == ScheduleUpTo(events, 2);
    assert ScheduleUpTo(events, 4) == ScheduleUpTo(events, 3);
  }

  lemma ExampleGroups(c: NoteDef, e: NoteDef, q: nat)
    requires q > 0
    ensures var events := [TimelineEvent(c, 0, false), TimelineEvent(e, 0, false),
                           TimelineEvent(c, q, true), TimelineEvent(e, q, true)];
      && Group(events, 0) == [events[0], events[0], events[1]]
      && Group(events, 1) == [events[1], events[1]]
  {
    var events := [TimelineEvent(c, 0, false), TimelineEvent(e, 0, false),
                   TimelineEvent(c, q, true), TimelineEvent(e, q, true)];
    ZeroPrefixIs(events[0..], 2);
    ZeroPrefixIs(events[1..], 1);
  }

  lemma ExampleOffs(c: NoteDef, e: NoteDef, q: nat)
    requires c.name != e.name
    ensures var events := [TimelineEvent(c, 0, false), TimelineEvent(e, 0, false),
                           TimelineEvent(c, q, true), TimelineEvent(e, q, true)];
      && FirstOff(events, 0, c.name) == Some(2)
      && FirstOff(events, 0, e.name) == Some(3)
      && FirstOff(events, 1, e.name) == Some(3)
  {
    var events := [TimelineEvent(c, 0, false), TimelineEvent(e, 0, false),
                   TimelineEvent(c, q, true), TimelineEvent(e, q, true)];
    assert FirstOff(events, 2, c.name) == Some(2);
    assert FirstOff(events, 1, c.name) == Some(2);
    assert FirstOff(events, 3, e.name) == Some(3);
    assert FirstOff(events, 2, e.name) == Some(3);
  }

  /** An "off" event with delta 0 right after an "on" event joins its group
      and is matched with itself: it yields a note of length 0, while the
      later "on" event of the same note, with no "off" event after it,
      yields nothing. */
  lemma OffInGroupExample(c: NoteDef, e: NoteDef)
    requires c.name != e.name
    ensures var events := [TimelineEvent(c, 0, false), TimelineEvent(e, 0, true), TimelineEvent(e, 5, false)];
      Schedule(events) == [NoteInstance(e, 0, 0)]
  {
    var events := [TimelineEvent(c, 0, false), TimelineEvent(e, 0, true), TimelineEvent(e, 5, false)];
    var onC, offE, onE := events[0], events[1], events[2];
    ZeroPrefixIs(events[0..], 2);
    ZeroPrefixIs(events[2..], 0);
    assert Group(events, 0) == [onC, onC, offE];
    assert Group(events, 2) == [onE];
    assert FirstOff(events, 0, c.name) == None;
    assert FirstOff(events, 1, e.name) == Some(1);
    assert FirstOff(events, 2, e.name) == None;
    assert [onC, onC, offE][..2] == [onC, onC];
    assert [onC, onC][..1] == [onC];
    assert [onC][..0] == [];
    assert [onE][..0] == [];
    assert NotesFor(events, 0, [onC, onC]) == [];
    assert NotesFor(events, 0, [onC, onC, offE]) == [NoteInstance(e, 0, 0)];
    assert NotesFor(events, 2, [onE]) == [];
    assert ScheduleUpTo(events, 1) == [NoteInstance(e, 0, 0)];
    assert ScheduleUpTo(events, 2) == ScheduleUpTo(events, 1);
  }

  // ---------------------------------------------------------------------
  // Emission (miditoavrasm.py:146-170)
  // ---------------------------------------------------------------------

  /** The text one note adds to the melody: a newline and the note's code,
      or the note's failure. */
  function NoteChunk(x: NoteInstance, token: string): Run
  {
    var r := NoteRun(x.note.name, x.note.periodCycles, x.before, x.duration, token);
    if r.Returns? then Returns("\n" + r.text) else r
  }

  /** The chunks of the notes in emission order, the `k`-th drawing
      `tokens(k)`. */
  function NoteChunks(ns: seq<NoteInstance>, tokens: nat -> string): seq<Run>
  {
    seq(|ns|, k requires 0 <= k < |ns| => NoteChunk(ns[k], tokens(k)))
  }

  /** What `generate_melody(events)` does. */
  function MelodyRun(events: seq<TimelineEvent>, tokens: nat -> string): Run
  {
    Concat(NoteChunks(Schedule(events), tokens))
  }

  /** One member of a group emits the next note of the schedule when its
      note is switched off at or after `i`, and nothing otherwise. */
  lemma GroupStep(events: seq<TimelineEvent>, i: nat, g: nat)
    requires i < |events| && !events[i].isOff && g < |Group(events, i)|
    ensures var grp := Group(events, i);
      var done := |ScheduleUpTo(events, i) + NotesFor(events, i, grp[..g])|;
      var next := |ScheduleUpTo(events, i) + NotesFor(events, i, grp[..g + 1])|;
      var off := FirstOff(events, i, grp[g].note.name);
      && next <= |Schedule(events)|
      && (off.None? ==> next == done)
      && (off.Some? ==>
            && next == done + 1
            && Schedule(events)[done] == NoteInstance(events[off.value].note, grp[g].delta, events[off.value].delta))
  {
    var grp := Group(events, i);
    var head := ScheduleUpTo(events, i);
    var part := NotesFor(events, i, grp[..g]);
    var part1 := NotesFor(events, i, grp[..g + 1]);
    var off := FirstOff(events, i, grp[g].note.name);
    assert grp[..g + 1][..g] == grp[..g];
    assert grp[..g + 1][g] == grp[g];
    SchedulePartPrefix(events, i, g + 1);
    if off.Some? {
      var x := NoteInstance(events[off.value].note, grp[g].delta, events[off.value].delta);
      assert part1 == part + [x];
      assert (head + part1)[|head + part|] == x;
    } else {
      assert part1 == part;
    }
  }

  /** Appending one note's text to the melody emitted so far. */
  lemma ChunkStep(chunks: seq<Run>, emitted: nat, output: string, x: NoteInstance, token: string, text: Run)
    requires emitted < |chunks| && chunks[emitted] == NoteChunk(x, token)
    requires Concat(chunks[..emitted]) == Returns(output)
    requires text == NoteRun(x.note.name, x.note.periodCycles, x.before, x.duration, token)
    ensures text.Returns? ==> Concat(chunks[..emitted + 1]) == Returns(output + ("\n" + text.text))
    ensures !text.Returns? ==> Concat(chunks[..emitted + 1]) == text
  {
    assert chunks[..emitted + 1][..emitted] == chunks[..emitted];
  }

  /** The note texts of the whole melody, in emission order. */
  function Chunks(events: seq<TimelineEvent>, tokens: nat -> string): seq<Run>
  {
    NoteChunks(Schedule(events), tokens)
  }

  /** One pass of the inner loop: the note `grp[g]` of the group at `i`
      either adds nothing (it is never switched off) or adds the next
      scheduled note, whose text extends the output or ends the melody. */
  lemma EmitStep(events: seq<TimelineEvent>, i: nat, g: nat, tokens: nat -> string,
                 chunks: seq<Run>, count: nat, text: string, note: Run)
    requires i < |events| && !events[i].isOff && g < |Group(events, i)|
    requires chunks == Chunks(events, tokens)
    requires count == |ScheduleUpTo(events, i) + NotesFor(events, i, Group(events, i)[..g])| <= |chunks|
    requires Concat(chunks[..count]) == Returns(text)
    requires var off := FirstOff(events, i, Group(events, i)[g].note.name);
      off.Some? ==> note == NoteRun(events[off.value].note.name, events[off.value].note.periodCycles,
                                    Group(events, i)[g].delta, events[off.value].delta, tokens(count))
    ensures var next := |ScheduleUpTo(events, i) + NotesFor(events, i, Group(events, i)[..g + 1])|;
      var off := FirstOff(events, i, Group(events, i)[g].note.name);
      && next <= |chunks|
      && (off.None? ==> next == count)
      && (off.Some? && note.Returns? ==> next == count + 1 && Concat(chunks[..next]) == Returns(text + ("\n" + note.text)))
      && (off.Some? && !note.Returns? ==> note == MelodyRun(events, tokens))
  {
    GroupStep(events, i, g);
    var off := FirstOff(events, i, Group(events, i)[g].note.name);
    if off.Some? {
      ChunkStep(chunks, count, text, Schedule(events)[count], tokens(count), note);
      if !note.Returns? {
        ConcatFailurePersists(chunks, count + 1);
      }
    }
  }

  /** The body of the source's outer loop for an "on" event at `i`: the
      notes of its group, appended to the `output` built so far, which holds
      the first `emitted` notes. Returns the new output and note count, or
      the failure that ends the melody. */
  method EmitGroup(events: seq<TimelineEvent>, i: nat, related: seq<TimelineEvent>, tokens: nat -> string,
                   ghost chunks: seq<Run>, emitted: nat, output: string)
    returns (r: Run, count: nat)
    requires i < |events| && !events[i].isOff && related == Group(events, i)
    requires chunks == Chunks(events, tokens)
    requires emitted == |ScheduleUpTo(events, i)| <= |chunks|
    requires Concat(chunks[..emitted]) == Returns(output)
    ensures r.Returns? ==> count == |ScheduleUpTo(events, i + 1)| <= |chunks| && Concat(chunks[..count]) == r
    ensures !r.Returns? ==> r == MelodyRun(events, tokens)
  {
    var text := output;
    count := emitted;
    assert related[..0] == [];
    for g := 0 to |related|
      invariant count == |ScheduleUpTo(events, i) + NotesFor(events, i, related[..g])| <= |chunks|
      invariant Concat(chunks[..count]) == Returns(text)
    {
      var rel := related[g];
      var off := FindOff(events, i, rel.note.name);
      var note := ReturnsNone;
      if off.Some? {
        var n := events[off.value];
        note := GenerateNote(n.note.name, n.note.periodCycles, rel.delta, n.delta, tokens(count));
      }
      EmitStep(events, i, g, tokens, chunks, count, text, note);
      if off.Some? {
        if !note.Returns? {
          return note, count;
        }
        text := text + ("\n" + note.text);
        count := count + 1;
      }
    }
    assert related[..|related|] == related;
    return Returns(text), count;
  }

  /** An "off" event adds nothing to the schedule. */
  lemma OffEventEmitsNothing(events: seq<TimelineEvent>, i: nat)
    requires i < |events| && events[i].isOff
    ensures ScheduleUpTo(events, i + 1) == ScheduleUpTo(events, i)
  {
    assert ScheduleUpTo(events, i + 1) == ScheduleUpTo(events, i) + [];
  }

  /** `generate_melody`: the source's outer loop over the timeline. */
  method GenerateMelody(events: seq<TimelineEvent>, tokens: nat -> string) returns (r: Run)
    ensures r == MelodyRun(events, tokens)
  {
    var output := "";
    var emitted: nat := 0;
    ghost var chunks := Chunks(events, tokens);
    for i := 0 to |events|
      invariant emitted == |ScheduleUpTo(events, i)| <= |chunks|
      invariant Concat(chunks[..emitted]) == Returns(output)
    {
      var note := events[i];
      if !note.isOff {
        var related := CollectGroup(events, i);
        var result, count := EmitGroup(events, i, related, tokens, chunks, emitted, output);
        if !result.Returns? {
          return result;
        }
        output, emitted := result.text, count;
      } else {
        OffEventEmitsNothing(events, i);
      }
    }
    assert chunks[..emitted] == chunks;
    return Returns(output);
  }

  /** The melody returns text exactly when every scheduled note does;
      otherwise it has the outcome of the first note that does not, which
      is never a bare `None`. */
  lemma MelodyOutcome(events: seq<TimelineEvent>, tokens: nat -> string)
    ensures var ns := Schedule(events);
      && (MelodyRun(events, tokens).Returns? <==>
            forall k :: 0 <= k < |ns| ==> NoteRun(ns[k].note.name, ns[k].note.periodCycles, ns[k].before, ns[k].duration, tokens(k)).Returns?)
      && (!MelodyRun(events, tokens).Returns? ==>
            exists k :: 0 <= k < |ns|
              && MelodyRun(events, tokens) == NoteRun(ns[k].note.name, ns[k].note.periodCycles, ns[k].before, ns[k].duration, tokens(k))
              && forall m :: 0 <= m < k ==> NoteRun(ns[m].note.name, ns[m].note.periodCycles, ns[m].before, ns[m].duration, tokens(m)).Returns?)
      && !MelodyRun(events, tokens).ReturnsNone?
  {
    var ns := Schedule(events);
    var cs := NoteChunks(ns, tokens);
    assert |cs| == |ns| && forall k :: 0 <= k < |ns| ==> cs[k] == NoteChunk(ns[k], tokens(k));
    ConcatOutcome(cs);
  }

  /** With the tokens pairwise distinct 40-letter lowercase words, no two
      emitted notes can define the same label. */
  lemma MelodyLabelsDistinct(events: seq<TimelineEvent>, tokens: nat -> string, k1: nat, k2: nat, a: nat, b: nat)
    requires IsToken(tokens(k1)) && IsToken(tokens(k2)) && tokens(k1) != tokens(k2)
    requires k1 < |Schedule(events)| && k2 < |Schedule(events)| && a < 4 && b < 4
    ensures NoteLabels(Schedule(events)[k1].note.name, tokens(k1))[a]
         != NoteLabels(Schedule(events)[k2].note.name, tokens(k2))[b]
  {
    DistinctTokensDistinctLabels(Schedule(events)[k1].note.name, tokens(k1), Schedule(events)[k2].note.name, tokens(k2));
  }
}
