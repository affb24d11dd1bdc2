/** `calibrate_dials` and its helper `calibrate_dial`: the interactive
    session in which the operator moves each needle to each checkpoint with
    the arrow keys and records (space) or skips (enter) the duty cycle. */
module CalibrationSession {
  import opened Hardware
  import opened Keyboard
  import opened CalibrationStore

  /** Left / right arrow step. */
  const FineStep: int := 50
  /** Up / down arrow step. */
  const CoarseStep: int := 500

  /** Checkpoints of the seconds and minutes dials. */
  const SecondsMinutesSteps: seq<int> := [0, 10, 20, 30, 40, 50, 60]
  /** Checkpoints of the hours dial: `range(0, 13)`. */
  const HoursSteps: seq<int> := seq(13, i => i)

  /** The final letters of the arrow keys' escape sequences `ESC [ x`. */
  const LeftArrow: char := 'D'
  const RightArrow: char := 'C'
  const UpArrow: char := 'A'
  const DownArrow: char := 'B'

  function Max(a: int, b: int): int { if a < b then b else a }
  function Min(a: int, b: int): int { if a < b then a else b }

  /** No checkpoint is listed twice. */
  predicate Distinct(s: seq<int>) {
    forall i, j :: 0 <= i < j < |s| ==> s[i] != s[j]
  }

  // ---------------------------------------------------------------------
  // One key press

  /** Whether `ESC first second` is one of the four arrow keys. */
  predicate IsArrow(first: char, second: char) {
    first == '[' && (second == LeftArrow || second == RightArrow || second == UpArrow || second == DownArrow)
  }

  /** The working value after an escape sequence `ESC first second`: the
      four arrows move it by a fine or coarse step and stop at 0 and 65535;
      any other sequence leaves it alone. */
  function ApplyArrow(v: int, first: char, second: char): (r: int)
    ensures first == '[' && second == LeftArrow ==> r == Max(0, v - FineStep)
    ensures first == '[' && second == RightArrow ==> r == Min(MaxDuty, v + FineStep)
    ensures first == '[' && second == UpArrow ==> r == Min(MaxDuty, v + CoarseStep)
    ensures first == '[' && second == DownArrow ==> r == Max(0, v - CoarseStep)
    ensures !IsArrow(first, second) ==> r == v
    ensures InDutyRange(v) ==> InDutyRange(r)
  {
    if first != '[' then v
    else if second == LeftArrow then Max(0, v - FineStep)
    else if second == RightArrow then Min(MaxDuty, v + FineStep)
    else if second == UpArrow then Min(MaxDuty, v + CoarseStep)
    else if second == DownArrow then Max(0, v - CoarseStep)
    else v
  }

  // ---------------------------------------------------------------------
  // One checkpoint: the adjustment loop

  /** How the adjustment of a checkpoint ended: space, enter, or the key
      script ran out while the session was still waiting. */
  datatype Decision = Confirm | Skip | Undecided

  /** The outcome of the adjustment loop: the final working value, the
      values written to the channel by arrow keys, how it ended, and the
      events not consumed. */
  datatype Adjustment = Adjustment(value: int, writes: seq<int>, decision: Decision, rest: seq<KeyEvent>)

  /** The adjustment loop of one checkpoint, from working value v. */
  function Adjust(v: int, events: seq<KeyEvent>): (a: Adjustment)
    ensures |a.rest| <= |events|
    ensures a.decision == Undecided ==> a.rest == []
    ensures a.decision != Undecided ==> |a.rest| < |events|
    decreases |events|
  {
    if events == [] then Adjustment(v, [], Undecided, [])
    else
      match events[0]
      case NoKey => Adjust(v, events[1..])
      case Pressed(c) =>
        if c == '\n' then Adjustment(v, [], Skip, events[1..])
        else if c == ' ' then Adjustment(v, [], Confirm, events[1..])
        else Adjust(v, events[1..])
      case Escape(first, second) =>
        var v' := ApplyArrow(v, first, second);
        var a := Adjust(v', events[1..]);
        a.(writes := [v'] + a.writes)
  }

  /** An adjustment with some writes made before it. */
  function Prefixed(ws: seq<int>, a: Adjustment): Adjustment {
    a.(writes := ws + a.writes)
  }

  /** One event of the adjustment loop, unfolded. */
  lemma AdjustStep(v: int, events: seq<KeyEvent>)
    requires events != []
    ensures events[0] == Pressed('\n') ==> Adjust(v, events) == Adjustment(v, [], Skip, events[1..])
    ensures events[0] == Pressed(' ') ==> Adjust(v, events) == Adjustment(v, [], Confirm, events[1..])
    ensures events[0].Escape? ==>
      var v' := ApplyArrow(v, events[0].first, events[0].second);
      Adjust(v, events) == Prefixed([v'], Adjust(v', events[1..]))
    ensures events[0] != Pressed('\n') && events[0] != Pressed(' ') && !events[0].Escape? ==>
      Adjust(v, events) == Adjust(v, events[1..])
  {
  }

  /** Writes put in front in two goes. */
  lemma PrefixedTwice(ws: seq<int>, vs: seq<int>, a: Adjustment)
    ensures Prefixed(ws, Prefixed(vs, a)) == Prefixed(ws + vs, a)
  {
    assert ws + (vs + a.writes) == (ws + vs) + a.writes;
  }

  /** An event that the adjustment loop does nothing with: no key, or a
      plain key other than enter and space. */
  predicate Ignored(e: KeyEvent) {
    e.NoKey? || (e.Pressed? && e.c != '\n' && e.c != ' ')
  }

  /** The events with the ignored ones taken out. */
  function Relevant(events: seq<KeyEvent>): (r: seq<KeyEvent>)
    ensures |r| <= |events|
    ensures forall i :: 0 <= i < |r| ==> !Ignored(r[i])
  {
    if events == [] then []
    else if Ignored(events[0]) then Relevant(events[1..])
    else [events[0]] + Relevant(events[1..])
  }

  /** The working value where the needle is left: every channel write in the
      loop is the working value of that moment, so the last one (or the
      seed, with none) is the value space records. */
  lemma {:induction false} AdjustShowsValue(v: int, events: seq<KeyEvent>)
    ensures var a := Adjust(v, events);
      a.value == if a.writes == [] then v else a.writes[|a.writes| - 1]
    decreases |events|
  {
    if events != [] {
      match events[0]
      case NoKey => AdjustShowsValue(v, events[1..]);
      case Pressed(c) => AdjustShowsValue(v, events[1..]);
      case Escape(first, second) => AdjustShowsValue(ApplyArrow(v, first, second), events[1..]);
    }
  }

  /** Whatever keys are pressed, a working value that starts in [0, 65535]
      stays there, and so does every value written to the channel. */
  lemma {:induction false} AdjustInRange(v: int, events: seq<KeyEvent>)
    requires InDutyRange(v)
    ensures var a := Adjust(v, events); InDutyRange(a.value) && DutyValues(a.writes)
    decreases |events|
  {
    if events != [] {
      match events[0]
      case NoKey => AdjustInRange(v, events[1..]);
      case Pressed(c) => AdjustInRange(v, events[1..]);
      case Escape(first, second) =>
        var v' := ApplyArrow(v, first, second);
        AdjustInRange(v', events[1..]);
        DutyValuesAppend([v'], Adjust(v', events[1..]).writes);
    }
  }

  /** No key and unrecognised plain keys have no effect at all: dropping them
      changes neither the final value, nor the writes, nor how the loop ends. */
  lemma {:induction false} AdjustIgnores(v: int, events: seq<KeyEvent>)
    ensures var a, b := Adjust(v, events), Adjust(v, Relevant(events));
      a.value == b.value && a.writes == b.writes && a.decision == b.decision
    decreases |events|
  {
    if events != [] {
      var e := events[0];
      if Ignored(e) {
        AdjustIgnores(v, events[1..]);
      } else {
        assert Relevant(events) == [e] + Relevant(events[1..]);
        assert ([e] + Relevant(events[1..]))[1..] == Relevant(events[1..]);
        match e
        case Pressed(c) =>
        case Escape(first, second) => AdjustIgnores(ApplyArrow(v, first, second), events[1..]);
      }
    }
  }

  // ---------------------------------------------------------------------
  // One dial

  /** `calibration_data.get(label, {})`: a dial's table, empty when the dial
      is missing. */
  function TableOf(data: CalibrationData, dialLabel: string): Table {
    if dialLabel in data then data[dialLabel] else map[]
  }

  /** The document with a dial's table replaced; a missing dial stays
      missing. */
  function WithTable(data: CalibrationData, dialLabel: string, t: Table): (d: CalibrationData)
    ensures d.Keys == data.Keys
    ensures forall l :: l in data && l != dialLabel ==> d[l] == data[l]
    ensures dialLabel in data ==> d[dialLabel] == t
  {
    if dialLabel in data then data[dialLabel := t] else data
  }

  /** Reading a dial back after replacing its table gives the new table
      (or nothing, for a dial the document does not have); every other
      dial reads as before. */
  lemma TableOfWithTable(data: CalibrationData, dialLabel: string, t: Table, other: string)
    ensures TableOf(WithTable(data, dialLabel, t), dialLabel) == if dialLabel in data then t else map[]
    ensures other != dialLabel ==> TableOf(WithTable(data, dialLabel, t), other) == TableOf(data, other)
  {
  }

  /** The working value a checkpoint starts from: its recorded duty cycle,
      or 0 when there is none. */
  function Seed(table: Table, step: int): int {
    if step in table then table[step] else 0
  }

  /** How a session ends: all checkpoints decided; the key script ran out
      while waiting; or space was pressed on a dial missing from the loaded
      data (the `KeyError` of `calibration_data[label]`). */
  datatype Status = Complete | Stalled | MissingDial

  /** One decided checkpoint: the value it started from, the working value
      when it was decided, and the decision. */
  datatype Visit = Visit(seed: int, value: int, decision: Decision)

  /** The outcome of one checkpoint: the dial's table afterwards, the values
      written to the channel (the seed, then one per arrow key), the visit,
      the events not consumed, and whether the dial goes on. */
  datatype CheckpointRun = CheckpointRun(table: Table, writes: seq<int>, visit: Visit, rest: seq<KeyEvent>, status: Status)

  /** One pass of the `for step in steps` body on a dial's table (`present`
      says whether the dial is in the document at all): seed the working
      value, show it, adjust it; space stores it, enter keeps the table. */
  function Checkpoint(table: Table, present: bool, step: int, events: seq<KeyEvent>): (c: CheckpointRun)
    ensures c.status == Complete <==> c.visit.decision != Undecided && (c.visit.decision == Confirm ==> present)
    ensures c.writes != [] && c.writes[0] == c.visit.seed == Seed(table, step)
    ensures |c.rest| <= |events|
  {
    var seed := Seed(table, step);
    var a := Adjust(seed, events);
    var visit := Visit(seed, a.value, a.decision);
    var writes := [seed] + a.writes;
    if a.decision == Undecided then CheckpointRun(table, writes, visit, [], Stalled)
    else if a.decision == Confirm && !present then CheckpointRun(table, writes, visit, a.rest, MissingDial)
    else if a.decision == Confirm then CheckpointRun(table[step := a.value], writes, visit, a.rest, Complete)
    else CheckpointRun(table, writes, visit, a.rest, Complete)
  }

  /** The worked example: at a checkpoint recorded at 1000, right, up and
      left show 1050, 1550 and 1500, and space stores 1500 and moves on. */
  lemma ExampleCheckpoint(table: Table, step: int)
    requires step in table && table[step] == 1000
    ensures var c := Checkpoint(table, true, step,
                                [Escape('[', RightArrow), Escape('[', UpArrow), Escape('[', LeftArrow), Pressed(' ')]);
      && c.writes == [1000, 1050, 1550, 1500]
      && c.visit == Visit(1000, 1500, Confirm)
      && c.table == table[step := 1500]
      && c.rest == [] && c.status == Complete
  {
    var events := [Escape('[', RightArrow), Escape('[', UpArrow), Escape('[', LeftArrow), Pressed(' ')];
    AdjustStep(1000, events);
    AdjustStep(1050, events[1..]);
    AdjustStep(1550, events[2..]);
    AdjustStep(1500, events[3..]);
    assert events[1..][1..] == events[2..] && events[2..][1..] == events[3..] && events[3..][1..] == [];
  }

  /** A checkpoint changes at most its own entry, and only to the value it
      was confirmed with; a checkpoint of a dial whose duty cycles lie in
      [0, 65535] writes and stores only such values. */
  lemma CheckpointEffect(table: Table, present: bool, step: int, events: seq<KeyEvent>)
    ensures var c := Checkpoint(table, present, step, events);
      && (c.status == Complete && c.visit.decision == Confirm ==> present && c.table == table[step := c.visit.value])
      && (!(c.status == Complete && c.visit.decision == Confirm) ==> c.table == table)
      && (DutyTable(table) ==> InDutyRange(c.visit.value) && DutyValues(c.writes) && DutyTable(c.table))
  {
    var seed := Seed(table, step);
    if DutyTable(table) {
      AdjustInRange(seed, events);
      DutyValuesAppend([seed], Adjust(seed, events).writes);
    }
  }

  /** The outcome of calibrating one dial: its table afterwards, every value
      written to its channel, the decided checkpoints in order, the events
      not consumed, and how it ended. */
  datatype DialRun = DialRun(table: Table, writes: seq<int>, visits: seq<Visit>, rest: seq<KeyEvent>, status: Status)

  /** `calibrate_dial(channel, steps, label)` on the dial's table: the
      checkpoints in turn, stopping at one that cannot go on. */
  function DialSession(table: Table, present: bool, steps: seq<int>, events: seq<KeyEvent>): (r: DialRun)
    ensures |r.visits| <= |steps|
    ensures r.status == Complete <==> |r.visits| == |steps|
    ensures forall i :: 0 <= i < |r.visits| ==> r.visits[i].decision != Undecided
    decreases |steps|
  {
    if steps == [] then DialRun(table, [], [], events, Complete)
    else
      var c := Checkpoint(table, present, steps[0], events);
      if c.status != Complete then DialRun(c.table, c.writes, [], c.rest, c.status)
      else
        var r := DialSession(c.table, present, steps[1..], c.rest);
        DialRun(r.table, c.writes + r.writes, [c.visit] + r.visits, r.rest, r.status)
  }

  /** One checkpoint of a dial, unfolded. */
  lemma DialSessionStep(table: Table, present: bool, steps: seq<int>, events: seq<KeyEvent>)
    requires steps != []
    ensures var c := Checkpoint(table, present, steps[0], events);
      var r := DialSession(table, present, steps, events);
      && (c.status != Complete ==> r == DialRun(c.table, c.writes, [], c.rest, c.status))
      && (c.status == Complete ==>
            var t := DialSession(c.table, present, steps[1..], c.rest);
            r == DialRun(t.table, c.writes + t.writes, [c.visit] + t.visits, t.rest, t.status))
  {
  }

  /** The checkpoints among the decided ones that were confirmed. */
  function ConfirmedSteps(steps: seq<int>, visits: seq<Visit>): set<int>
    decreases |visits|
  {
    if visits == [] || steps == [] then {}
    else (if visits[0].decision == Confirm then {steps[0]} else {}) + ConfirmedSteps(steps[1..], visits[1..])
  }

  lemma ConfirmedStepsCons(steps: seq<int>, v: Visit, visits: seq<Visit>)
    requires steps != []
    ensures ConfirmedSteps(steps, [v] + visits)
      == (if v.decision == Confirm then {steps[0]} else {}) + ConfirmedSteps(steps[1..], visits)
  {
    assert ([v] + visits)[1..] == visits;
  }

  lemma {:induction false} ConfirmedStepsIn(steps: seq<int>, visits: seq<Visit>, k: int)
    requires |visits| <= |steps|
    ensures k in ConfirmedSteps(steps, visits) <==>
      exists i :: 0 <= i < |visits| && visits[i].decision == Confirm && steps[i] == k
    decreases |visits|
  {
    if visits != [] {
      ConfirmedStepsIn(steps[1..], visits[1..], k);
      if k in ConfirmedSteps(steps[1..], visits[1..]) {
        var i :| 0 <= i < |visits[1..]| && visits[1..][i].decision == Confirm && steps[1..][i] == k;
        assert visits[i + 1].decision == Confirm && steps[i + 1] == k;
      }
      if exists i :: 0 <= i < |visits| && visits[i].decision == Confirm && steps[i] == k {
        var i :| 0 <= i < |visits| && visits[i].decision == Confirm && steps[i] == k;
        if i > 0 {
          assert visits[1..][i - 1].decision == Confirm && steps[1..][i - 1] == k;
        }
      }
    }
  }

  /** Each checkpoint starts from its recorded duty cycle, or 0: earlier
      checkpoints of the same dial never change a later one's entry. */
  lemma {:induction false} DialSessionSeeds(table: Table, present: bool, steps: seq<int>, events: seq<KeyEvent>)
    requires Distinct(steps)
    ensures var r := DialSession(table, present, steps, events);
      forall i :: 0 <= i < |r.visits| ==> r.visits[i].seed == Seed(table, steps[i])
    decreases |steps|
  {
    if steps != [] {
      var c := Checkpoint(table, present, steps[0], events);
      DialSessionStep(table, present, steps, events);
      CheckpointEffect(table, present, steps[0], events);
      if c.status == Complete {
        var t := DialSession(c.table, present, steps[1..], c.rest);
        assert Distinct(steps[1..]);
        DialSessionSeeds(c.table, present, steps[1..], c.rest);
        ConsIndex(c.visit, t.visits);
        forall i | 0 < i <= |t.visits|
          ensures t.visits[i - 1].seed == Seed(table, steps[i])
        {
          assert steps[i] == steps[1..][i - 1] && steps[i] != steps[0];
        }
      }
    }
  }

  /** Indexing a sequence with one element put in front. */
  lemma ConsIndex<T>(x: T, s: seq<T>)
    ensures |[x] + s| == |s| + 1 && ([x] + s)[0] == x
    ensures forall i :: 0 < i <= |s| ==> ([x] + s)[i] == s[i - 1]
  {
  }

  /** The keys of the dial's table afterwards are its old keys plus the
      confirmed checkpoints; a dial missing from the document has nothing
      confirmed and keeps its (empty) table. */
  lemma {:induction false} DialSessionKeys(table: Table, present: bool, steps: seq<int>, events: seq<KeyEvent>)
    ensures var r := DialSession(table, present, steps, events);
      && r.table.Keys == table.Keys + ConfirmedSteps(steps, r.visits)
      && (!present ==> ConfirmedSteps(steps, r.visits) == {} && r.table == table)
    decreases |steps|
  {
    if steps != [] {
      var c := Checkpoint(table, present, steps[0], events);
      DialSessionStep(table, present, steps, events);
      CheckpointEffect(table, present, steps[0], events);
      if c.status == Complete {
        var t := DialSession(c.table, present, steps[1..], c.rest);
        DialSessionKeys(c.table, present, steps[1..], c.rest);
        ConfirmedStepsCons(steps, c.visit, t.visits);
      }
    }
  }

  /** The entry of every checkpoint not confirmed is unchanged. */
  lemma {:induction false} DialSessionKeeps(table: Table, present: bool, steps: seq<int>, events: seq<KeyEvent>)
    ensures var r := DialSession(table, present, steps, events);
      forall k :: k in table && k !in ConfirmedSteps(steps, r.visits) ==> k in r.table && r.table[k] == table[k]
    decreases |steps|
  {
    if steps != [] {
      var c := Checkpoint(table, present, steps[0], events);
      DialSessionStep(table, present, steps, events);
      CheckpointEffect(table, present, steps[0], events);
      if c.status == Complete {
        var t := DialSession(c.table, present, steps[1..], c.rest);
        DialSessionKeeps(c.table, present, steps[1..], c.rest);
        ConfirmedStepsCons(steps, c.visit, t.visits);
      }
    }
  }

  /** A confirmed checkpoint holds the working value it was confirmed with:
      no later checkpoint of the dial overwrites it. */
  lemma {:induction false} DialSessionStores(table: Table, present: bool, steps: seq<int>, events: seq<KeyEvent>)
    requires Distinct(steps)
    ensures var r := DialSession(table, present, steps, events);
      forall i :: 0 <= i < |r.visits| && r.visits[i].decision == Confirm ==>
        steps[i] in r.table && r.table[steps[i]] == r.visits[i].value
    decreases |steps|
  {
    if steps != [] {
      var c := Checkpoint(table, present, steps[0], events);
      DialSessionStep(table, present, steps, events);
      CheckpointEffect(table, present, steps[0], events);
      if c.status == Complete {
        var t := DialSession(c.table, present, steps[1..], c.rest);
        assert Distinct(steps[1..]);
        DialSessionStores(c.table, present, steps[1..], c.rest);
        DialSessionKeeps(c.table, present, steps[1..], c.rest);
        ConfirmedStepsIn(steps[1..], t.visits, steps[0]);
        ConsIndex(c.visit, t.visits);
        forall i | 0 < i <= |t.visits| && t.visits[i - 1].decision == Confirm
          ensures steps[i] in t.table && t.table[steps[i]] == t.visits[i - 1].value
        {
          assert steps[i] == steps[1..][i - 1];
        }
      }
    }
  }

  /** Calibrating a dial whose table holds only duty cycles in [0, 65535]
      writes only such values to the channel and leaves only such values in
      the table. */
  lemma {:induction false} DialSessionInRange(table: Table, present: bool, steps: seq<int>, events: seq<KeyEvent>)
    requires DutyTable(table)
    ensures var r := DialSession(table, present, steps, events); DutyValues(r.writes) && DutyTable(r.table)
    decreases |steps|
  {
    if steps != [] {
      var c := Checkpoint(table, present, steps[0], events);
      CheckpointEffect(table, present, steps[0], events);
      if c.status == Complete {
        DialSessionInRange(c.table, present, steps[1..], c.rest);
        DutyValuesAppend(c.writes, DialSession(c.table, present, steps[1..], c.rest).writes);
      }
    }
  }

  lemma AppendAssoc<T>(a: seq<T>, b: seq<T>, c: seq<T>)
    ensures (a + b) + c == a + (b + c)
  {
  }

  /** `DialSession` with the writes and visits of the checkpoints already
      done carried along, in the order the method produces them. */
  function DialSessionAfter(table: Table, present: bool, steps: seq<int>, events: seq<KeyEvent>,
                            written: seq<int>, visits: seq<Visit>): DialRun
    decreases |steps|
  {
    if steps == [] then DialRun(table, written, visits, events, Complete)
    else
      var c := Checkpoint(table, present, steps[0], events);
      if c.status != Complete then DialRun(c.table, written + c.writes, visits, c.rest, c.status)
      else DialSessionAfter(c.table, present, steps[1..], c.rest, written + c.writes, visits + [c.visit])
  }

  /** The checkpoint at index i of a dial, as the loop of `calibrate_dial`
      meets it: the session either ends there or goes on with the steps
      after it. */
  lemma DialSessionAfterStep(table: Table, present: bool, steps: seq<int>, i: nat, events: seq<KeyEvent>,
                             written: seq<int>, visits: seq<Visit>)
    requires i < |steps|
    ensures var c := Checkpoint(table, present, steps[i], events);
      DialSessionAfter(table, present, steps[i..], events, written, visits)
        == if c.status != Complete then DialRun(c.table, written + c.writes, visits, c.rest, c.status)
           else DialSessionAfter(c.table, present, steps[i + 1..], c.rest, written + c.writes, visits + [c.visit])
  {
    assert steps[i..][0] == steps[i] && steps[i..][1..] == steps[i + 1..];
  }

  /** Carrying the checkpoints already done along only puts them in front. */
  lemma {:induction false} DialSessionAfterIsDialSession(table: Table, present: bool, steps: seq<int>, events: seq<KeyEvent>,
                                                         written: seq<int>, visits: seq<Visit>)
    ensures var r := DialSession(table, present, steps, events);
      DialSessionAfter(table, present, steps, events, written, visits)
        == DialRun(r.table, written + r.writes, visits + r.visits, r.rest, r.status)
    decreases |steps|
  {
    if steps == [] {
      assert written + [] == written && visits + [] == visits;
    } else {
      var c := Checkpoint(table, present, steps[0], events);
      if c.status == Complete {
        DialSessionAfterIsDialSession(c.table, present, steps[1..], c.rest, written + c.writes, visits + [c.visit]);
        var t := DialSession(c.table, present, steps[1..], c.rest);
        AppendAssoc(written, c.writes, t.writes);
        AppendAssoc(visits, [c.visit], t.visits);
      }
    }
  }

  // ---------------------------------------------------------------------
  // The whole session

  /** A dial as the session sees it: its label and its checkpoints. */
  datatype Dial = Dial(dialLabel: string, steps: seq<int>)

  /** The dials in the order they are calibrated, and what is left of them
      after the first and after the second. */
  const Dials: seq<Dial> := [Dial(SecondsLabel, SecondsMinutesSteps), Dial(MinutesLabel, SecondsMinutesSteps), Dial(HoursLabel, HoursSteps)]
  const LaterDials: seq<Dial> := [Dial(MinutesLabel, SecondsMinutesSteps), Dial(HoursLabel, HoursSteps)]
  const LastDials: seq<Dial> := [Dial(HoursLabel, HoursSteps)]

  lemma DialsShape()
    ensures Dials[1..] == LaterDials && LaterDials[1..] == LastDials && LastDials[1..] == []
  {
  }

  /** The outcome of a session: the document afterwards, one run per dial
      started, the events not consumed, and how it ended. */
  datatype SessionRun = SessionRun(data: CalibrationData, runs: seq<DialRun>, rest: seq<KeyEvent>, status: Status)

  /** One dial calibrated on the document. */
  function RunDial(data: CalibrationData, dial: Dial, events: seq<KeyEvent>): DialRun {
    DialSession(TableOf(data, dial.dialLabel), dial.dialLabel in data, dial.steps, events)
  }

  /** A completed dial followed by the rest of the session. */
  function Then(d: DialRun, t: SessionRun): SessionRun {
    SessionRun(t.data, [d] + t.runs, t.rest, t.status)
  }

  /** The dials calibrated one after the other, stopping at the first that
      does not complete. */
  function RunDials(data: CalibrationData, dials: seq<Dial>, events: seq<KeyEvent>): (r: SessionRun)
    ensures |r.runs| <= |dials|
    decreases |dials|
  {
    if dials == [] then SessionRun(data, [], events, Complete)
    else
      var d := RunDial(data, dials[0], events);
      var data' := WithTable(data, dials[0].dialLabel, d.table);
      if d.status != Complete then SessionRun(data', [d], d.rest, d.status)
      else Then(d, RunDials(data', dials[1..], d.rest))
  }

  /** The runs of a completed dial followed by the rest of the session. */
  lemma ThenRuns(d: DialRun, t: SessionRun)
    ensures |Then(d, t).runs| == |t.runs| + 1 && Then(d, t).runs[0] == d
    ensures forall i :: 0 < i <= |t.runs| ==> Then(d, t).runs[i] == t.runs[i - 1]
  {
  }

  /** How a session ends: every dial started before the last one completed,
      and the session ends as its last dial did. */
  lemma {:induction false} RunDialsOutcome(data: CalibrationData, dials: seq<Dial>, events: seq<KeyEvent>)
    ensures var r := RunDials(data, dials, events);
      && (forall i :: 0 <= i < |r.runs| - 1 ==> r.runs[i].status == Complete)
      && (dials != [] ==> |r.runs| > 0 && r.runs[|r.runs| - 1].status == r.status)
    decreases |dials|
  {
    if dials != [] {
      var d := RunDial(data, dials[0], events);
      if d.status == Complete {
        var data' := WithTable(data, dials[0].dialLabel, d.table);
        RunDialsOutcome(data', dials[1..], d.rest);
        ThenRuns(d, RunDials(data', dials[1..], d.rest));
      }
    }
  }

  /** A session completes exactly when every dial was calibrated to the
      end. */
  lemma {:induction false} RunDialsComplete(data: CalibrationData, dials: seq<Dial>, events: seq<KeyEvent>)
    ensures var r := RunDials(data, dials, events);
      r.status == Complete <==> |r.runs| == |dials| && forall i :: 0 <= i < |r.runs| ==> r.runs[i].status == Complete
    decreases |dials|
  {
    if dials != [] {
      var d := RunDial(data, dials[0], events);
      if d.status == Complete {
        var data' := WithTable(data, dials[0].dialLabel, d.table);
        RunDialsComplete(data', dials[1..], d.rest);
        var t := RunDials(data', dials[1..], d.rest);
        ThenRuns(d, t);
        var r := Then(d, t);
        if |r.runs| == |dials| && forall i :: 0 <= i < |r.runs| ==> r.runs[i].status == Complete {
          forall i | 0 <= i < |t.runs|
            ensures t.runs[i].status == Complete
          {
            assert t.runs[i] == r.runs[i + 1];
          }
        }
      } else {
        assert RunDials(data, dials, events).runs[0] == d;
      }
    }
  }

  /** The labels of some dials. */
  function Labels(dials: seq<Dial>): set<string>
    decreases |dials|
  {
    if dials == [] then {} else {dials[0].dialLabel} + Labels(dials[1..])
  }

  /** No two dials share a label. */
  predicate DistinctLabels(dials: seq<Dial>)
    decreases |dials|
  {
    dials == [] || (dials[0].dialLabel !in Labels(dials[1..]) && DistinctLabels(dials[1..]))
  }

  lemma {:induction false} LabelsHas(dials: seq<Dial>, i: int)
    requires 0 <= i < |dials|
    ensures dials[i].dialLabel in Labels(dials)
    decreases |dials|
  {
    if i > 0 {
      LabelsHas(dials[1..], i - 1);
    }
  }

  /** A session adds or removes no dial and changes only the tables of its
      own dials. */
  lemma {:induction false} RunDialsDocument(data: CalibrationData, dials: seq<Dial>, events: seq<KeyEvent>)
    ensures var r := RunDials(data, dials, events);
      && r.data.Keys == data.Keys
      && (forall l :: l in data && l !in Labels(dials) ==> r.data[l] == data[l])
    decreases |dials|
  {
    if dials != [] {
      var d := RunDial(data, dials[0], events);
      if d.status == Complete {
        RunDialsDocument(WithTable(data, dials[0].dialLabel, d.table), dials[1..], d.rest);
      }
    }
  }

  /** Each dial calibrated ends up with its old keys plus the checkpoints
      confirmed for it. */
  lemma {:induction false} RunDialsKeys(data: CalibrationData, dials: seq<Dial>, events: seq<KeyEvent>)
    requires DistinctLabels(dials)
    ensures var r := RunDials(data, dials, events);
      forall i :: 0 <= i < |r.runs| ==>
        TableOf(r.data, dials[i].dialLabel).Keys
          == TableOf(data, dials[i].dialLabel).Keys + ConfirmedSteps(dials[i].steps, r.runs[i].visits)
    decreases |dials|
  {
    if dials != [] {
      var dialLabel := dials[0].dialLabel;
      var d := RunDial(data, dials[0], events);
      var data' := WithTable(data, dialLabel, d.table);
      DialSessionKeys(TableOf(data, dialLabel), dialLabel in data, dials[0].steps, events);
      assert TableOf(data', dialLabel) == d.table;
      if d.status == Complete {
        var rest := dials[1..];
        var t := RunDials(data', rest, d.rest);
        RunDialsKeys(data', rest, d.rest);
        RunDialsDocument(data', rest, d.rest);
        ThenRuns(d, t);
        assert TableOf(t.data, dialLabel) == d.table;
        forall i | 0 < i <= |t.runs|
          ensures TableOf(t.data, dials[i].dialLabel).Keys
            == TableOf(data, dials[i].dialLabel).Keys + ConfirmedSteps(dials[i].steps, t.runs[i - 1].visits)
        {
          assert dials[i] == rest[i - 1];
          LabelsHas(rest, i - 1);
        }
      }
    }
  }

  /** Starting from tables whose duty cycles all lie in [0, 65535], a session
      writes only such values and keeps the tables so. */
  lemma {:induction false} RunDialsInRange(data: CalibrationData, dials: seq<Dial>, events: seq<KeyEvent>)
    requires DutyData(data)
    ensures var r := RunDials(data, dials, events);
      && DutyData(r.data)
      && forall i :: 0 <= i < |r.runs| ==> DutyValues(r.runs[i].writes)
    decreases |dials|
  {
    if dials != [] {
      var r := RunDials(data, dials, events);
      var dialLabel := dials[0].dialLabel;
      var d := RunDial(data, dials[0], events);
      var data' := WithTable(data, dialLabel, d.table);
      DialSessionInRange(TableOf(data, dialLabel), dialLabel in data, dials[0].steps, events);
      assert DutyData(data');
      if d.status == Complete {
        RunDialsInRange(data', dials[1..], d.rest);
        ThenRuns(d, RunDials(data', dials[1..], d.rest));
      }
    }
  }

  /** The three dials have distinct labels. */
  lemma DialsDistinct()
    ensures DistinctLabels(Dials)
  {
    DialsShape();
    assert Labels(LastDials[1..]) == {};
    assert Labels(LaterDials[1..]) == {HoursLabel};
    assert Labels(Dials[1..]) == {MinutesLabel, HoursLabel};
    assert SecondsLabel[0] == 's' && MinutesLabel[0] == 'm' && |HoursLabel| == 5;
    assert DistinctLabels(LastDials);
    assert DistinctLabels(LaterDials);
  }

  /** A session started without a calibration file that completes leaves
      each dial's table holding exactly the checkpoints confirmed for it, all
      of them with duty cycles in [0, 65535]. */
  lemma FreshSession(events: seq<KeyEvent>)
    ensures var r := RunDials(StartingData(NotFound), Dials, events);
      && r.data.Keys == {SecondsLabel, MinutesLabel, HoursLabel}
      && (forall i :: 0 <= i < |r.runs| ==> TableOf(r.data, Dials[i].dialLabel).Keys == ConfirmedSteps(Dials[i].steps, r.runs[i].visits))
      && DutyData(r.data)
  {
    var data := StartingData(NotFound);
    StartingDataShape(NotFound);
    DialsDistinct();
    RunDialsDocument(data, Dials, events);
    RunDialsKeys(data, Dials, events);
    RunDialsInRange(data, Dials, events);
  }

  /** No checkpoint is listed twice, so a later checkpoint never overwrites
      an earlier one's entry. */
  lemma StepsDistinct()
    ensures Distinct(SecondsMinutesSteps) && Distinct(HoursSteps)
  {
  }

  // ---------------------------------------------------------------------
  // The imperative session

  /** The `while True` loop of one checkpoint: poll keys, move the working
      value and show it on the channel on each arrow key, until enter or
      space. Storing the confirmed value is left to the caller, which does it
      straight after, with no key read in between. */
  method AdjustCheckpoint(channel: Channel, keys: KeySource, seed: int) returns (pwmValue: int, decision: Decision)
    modifies channel, keys
    ensures var a := Adjust(seed, old(keys.pending));
      && pwmValue == a.value && decision == a.decision
      && keys.pending == a.rest
      && channel.log == old(channel.log) + a.writes
  {
    pwmValue := seed;
    decision := Undecided;
    ghost var adj := Adjust(seed, keys.pending);
    ghost var written: seq<int> := [];
    while keys.pending != []
      invariant channel.log == old(channel.log) + written
      invariant adj == Prefixed(written, Adjust(pwmValue, keys.pending))
      decreases |keys.pending|
    {
      AdjustStep(pwmValue, keys.pending);
      var key := keys.Poll();
      if key == Pressed('\n') {
        decision := Skip;
        return;
      } else if key == Pressed(' ') {
        decision := Confirm;
        return;
      } else if key.Escape? {
        pwmValue := ApplyArrow(pwmValue, key.first, key.second);
        channel.SetDutyCycle(pwmValue);
        PrefixedTwice(written, [pwmValue], Adjust(pwmValue, keys.pending));
        written := written + [pwmValue];
      }
    }
  }

  /** What a dial's calibration does to the document: it keeps the same
      dials, leaves every other dial's table alone and gives this dial the
      table t. */
  predicate Replaced(data: CalibrationData, data0: CalibrationData, dialLabel: string, t: Table) {
    && data.Keys == data0.Keys
    && (forall l :: l in data0 && l != dialLabel ==> data[l] == data0[l])
    && TableOf(data, dialLabel) == t
  }

  /** `Replaced` pins the document down: it is `WithTable`. */
  lemma ReplacedIsWithTable(data: CalibrationData, data0: CalibrationData, dialLabel: string, t: Table)
    requires Replaced(data, data0, dialLabel, t)
    requires dialLabel !in data0 ==> t == map[]
    ensures data == WithTable(data0, dialLabel, t)
  {
    var w := WithTable(data0, dialLabel, t);
    assert forall l :: l in data ==> data[l] == w[l];
  }

  /** One pass of the `for step in steps` body of `calibrate_dial`: seed the
      working value from the document, show it on the channel, adjust it,
      and on space store it in the document (raising when the dial is
      missing). */
  method CalibrateCheckpoint(data0: CalibrationData, channel: Channel, step: int, dialLabel: string, keys: KeySource)
    returns (data: CalibrationData, status: Status)
    modifies channel, keys
    ensures var c := Checkpoint(TableOf(data0, dialLabel), dialLabel in data0, step, old(keys.pending));
      && Replaced(data, data0, dialLabel, c.table) && status == c.status
      && keys.pending == c.rest
      && channel.log == old(channel.log) + c.writes
  {
    data := data0;
    var currentValue := Seed(TableOf(data, dialLabel), step);
    channel.SetDutyCycle(currentValue);
    var pwmValue, decision := AdjustCheckpoint(channel, keys, currentValue);
    if decision == Undecided {
      status := Stalled;
      return;
    }
    if decision == Confirm {
      if dialLabel !in data {
        status := MissingDial;
        return;
      }
      data := data[dialLabel := data[dialLabel][step := pwmValue]];
    }
    status := Complete;
  }

  /** `calibrate_dial(channel, steps, label)`: the checkpoints in turn, until
      one cannot go on. The key source and the channel are advanced as the
      session prescribes. */
  method CalibrateDial(data0: CalibrationData, channel: Channel, steps: seq<int>, dialLabel: string, keys: KeySource)
    returns (data: CalibrationData, status: Status)
    modifies channel, keys
    ensures var r := DialSession(TableOf(data0, dialLabel), dialLabel in data0, steps, old(keys.pending));
      && Replaced(data, data0, dialLabel, r.table) && status == r.status
      && keys.pending == r.rest
      && channel.log == old(channel.log) + r.writes
  {
    data := data0;
    ghost var present := dialLabel in data0;
    ghost var table := TableOf(data0, dialLabel);
    ghost var full := DialSessionAfter(table, present, steps, keys.pending, [], []);
    DialSessionAfterIsDialSession(table, present, steps, keys.pending, [], []);
    ghost var spec := DialSession(table, present, steps, keys.pending);
    assert [] + spec.writes == spec.writes && [] + spec.visits == spec.visits;
    ghost var written: seq<int> := [];
    ghost var visits: seq<Visit> := [];
    for i := 0 to |steps|
      invariant channel.log == old(channel.log) + written
      invariant present == (dialLabel in data) && Replaced(data, data0, dialLabel, table)
      invariant full == DialSessionAfter(table, present, steps[i..], keys.pending, written, visits)
    {
      ghost var c := Checkpoint(table, present, steps[i], keys.pending);
      DialSessionAfterStep(table, present, steps, i, keys.pending, written, visits);
      data, status := CalibrateCheckpoint(data, channel, steps[i], dialLabel, keys);
      AppendAssoc(old(channel.log), written, c.writes);
      if status != Complete {
        return;
      }
      written := written + c.writes;
      visits := visits + [c.visit];
      table := c.table;
    }
    status := Complete;
  }

  /** A dial's calibration as the method reports it is the one
      `DialSession` performs on the document. */
  lemma DialOnDocument(data0: CalibrationData, data: CalibrationData, dialLabel: string, steps: seq<int>, events: seq<KeyEvent>)
    requires Replaced(data, data0, dialLabel, DialSession(TableOf(data0, dialLabel), dialLabel in data0, steps, events).table)
    ensures data == WithTable(data0, dialLabel, DialSession(TableOf(data0, dialLabel), dialLabel in data0, steps, events).table)
  {
    DialSessionKeys(TableOf(data0, dialLabel), dialLabel in data0, steps, events);
    ReplacedIsWithTable(data, data0, dialLabel, DialSession(TableOf(data0, dialLabel), dialLabel in data0, steps, events).table);
  }

  /** One `calibrate_dial` call of `calibrate_dials`, on the first of the
      dials still to do: the session goes on with the rest when it
      completes, and ends here otherwise. */
  method CalibrateNextDial(data0: CalibrationData, dials: seq<Dial>, channel: Channel, keys: KeySource)
    returns (data: CalibrationData, status: Status)
    requires dials != []
    modifies channel, keys
    ensures var d := RunDial(data0, dials[0], old(keys.pending));
      && status == d.status && channel.log == old(channel.log) + d.writes
      && (status != Complete ==> RunDials(data0, dials, old(keys.pending)) == SessionRun(data, [d], keys.pending, status))
      && (status == Complete ==> RunDials(data0, dials, old(keys.pending)) == Then(d, RunDials(data, dials[1..], keys.pending)))
  {
    data, status := CalibrateDial(data0, channel, dials[0].steps, dials[0].dialLabel, keys);
    DialOnDocument(data0, data, dials[0].dialLabel, dials[0].steps, old(keys.pending));
  }

  /** Which writes a session made on the i-th dial's channel. */
  function RunWrites(r: SessionRun, i: nat): seq<int> {
    if i < |r.runs| then r.runs[i].writes else []
  }

  /** `calibrate_dials()`: start from the loaded document (three empty tables
      without a file), calibrate seconds, minutes and hours in turn on their
      own channels. The document is saved only when the status is Complete;
      any other status stands for the session never finishing or raising. */
  method CalibrateDials(loaded: Loaded, keys: KeySource, secondsChannel: Channel, minutesChannel: Channel, hoursChannel: Channel)
    returns (data: CalibrationData, status: Status)
    requires secondsChannel != minutesChannel && minutesChannel != hoursChannel && secondsChannel != hoursChannel
    modifies keys, secondsChannel, minutesChannel, hoursChannel
    ensures var r := RunDials(StartingData(loaded), Dials, old(keys.pending));
      && data == r.data && status == r.status && keys.pending == r.rest
      && secondsChannel.log == old(secondsChannel.log) + RunWrites(r, 0)
      && minutesChannel.log == old(minutesChannel.log) + RunWrites(r, 1)
      && hoursChannel.log == old(hoursChannel.log) + RunWrites(r, 2)
  {
    data, status := CalibrateThreeDials(StartingData(loaded), Dials, keys, secondsChannel, minutesChannel, hoursChannel);
  }

  /** The three `calibrate_dial` calls of `calibrate_dials`, each on its own
      channel, on any three dials: each runs only when the ones before it
      completed. */
  method CalibrateThreeDials(data0: CalibrationData, dials: seq<Dial>, keys: KeySource,
                             channel0: Channel, channel1: Channel, channel2: Channel)
    returns (data: CalibrationData, status: Status)
    requires |dials| == 3
    requires channel0 != channel1 && channel1 != channel2 && channel0 != channel2
    modifies keys, channel0, channel1, channel2
    ensures var r := RunDials(data0, dials, old(keys.pending));
      && data == r.data && status == r.status && keys.pending == r.rest
      && channel0.log == old(channel0.log) + RunWrites(r, 0)
      && channel1.log == old(channel1.log) + RunWrites(r, 1)
      && channel2.log == old(channel2.log) + RunWrites(r, 2)
  {
    ghost var d0 := RunDial(data0, dials[0], keys.pending);
    data, status := CalibrateNextDial(data0, dials, channel0, keys);
    if status != Complete {
      RunWritesSingle(data, d0, keys.pending, status);
      assert channel1.log == old(channel1.log) + [];
      assert channel2.log == old(channel2.log) + [];
      return;
    }
    var later := dials[1..];
    ghost var t1 := RunDials(data, later, keys.pending);
    RunWritesThen(d0, t1);
    ghost var d1 := RunDial(data, later[0], keys.pending);
    data, status := CalibrateNextDial(data, later, channel1, keys);
    if status != Complete {
      RunWritesSingle(data, d1, keys.pending, status);
      assert channel2.log == old(channel2.log) + [];
      return;
    }
    var last := later[1..];
    ghost var t2 := RunDials(data, last, keys.pending);
    RunWritesThen(d1, t2);
    ghost var d2 := RunDial(data, last[0], keys.pending);
    data, status := CalibrateNextDial(data, last, channel2, keys);
    assert last[1..] == [];
    ghost var t3 := RunDials(data, [], keys.pending);
    RunWritesSingle(data, d2, keys.pending, status);
    RunWritesThen(d2, t3);
  }

  lemma RunWritesThen(d: DialRun, t: SessionRun)
    ensures RunWrites(Then(d, t), 0) == d.writes
    ensures RunWrites(Then(d, t), 1) == RunWrites(t, 0)
    ensures RunWrites(Then(d, t), 2) == RunWrites(t, 1)
  {
  }

  lemma RunWritesSingle(data: CalibrationData, d: DialRun, rest: seq<KeyEvent>, status: Status)
    ensures RunWrites(SessionRun(data, [d], rest, status), 0) == d.writes
    ensures RunWrites(SessionRun(data, [d], rest, status), 1) == []
    ensures RunWrites(SessionRun(data, [d], rest, status), 2) == []
  {
  }
}
