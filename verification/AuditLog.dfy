/**
 keel/governance/audit.py: the append-only event log and its integrity check.

 The log is a text; its lines are what str.splitlines makes of it. Emitting
 appends the text of one event, reopening reads the numbers back.
 */
module AuditLogs {
  import opened Prelude
  import opened LogTexts

  // The file is a text that grows by one rendered event and a line feed at a time and
  // may be reopened after a crash. How the library prints numbers and reads a line is
  // arbitrary within LogTexts.Conforms. Timestamps are reals.

  datatype FieldName = SeqName | AtName | RunIdName | EventTypeName

  datatype Problem =
    | MissingLog
    | BlankLine(line: nat)
    | MalformedJson(line: nat)
    | NotAnObject(line: nat)
    | MissingFields(line: nat, fields: seq<FieldName>)
    | SeqNotInteger(line: nat)
    | DuplicateSeq(line: nat, found: int)
    | SequenceGap(line: nat, expected: int, found: int)
    | TimeNotNumber(line: nat)
    | TimeBackwards(line: nat)
    | WrongRun(line: nat)
    | UnknownType(line: nat)

  // ---- Writing --------------------------------------------------------------------------

  function Later(a: real, b: real): real {
    if a < b then b else a
  }

  datatype Log = Log(text: string, seqNo: int, lastAt: real)

  const EMPTY := Log("", 0, 0.0)

  /** The next event's line. */
  function Written(codec: Codec, log: Log, time: real, e: Entry): string {
    EventText(codec, log.seqNo + 1, Round6(Later(time, log.lastAt)), e) + "\n"
  }

  function Emitted(codec: Codec, log: Log, time: real, e: Entry): Log {
    Log(log.text + Written(codec, log, time, e), log.seqNo + 1, Round6(Later(time, log.lastAt)))
  }

  function Coerced<T>(n: Numeric<T>): Option<T> {
    if n.Proper? then Some(n.value) else n.coerced
  }

  /** The number and time of the event a line holds; None for a line that is skipped. */
  function EventOn(l: Line): Option<(int, real)> {
    if !l.Object? then None
    else
      var f := l.fields;
      if f.seqNo.Some? && f.at.Some? && f.ownRun.Some? && f.knownType == Some(true)
         && Coerced(f.seqNo.value).Some? && Coerced(f.at.value).Some?
      then Some((Coerced(f.seqNo.value).value, Coerced(f.at.value).value))
      else None
  }

  /** Highest number and time among the events of the lines. */
  function Highest(lines: seq<Line>): Option<(int, real)> {
    if lines == [] then None
    else
      var before := Highest(lines[..|lines| - 1]);
      match EventOn(lines[|lines| - 1])
      case None => before
      case Some(e) =>
        if before.None? then Some(e)
        else Some((if before.value.0 < e.0 then e.0 else before.value.0, Later(before.value.1, e.1)))
  }

  /** Opening an existing file; a line that is JSON but no object raises an error the loader does not catch. */
  function Opened(codec: Codec, text: string): Option<Log> {
    var lines := Lines(codec, text);
    if NotObject in lines then None
    else match Highest(lines)
      case None => Some(Log(text, 0, 0.0))
      case Some(e) => Some(Log(text, e.0, e.1))
  }

  // ---- Checking ---------------------------------------------------------------------------

  datatype Check = Check(expected: int, lastAt: Option<real>, seen: set<int>, problems: seq<Problem>)

  const START := Check(1, None, {}, [])

  function Report(c: Check, p: Problem): Check {
    c.(problems := c.problems + [p])
  }

  function Missing(f: Fields): seq<FieldName> {
    (if f.seqNo.None? then [SeqName] else []) + (if f.at.None? then [AtName] else [])
    + (if f.ownRun.None? then [RunIdName] else []) + if f.knownType.None? then [EventTypeName] else []
  }

  function CheckSeq(c: Check, line: nat, n: Numeric<int>): Check {
    match n
    case Odd(_) => Report(c, SeqNotInteger(line))
    case Proper(found) =>
      var reported :=
        if found in c.seen then Report(c, DuplicateSeq(line, found))
        else if found != c.expected then Report(c, SequenceGap(line, c.expected, found))
        else c;
      reported.(seen := c.seen + {found}, expected := (if c.expected < found then found else c.expected) + 1)
  }

  function CheckAt(c: Check, line: nat, n: Numeric<real>): Check {
    match n
    case Odd(_) => Report(c, TimeNotNumber(line))
    case Proper(at) =>
      var reported := if c.lastAt.Some? && at < c.lastAt.value then Report(c, TimeBackwards(line)) else c;
      reported.(lastAt := Some(at))
  }

  function CheckRest(c: Check, line: nat, ownRun: bool, knownType: bool): Check {
    var c' := if ownRun then c else Report(c, WrongRun(line));
    if knownType then c' else Report(c', UnknownType(line))
  }

  function CheckLine(c: Check, line: nat, l: Line): Check {
    match l
    case Blank => Report(c, BlankLine(line))
    case Malformed => Report(c, MalformedJson(line))
    case NotObject => Report(c, NotAnObject(line))
    case Object(f) =>
      if Missing(f) != [] then Report(c, MissingFields(line, Missing(f)))
      else
        assert f.seqNo.Some? && f.at.Some? && f.ownRun.Some? && f.knownType.Some? by { NothingMissing(f); }
        CheckRest(CheckAt(CheckSeq(c, line, f.seqNo.value), line, f.at.value), line, f.ownRun.value, f.knownType.value)
  }

  lemma NothingMissing(f: Fields)
    requires Missing(f) == []
    ensures f.seqNo.Some? && f.at.Some? && f.ownRun.Some? && f.knownType.Some?
  {
    var m1 := if f.seqNo.None? then [SeqName] else [];
    var m2 := if f.at.None? then [AtName] else [];
    var m3 := if f.ownRun.None? then [RunIdName] else [];
    assert |Missing(f)| == |m1| + |m2| + |m3| + if f.knownType.None? then 1 else 0;
  }

  function Checked(lines: seq<Line>): Check {
    if lines == [] then START
    else CheckLine(Checked(lines[..|lines| - 1]), |lines|, lines[|lines| - 1])
  }

  function Problems(lines: seq<Line>): seq<Problem> {
    Checked(lines).problems
  }

  class AuditLog {
    const codec: Codec
    var file: Option<string>  // None once the file has been deleted
    var seqNo: int
    var lastAt: real

    constructor (codec: Codec, onDisk: Option<string>)
      requires onDisk.Some? ==> NotObject !in Lines(codec, onDisk.value)  // otherwise opening raises
      ensures this.codec == codec && file.Some?
      ensures Opened(codec, if onDisk.Some? then onDisk.value else "") == Some(Contents())
    {
      var text := if onDisk.Some? then onDisk.value else "";
      this.codec := codec;
      file := Some(text);
      var lines := Lines(codec, text);
      var maxSeq, maxAt, found := 0, 0.0, false;
      for i := 0 to |lines|
        invariant Highest(lines[..i]) == if found then Some((maxSeq, maxAt)) else None
        invariant !found ==> maxSeq == 0 && maxAt == 0.0
      {
        assert lines[..i + 1][..i] == lines[..i];
        var e := EventOn(lines[i]);
        if e.Some? {
          maxSeq := if found && e.value.0 <= maxSeq then maxSeq else e.value.0;
          maxAt := if found then Later(maxAt, e.value.1) else e.value.1;
          found := true;
        }
      }
      assert lines[..|lines|] == lines;
      seqNo, lastAt := maxSeq, maxAt;
    }

    function Contents(): Log
      reads this
    {
      Log(if file.Some? then file.value else "", seqNo, lastAt)
    }

    method Emit(time: real, e: Entry)
      modifies this
      ensures file.Some? && Contents() == Emitted(codec, old(Contents()), time, e)
    {
      seqNo := seqNo + 1;
      var at := Round6(Later(time, lastAt));
      var line := EventText(codec, seqNo, at, e);
      file := Some((if file.Some? then file.value else "") + (line + "\n"));
      lastAt := at;
    }

    method VerifyIntegrity() returns (problems: seq<Problem>)
      ensures problems == if file.None? then [MissingLog] else Problems(Lines(codec, file.value))
    {
      if file.None? {
        return [MissingLog];
      }
      var lines := Lines(codec, file.value);
      var state := START;
      for i := 0 to |lines|
        invariant state == Checked(lines[..i])
      {
        assert lines[..i + 1][..i] == lines[..i];
        state := CheckLine(state, i + 1, lines[i]);
      }
      assert lines[..|lines|] == lines;
      problems := state.problems;
    }
  }

  // ---- What is never un-reported --------------------------------------------------------------

  lemma LineKeepsReports(c: Check, line: nat, l: Line)
    ensures c.problems <= CheckLine(c, line, l).problems
    ensures !l.Object? ==> |CheckLine(c, line, l).problems| > |c.problems|
  {
    if l.Object? && Missing(l.fields) == [] {
      NothingMissing(l.fields);
    }
  }

  lemma {:induction false} ReportsStay(lines: seq<Line>, n: nat)
    requires n <= |lines|
    ensures Problems(lines[..n]) <= Problems(lines)
  {
    if n < |lines| {
      var m := |lines| - 1;
      assert lines[..m][..n] == lines[..n];
      ReportsStay(lines[..m], n);
      LineKeepsReports(Checked(lines[..m]), |lines|, lines[m]);
    } else {
      assert lines[..n] == lines;
    }
  }

  /** Any line that is not an object is reported. */
  lemma DamageReported(lines: seq<Line>, i: nat)
    requires i < |lines| && !lines[i].Object?
    ensures Problems(lines) != []
  {
    assert lines[..i + 1][..i] == lines[..i];
    LineKeepsReports(Checked(lines[..i]), i + 1, lines[i]);
    ReportsStay(lines, i + 1);
  }

  // ---- Honest logs ------------------------------------------------------------------------------

  /** The time on a line, 0 if it has none. */
  function TimeOf(l: Line): real {
    if l.Object? && l.fields.at.Some? && l.fields.at.value.Proper? then l.fields.at.value.value else 0.0
  }

  /** The i-th line is this run's event number i + 1. */
  predicate HoldsEvent(lines: seq<Line>, i: nat)
    requires i < |lines|
  {
    lines[i] == Event(i + 1, TimeOf(lines[i]))
  }

  /** This run's events 1, 2, 3, ... with times that never go back. */
  ghost predicate Honest(lines: seq<Line>) {
    && (forall i :: 0 <= i < |lines| ==> HoldsEvent(lines, i))
    && (forall i, j :: 0 <= i < j < |lines| ==> TimeOf(lines[i]) <= TimeOf(lines[j]))
  }

  lemma HonestPrefix(lines: seq<Line>, n: nat)
    requires Honest(lines) && n <= |lines|
    ensures Honest(lines[..n])
  {
    forall i | 0 <= i < n
      ensures HoldsEvent(lines[..n], i)
    {
      assert HoldsEvent(lines, i);
    }
  }

  /** The next event of an honest log is not reported. */
  lemma EventChecked(c: Check, line: nat, k: nat, at: real)
    requires c.expected <= k + 1 && (forall s :: s in c.seen ==> s < c.expected)
    requires c.lastAt.Some? ==> c.lastAt.value <= at
    ensures var c' := CheckLine(c, line, Event(k + 1, at));
      && c'.expected == k + 2 && c'.seen == c.seen + {k + 1} && c'.lastAt == Some(at)
      && c'.problems == c.problems + if c.expected == k + 1 then [] else [SequenceGap(line, c.expected, k + 1)]
  {
    assert Missing(Event(k + 1, at).fields) == [];
    assert c.problems + [] == c.problems;
  }

  lemma {:induction false} HonestAccepted(lines: seq<Line>)
    requires Honest(lines)
    ensures var c := Checked(lines);
      && c.problems == [] && c.expected == |lines| + 1
      && (forall s :: s in c.seen ==> s <= |lines|)
      && c.lastAt == if lines == [] then None else Some(TimeOf(lines[|lines| - 1]))
  {
    if lines != [] {
      var n := |lines| - 1;
      HonestPrefix(lines, n);
      HonestAccepted(lines[..n]);
      assert HoldsEvent(lines, n);
      EventChecked(Checked(lines[..n]), |lines|, n, TimeOf(lines[n]));
    }
  }

  lemma {:induction false} HonestHighest(lines: seq<Line>)
    requires Honest(lines)
    ensures NotObject !in lines
    ensures Highest(lines) == if lines == [] then None else Some((|lines|, TimeOf(lines[|lines| - 1])))
  {
    if lines != [] {
      var n := |lines| - 1;
      HonestPrefix(lines, n);
      HonestHighest(lines[..n]);
      assert HoldsEvent(lines, n);
      assert Coerced(Proper(n + 1)) == Some(n + 1);
      assert forall l :: l in lines ==> l in lines[..n] || l == lines[n];
    }
  }

  // ---- Emits and reopenings -----------------------------------------------------------------------

  datatype Action = Emit(time: real, entry: Entry) | Reopen

  // A log in use; `open` is false once a reopening has raised.
  datatype Session = Session(log: Log, open: bool)

  function Act(codec: Codec, s: Session, a: Action): Session {
    if !s.open then s
    else match a
      case Emit(time, entry) => s.(log := Emitted(codec, s.log, time, entry))
      case Reopen => match Opened(codec, s.log.text)
        case None => s.(open := false)
        case Some(log) => s.(log := log)
  }

  function Play(codec: Codec, acts: seq<Action>): Session {
    if acts == [] then Session(EMPTY, true) else Act(codec, Play(codec, acts[..|acts| - 1]), acts[|acts| - 1])
  }

  /** What emit may be asked to log: entries of known types with valid strings. */
  ghost predicate ValidActions(codec: Codec, acts: seq<Action>) {
    forall a :: a in acts && a.Emit? ==> ValidEntry(codec, a.entry)
  }

  /** The texts given to emit hold no line separator. */
  ghost predicate NoSeparators(codec: Codec, acts: seq<Action>) {
    forall a :: a in acts && a.Emit? ==> !HasBreak(Tail(codec, a.entry))
  }

  /** What an intact log knows about itself. */
  ghost predicate Intact(codec: Codec, log: Log) {
    var lines := Lines(codec, log.text);
    && Terminated(log.text) && Honest(lines) && log.seqNo == |lines|
    && log.lastAt == (if lines == [] then 0.0 else TimeOf(lines[|lines| - 1]))
    && OnGrid(log.lastAt)
  }

  lemma LinesAppend(codec: Codec, text: string, more: string)
    requires Terminated(text)
    ensures Lines(codec, text + more) == Lines(codec, text) + Lines(codec, more)
  {
    SplitConcat(text, more);
  }

  lemma HonestNext(lines: seq<Line>, at: real)
    requires Honest(lines) && (lines != [] ==> TimeOf(lines[|lines| - 1]) <= at)
    ensures Honest(lines + [Event(|lines| + 1, at)])
  {
    var n, after := |lines|, lines + [Event(|lines| + 1, at)];
    forall i | 0 <= i <= n
      ensures HoldsEvent(after, i) && TimeOf(after[i]) <= at
    {
      if i < n {
        assert HoldsEvent(lines, i) && after[i] == lines[i];
      }
    }
  }

  lemma EmitStaysIntact(codec: Codec, log: Log, time: real, e: Entry)
    requires Conforms(codec) && ValidEntry(codec, e) && !HasBreak(Tail(codec, e)) && Intact(codec, log)
    ensures Intact(codec, Emitted(codec, log, time, e))
  {
    var at := Round6(Later(time, log.lastAt));
    RoundTwice(Later(time, log.lastAt));
    RoundMonotone(log.lastAt, Later(time, log.lastAt));
    WholeEvent(codec, log.seqNo + 1, at, e);
    IntactNext(codec, log, EventText(codec, log.seqNo + 1, at, e) + "\n", at);
  }

  lemma IntactNext(codec: Codec, log: Log, more: string, at: real)
    requires Intact(codec, log) && OnGrid(at) && log.lastAt <= at
    requires more != "" && Terminated(more) && Lines(codec, more) == [Event(log.seqNo + 1, at)]
    ensures Intact(codec, Log(log.text + more, log.seqNo + 1, at))
  {
    LinesAppend(codec, log.text, more);
    HonestNext(Lines(codec, log.text), at);
  }

  lemma ReopenStaysIntact(codec: Codec, log: Log)
    requires Intact(codec, log)
    ensures Opened(codec, log.text) == Some(log)
  {
    HonestHighest(Lines(codec, log.text));
  }

  lemma StartsIntact(codec: Codec)
    ensures Intact(codec, EMPTY)
  {
    assert Round6(0.0) == 0.0;
  }

  lemma {:induction false} IntactSession(codec: Codec, acts: seq<Action>)
    requires Conforms(codec) && ValidActions(codec, acts) && NoSeparators(codec, acts)
    ensures Play(codec, acts).open && Intact(codec, Play(codec, acts).log)
  {
    if acts == [] {
      StartsIntact(codec);
    } else {
      var n := |acts| - 1;
      IntactSession(codec, acts[..n]);
      assert acts[n] in acts;
      match acts[n]
      case Emit(time, e) => EmitStaysIntact(codec, Play(codec, acts[..n]).log, time, e);
      case Reopen => ReopenStaysIntact(codec, Play(codec, acts[..n]).log);
    }
  }

  lemma {:induction false} TextTerminated(codec: Codec, acts: seq<Action>)
    ensures Terminated(Play(codec, acts).log.text)
  {
    if acts != [] {
      TextTerminated(codec, acts[..|acts| - 1]);
    }
  }

  lemma {:induction false} LinesStay(codec: Codec, acts: seq<Action>, n: nat)
    requires n <= |acts|
    ensures Lines(codec, Play(codec, acts[..n]).log.text) <= Lines(codec, Play(codec, acts).log.text)
  {
    if n < |acts| {
      var before := acts[..|acts| - 1];
      assert before[..n] == acts[..n];
      LinesStay(codec, before, n);
      ActGrows(codec, Play(codec, before), acts[|acts| - 1]);
      TextTerminated(codec, before);
    } else {
      assert acts[..n] == acts;
    }
  }

  lemma ActGrows(codec: Codec, s: Session, a: Action)
    ensures Terminated(s.log.text) ==> Lines(codec, s.log.text) <= Lines(codec, Act(codec, s, a).log.text)
  {
    if Terminated(s.log.text) && s.open && a.Emit? {
      LinesAppend(codec, s.log.text, Written(codec, s.log, a.time, a.entry));
    }
  }

  /** The first event with a line separator in its text leaves a malformed line in the file for good. */
  lemma {:induction false} BrokenStays(codec: Codec, acts: seq<Action>, n: nat)
    requires Conforms(codec) && ValidActions(codec, acts)
    requires n < |acts| && acts[n].Emit? && HasBreak(Tail(codec, acts[n].entry))
    ensures Problems(Lines(codec, Play(codec, acts).log.text)) != []
    decreases n
  {
    if m: nat :| m < n && acts[m].Emit? && HasBreak(Tail(codec, acts[m].entry)) {
      BrokenStays(codec, acts, m);
    } else {
      assert forall a :: a in acts[..n] ==> a in acts;
      forall a | a in acts[..n] && a.Emit?
        ensures !HasBreak(Tail(codec, a.entry))
      {
        var m :| 0 <= m < n && acts[m] == a;
      }
      IntactSession(codec, acts[..n]);
      assert acts[n] in acts;
      BrokenFirst(codec, acts, n);
    }
  }

  lemma BrokenFirst(codec: Codec, acts: seq<Action>, n: nat)
    requires Conforms(codec) && n < |acts| && Play(codec, acts[..n]).open && Terminated(Play(codec, acts[..n]).log.text)
    requires acts[n].Emit? && ValidEntry(codec, acts[n].entry) && HasBreak(Tail(codec, acts[n].entry))
    ensures Problems(Lines(codec, Play(codec, acts).log.text)) != []
  {
    var log := Play(codec, acts[..n]).log;
    PlayEmit(codec, acts, n);
    BrokenWritten(codec, log, acts[n].time, acts[n].entry);
    LinesStay(codec, acts, n + 1);
    DamageReported(Lines(codec, Play(codec, acts).log.text), |Lines(codec, log.text)|);
  }

  lemma PlayEmit(codec: Codec, acts: seq<Action>, n: nat)
    requires n < |acts| && Play(codec, acts[..n]).open && acts[n].Emit?
    ensures var log := Play(codec, acts[..n]).log;
      Play(codec, acts[..n + 1]).log.text == log.text + Written(codec, log, acts[n].time, acts[n].entry)
  {
    assert acts[..n + 1][..n] == acts[..n];
  }

  lemma BrokenWritten(codec: Codec, log: Log, time: real, e: Entry)
    requires Conforms(codec) && Terminated(log.text) && ValidEntry(codec, e) && HasBreak(Tail(codec, e))
    ensures var n, lines := |Lines(codec, log.text)|, Lines(codec, log.text + Written(codec, log, time, e));
      n < |lines| && lines[n] == Malformed
  {
    BrokenEvent(codec, log.seqNo + 1, Round6(Later(time, log.lastAt)), e);
    AppendMalformed(codec, log.text, Written(codec, log, time, e));
  }

  lemma AppendMalformed(codec: Codec, text: string, more: string)
    requires Terminated(text) && Lines(codec, more) != [] && Lines(codec, more)[0] == Malformed
    ensures var n, lines := |Lines(codec, text)|, Lines(codec, text + more);
      n < |lines| && lines[n] == Malformed
  {
    LinesAppend(codec, text, more);
  }

  /**
   Whatever the clock does and however often the log is reopened, the file is accepted
   exactly when no text given to emit holds a line separator.
   */
  lemma LogAccepted(codec: Codec, acts: seq<Action>)
    requires Conforms(codec) && ValidActions(codec, acts)
    ensures Problems(Lines(codec, Play(codec, acts).log.text)) == [] <==> NoSeparators(codec, acts)
  {
    if a :| a in acts && a.Emit? && HasBreak(Tail(codec, a.entry)) {
      var n :| 0 <= n < |acts| && acts[n] == a;
      BrokenStays(codec, acts, n);
    } else {
      IntactSession(codec, acts);
      HonestAccepted(Lines(codec, Play(codec, acts).log.text));
    }
  }

  // ---- Tampering --------------------------------------------------------------------------------

  /** An accepted list of this log's events has numbers 1, 2, 3, ... */
  lemma {:induction false} AcceptedNumbers(log: seq<Line>, lines: seq<Line>)
    requires Honest(log) && (forall l :: l in lines ==> l in log) && Problems(lines) == []
    ensures lines <= log && Checked(lines).expected == |lines| + 1
  {
    if lines != [] {
      var before, last := lines[..|lines| - 1], lines[|lines| - 1];
      assert lines == before + [last];
      LineKeepsReports(Checked(before), |lines|, last);
      assert last in lines;
      AcceptedNumbers(log, before);
      AcceptedNext(log, before, last, Checked(before));
    }
  }

  lemma AcceptedNext(log: seq<Line>, before: seq<Line>, l: Line, c: Check)
    requires Honest(log) && before <= log && l in log
    requires c.expected == |before| + 1 && c.problems == [] && CheckLine(c, |before| + 1, l).problems == []
    ensures before + [l] <= log && CheckLine(c, |before| + 1, l).expected == |before| + 2
  {
    var k :| 0 <= k < |log| && log[k] == l;
    assert HoldsEvent(log, k);
    NextNumber(c, |before| + 1, k, TimeOf(l));
  }

  lemma NextNumber(c: Check, line: nat, k: nat, at: real)
    requires c.problems == [] && CheckLine(c, line, Event(k + 1, at)).problems == []
    ensures k + 1 == c.expected && CheckLine(c, line, Event(k + 1, at)).expected == c.expected + 1
  {
    var s := CheckSeq(c, line, Proper(k + 1));
    assert |s.problems| <= |CheckLine(c, line, Event(k + 1, at)).problems|;
  }

  /**
   Integrity: any list of this log's lines, some deleted, repeated or moved, is accepted
   exactly when it is the beginning of the log.
   */
  lemma OnlyPrefixesAccepted(log: seq<Line>, lines: seq<Line>)
    requires Honest(log) && forall l :: l in lines ==> l in log
    ensures Problems(lines) == [] <==> lines <= log
  {
    if Problems(lines) == [] {
      AcceptedNumbers(log, lines);
    }
    if lines <= log {
      HonestPrefix(log, |lines|);
      assert log[..|lines|] == lines;
      HonestAccepted(lines);
    }
  }

  // ---- Deleted lines -------------------------------------------------------------------------------

  /** The lines of the log that are kept. */
  function Survivors(log: seq<Line>, kept: seq<bool>): seq<Line>
    requires |kept| == |log|
  {
    if log == [] then []
    else
      var n := |log| - 1;
      Survivors(log[..n], kept[..n]) + if kept[n] then [log[n]] else []
  }

  /** The maximal deleted blocks that some kept line follows. */
  function Blocks(kept: seq<bool>): nat {
    if kept == [] then 0
    else
      var n := |kept| - 1;
      Blocks(kept[..n]) + if kept[n] && n > 0 && !kept[n - 1] then 1 else 0
  }

  // The number of the last kept line, 0 if there is none.
  function LastKept(kept: seq<bool>): nat {
    if kept == [] then 0 else if kept[|kept| - 1] then |kept| else LastKept(kept[..|kept| - 1])
  }

  lemma {:induction false} LastKeptBelow(kept: seq<bool>)
    ensures LastKept(kept) <= |kept|
    ensures LastKept(kept) == |kept| <==> kept == [] || kept[|kept| - 1]
    ensures LastKept(kept) > 0 ==> kept[LastKept(kept) - 1]
  {
    if kept != [] && !kept[|kept| - 1] {
      LastKeptBelow(kept[..|kept| - 1]);
    }
  }

  /** What the integrity check knows after the kept lines. */
  ghost predicate Audited(log: seq<Line>, kept: seq<bool>)
    requires |kept| == |log|
  {
    var c, last := Checked(Survivors(log, kept)), LastKept(kept);
    && last <= |log| && c.expected == last + 1
    && (forall s :: s in c.seen ==> s <= last)
    && c.lastAt == (if last == 0 then None else Some(TimeOf(log[last - 1])))
    && |c.problems| == Blocks(kept) && forall p :: p in c.problems ==> p.SequenceGap?
  }

  lemma {:induction false} SurvivorsChecked(log: seq<Line>, kept: seq<bool>)
    requires Honest(log) && |kept| == |log|
    ensures Audited(log, kept)
  {
    if log != [] {
      var n := |log| - 1;
      HonestPrefix(log, n);
      SurvivorsChecked(log[..n], kept[..n]);
      if kept[n] {
        KeptNext(log, kept);
      } else {
        DroppedNext(log, kept);
      }
    }
  }

  lemma DroppedNext(log: seq<Line>, kept: seq<bool>)
    requires |kept| == |log| > 0 && !kept[|log| - 1]
    requires Audited(log[..|log| - 1], kept[..|log| - 1])
    ensures Audited(log, kept)
  {
    var n := |log| - 1;
    assert Survivors(log[..n], kept[..n]) + [] == Survivors(log[..n], kept[..n]);
  }

  lemma KeptNext(log: seq<Line>, kept: seq<bool>)
    requires Honest(log) && |kept| == |log| > 0 && kept[|log| - 1]
    requires Audited(log[..|log| - 1], kept[..|log| - 1])
    ensures Audited(log, kept)
  {
    var n := |log| - 1;
    LastKeptBelow(kept[..n]);
    assert HoldsEvent(log, n);
    SurvivorChecked(Survivors(log[..n], kept[..n]), n, TimeOf(log[n]));
  }

  lemma SurvivorChecked(before: seq<Line>, k: nat, at: real)
    requires var c := Checked(before);
      && c.expected <= k + 1 && (forall s :: s in c.seen ==> s < c.expected)
      && (c.lastAt.Some? ==> c.lastAt.value <= at) && forall p :: p in c.problems ==> p.SequenceGap?
    ensures var c, c' := Checked(before), Checked(before + [Event(k + 1, at)]);
      && c'.expected == k + 2 && (forall s :: s in c'.seen ==> s < c'.expected) && c'.lastAt == Some(at)
      && |c'.problems| == |c.problems| + (if c.expected == k + 1 then 0 else 1)
      && forall p :: p in c'.problems ==> p.SequenceGap?
  {
    CheckedNext(before, Event(k + 1, at));
    EventChecked(Checked(before), |before| + 1, k, at);
  }

  lemma CheckedNext(lines: seq<Line>, l: Line)
    ensures Checked(lines + [l]) == CheckLine(Checked(lines), |lines| + 1, l)
  {
    assert (lines + [l])[..|lines|] == lines;
  }

  /** Deletions are reported as gaps and nothing else, one for each deleted block that a kept line follows. */
  lemma OneReportPerBlock(log: seq<Line>, kept: seq<bool>)
    requires Honest(log) && |kept| == |log|
    ensures |Problems(Survivors(log, kept))| == Blocks(kept)
    ensures forall p :: p in Problems(Survivors(log, kept)) ==> p.SequenceGap?
  {
    SurvivorsChecked(log, kept);
  }

  // ---- A repeated line --------------------------------------------------------------------------

  /** The log with its k-th line written twice, up to line m of the original. */
  function Repeated(log: seq<Line>, k: nat, m: nat): seq<Line>
    requires k < m <= |log|
  {
    log[..k + 1] + log[k..m]
  }

  /** After the repeated line every line is behind the number expected. */
  ghost predicate Behind(c: Check, log: seq<Line>, k: nat, m: nat)
    requires k < m <= |log|
  {
    && c.expected == m + 2 && (forall s :: s in c.seen ==> s <= m)
    && c.lastAt == Some(TimeOf(log[m - 1])) && |c.problems| == m - k
  }

  lemma {:induction false} RepeatedChecked(log: seq<Line>, k: nat, m: nat)
    requires Honest(log) && k < m <= |log|
    ensures Behind(Checked(Repeated(log, k, m)), log, k, m)
  {
    if m == k + 1 {
      RepeatedFirst(log, k);
    } else {
      RepeatedChecked(log, k, m - 1);
      RepeatedStep(log, k, m - 1);
    }
  }

  lemma RepeatedStep(log: seq<Line>, k: nat, m: nat)
    requires Honest(log) && k < m < |log| && Behind(Checked(Repeated(log, k, m)), log, k, m)
    ensures Behind(Checked(Repeated(log, k, m + 1)), log, k, m + 1)
  {
    RepeatedNext(log, k, m, Checked(Repeated(log, k, m)));
    RepeatedGrows(log, k, m);
  }

  lemma RepeatedGrows(log: seq<Line>, k: nat, m: nat)
    requires k < m < |log|
    ensures Checked(Repeated(log, k, m + 1)) == CheckLine(Checked(Repeated(log, k, m)), m + 2, log[m])
  {
    RepeatedLines(log, k, m);
    CheckedNext(Repeated(log, k, m), log[m]);
  }

  lemma RepeatedLines(log: seq<Line>, k: nat, m: nat)
    requires k < m < |log|
    ensures Repeated(log, k, m + 1) == Repeated(log, k, m) + [log[m]] && |Repeated(log, k, m)| == m + 1
  {
  }

  lemma RepeatedNext(log: seq<Line>, k: nat, m: nat, c: Check)
    requires Honest(log) && k < m < |log| && Behind(c, log, k, m)
    ensures Behind(CheckLine(c, m + 2, log[m]), log, k, m + 1)
  {
    assert HoldsEvent(log, m);
    LateChecked(c, m + 2, m, TimeOf(log[m]));
  }

  lemma RepeatedFirst(log: seq<Line>, k: nat)
    requires Honest(log) && k < |log|
    ensures Behind(Checked(Repeated(log, k, k + 1)), log, k, k + 1)
  {
    HonestPrefix(log, k + 1);
    HonestAccepted(log[..k + 1]);
    assert log[..k + 1] == log[..k] + [log[k]];
    DuplicateChecked(log[..k], log[k]);
    assert Repeated(log, k, k + 1) == log[..k + 1] + [log[k]];
    CheckedNext(log[..k + 1], log[k]);
  }

  lemma DuplicateChecked(before: seq<Line>, l: Line)
    requires Honest(before + [l])
    ensures var n := |before| + 1; var c := Checked(before + [l]);
      CheckLine(c, n + 1, l) == c.(expected := n + 2, problems := [DuplicateSeq(n + 1, n)])
  {
    var n := |before| + 1;
    assert (before + [l])[..n - 1] == before;
    assert HoldsEvent(before + [l], n - 1);
    HonestAccepted(before + [l]);
    HonestPrefix(before + [l], n - 1);
    HonestAccepted(before);
    EventChecked(Checked(before), n, n - 1, TimeOf(l));
    assert Missing(l.fields) == [];
  }

  lemma LateChecked(c: Check, line: nat, k: nat, at: real)
    requires c.expected == k + 2 && (forall s :: s in c.seen ==> s <= k)
    requires c.lastAt.Some? ==> c.lastAt.value <= at
    ensures CheckLine(c, line, Event(k + 1, at))
         == Check(k + 3, Some(at), c.seen + {k + 1}, c.problems + [SequenceGap(line, k + 2, k + 1)])
  {
    assert Missing(Event(k + 1, at).fields) == [];
  }

  /** A single repeated line is reported once, and so is every untouched line after it. */
  lemma RepeatBuriesReport(log: seq<Line>, k: nat)
    requires Honest(log) && k < |log|
    ensures |Problems(log[..k + 1] + log[k..])| == 1 + (|log| - (k + 1))
  {
    RepeatedChecked(log, k, |log|);
    assert log[k..|log|] == log[k..];
  }

  // ---- Reopening -----------------------------------------------------------------------------------

  /** A piece of the text that reads as JSON but not as an object. */
  predicate HasScalar(codec: Codec, e: Entry) {
    NotObject in ReadAll(codec, LaterPieces(codec, e))
  }

  lemma EventScalar(codec: Codec, n: int, at: real, e: Entry)
    requires Conforms(codec) && ValidEntry(codec, e) && OnGrid(at)
    ensures NotObject in Lines(codec, EventText(codec, n, at, e) + "\n") <==> HasScalar(codec, e)
  {
    if HasBreak(Tail(codec, e)) {
      BrokenEvent(codec, n, at, e);
    } else {
      WholeEvent(codec, n, at, e);
      SplitFirst(Tail(codec, e), '\n', "");
      assert Tail(codec, e) + ['\n'] + "" == Tail(codec, e) + "\n";
    }
  }

  lemma WrittenScalar(codec: Codec, log: Log, time: real, e: Entry)
    requires Conforms(codec) && Terminated(log.text) && ValidEntry(codec, e)
    ensures NotObject in Lines(codec, log.text + Written(codec, log, time, e))
       <==> NotObject in Lines(codec, log.text) || HasScalar(codec, e)
  {
    LineScalar(codec, log, time, e);
    AppendHolds(codec, log.text, Written(codec, log, time, e));
  }

  lemma LineScalar(codec: Codec, log: Log, time: real, e: Entry)
    requires Conforms(codec) && ValidEntry(codec, e)
    ensures NotObject in Lines(codec, Written(codec, log, time, e)) <==> HasScalar(codec, e)
  {
    RoundTwice(Later(time, log.lastAt));
    EventScalar(codec, log.seqNo + 1, Round6(Later(time, log.lastAt)), e);
  }

  lemma AppendHolds(codec: Codec, text: string, more: string)
    requires Terminated(text)
    ensures NotObject in Lines(codec, text + more) <==> NotObject in Lines(codec, text) || NotObject in Lines(codec, more)
  {
    LinesAppend(codec, text, more);
  }

  lemma {:induction false} ScalarPieces(codec: Codec, acts: seq<Action>)
    requires Conforms(codec) && ValidActions(codec, acts)
    ensures NotObject in Lines(codec, Play(codec, acts).log.text) <==> exists a :: a in acts && a.Emit? && HasScalar(codec, a.entry)
    ensures !Play(codec, acts).open ==> NotObject in Lines(codec, Play(codec, acts).log.text)
  {
    if acts != [] {
      var before, last := acts[..|acts| - 1], acts[|acts| - 1];
      assert acts == before + [last];
      assert forall a :: a in acts <==> a in before || a == last;
      ScalarPieces(codec, before);
      TextTerminated(codec, before);
      if Play(codec, before).open && last.Emit? {
        var log := Play(codec, before).log;
        WrittenScalar(codec, log, last.time, last.entry);
        assert Play(codec, acts).log.text == log.text + Written(codec, log, last.time, last.entry);
      }
    }
  }

  /** A log can be reopened exactly when no piece of a text given to emit reads as JSON that is no object. */
  lemma ReopensExactly(codec: Codec, acts: seq<Action>)
    requires Conforms(codec) && ValidActions(codec, acts)
    ensures Play(codec, acts + [Reopen]).open <==> forall a :: a in acts && a.Emit? ==> !HasScalar(codec, a.entry)
  {
    ScalarPieces(codec, acts);
    assert (acts + [Reopen])[..|acts|] == acts;
  }
}
