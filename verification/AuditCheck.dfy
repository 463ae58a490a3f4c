/** What the audit log's checker reports. */
module AuditChecks {
  import opened Prelude
  import opened LogTexts
  import opened AuditLogs

  // ---- Lines, one by one ----------------------------------------------------------------

  predicate Absent(f: Fields, name: FieldName) {
    match name
    case SeqName => f.seqNo.None?
    case AtName => f.at.None?
    case RunIdName => f.ownRun.None?
    case EventTypeName => f.knownType.None?
  }

  function AbsentIn(f: Fields, names: seq<FieldName>): seq<FieldName> {
    Filter(names, name => Absent(f, name))
  }

  predicate Complete(l: Line) {
    l.Object? && l.fields.seqNo.Some? && l.fields.at.Some? && l.fields.ownRun.Some? && l.fields.knownType.Some?
  }

  const FIELDS: seq<FieldName> := [SeqName] + LATER_FIELDS
  const LATER_FIELDS: seq<FieldName> := [AtName] + LAST_FIELDS
  const LAST_FIELDS: seq<FieldName> := [RunIdName] + [EventTypeName]

  function NumberOn(l: Line): Option<int> {
    if Complete(l) && l.fields.seqNo.value.Proper? then Some(l.fields.seqNo.value.value) else None
  }

  function TimeOn(l: Line): Option<real> {
    if Complete(l) && l.fields.at.value.Proper? then Some(l.fields.at.value.value) else None
  }

  /** The sequence numbers found so far, in order. */
  function Numbers(lines: seq<Line>): seq<int> {
    if lines == [] then []
    else
      var before, n := Numbers(lines[..|lines| - 1]), NumberOn(lines[|lines| - 1]);
      if n.Some? then before + [n.value] else before
  }

  function TimesOn(lines: seq<Line>): seq<real> {
    if lines == [] then []
    else
      var before, t := TimesOn(lines[..|lines| - 1]), TimeOn(lines[|lines| - 1]);
      if t.Some? then before + [t.value] else before
  }

  /** The next number a writer would use that counts up from 1 and never falls behind what it has seen. */
  ghost predicate Expects(numbers: seq<int>, e: int) {
    && (forall j :: 0 <= j < |numbers| ==> e >= numbers[j] + (|numbers| - j))
    && e >= |numbers| + 1
    && (e == |numbers| + 1 || exists j :: 0 <= j < |numbers| && e == numbers[j] + (|numbers| - j))
  }

  lemma ExpectsOne(numbers: seq<int>, a: int, b: int)
    requires Expects(numbers, a) && Expects(numbers, b)
    ensures a == b
  {
  }

  // ---- What is reported ------------------------------------------------------------------

  function LineOf(p: Problem): nat {
    if p.MissingLog? then 0 else p.line
  }

  /** What is wrong with line l, number n, after the lines before it. */
  ghost predicate Finding(before: seq<Line>, n: nat, l: Line, p: Problem) {
    match p
    case MissingLog => false
    case BlankLine(k) => k == n && l == Blank
    case MalformedJson(k) => k == n && l == Malformed
    case NotAnObject(k) => k == n && l == NotObject
    case MissingFields(k, names) =>
      k == n && l.Object? && !Complete(l) && names == AbsentIn(l.fields, FIELDS)
    case SeqNotInteger(k) => k == n && Complete(l) && l.fields.seqNo.value.Odd?
    case DuplicateSeq(k, found) => k == n && NumberOn(l) == Some(found) && found in Numbers(before)
    case SequenceGap(k, expected, found) =>
      k == n && NumberOn(l) == Some(found) && found !in Numbers(before) && Expects(Numbers(before), expected) && found != expected
    case TimeNotNumber(k) => k == n && Complete(l) && l.fields.at.value.Odd?
    case TimeBackwards(k) =>
      k == n && TimeOn(l).Some? && TimesOn(before) != [] && TimeOn(l).value < TimesOn(before)[|TimesOn(before)| - 1]
    case WrongRun(k) => k == n && Complete(l) && !l.fields.ownRun.value
    case UnknownType(k) => k == n && Complete(l) && !l.fields.knownType.value
  }

  ghost predicate Found(lines: seq<Line>, p: Problem) {
    1 <= LineOf(p) <= |lines| && Finding(lines[..LineOf(p) - 1], LineOf(p), lines[LineOf(p) - 1], p)
  }

  // ---- The checker's state ------------------------------------------------------------------

  function LastOf(times: seq<real>): Option<real> {
    if times == [] then None else Some(times[|times| - 1])
  }

  ghost predicate Knows(c: Check, lines: seq<Line>) {
    Expects(Numbers(lines), c.expected) && c.seen == ToSet(Numbers(lines)) && c.lastAt == LastOf(TimesOn(lines))
  }

  lemma AbsentHead(name: FieldName, rest: seq<FieldName>, names: seq<FieldName>, f: Fields)
    requires names == [name] + rest
    ensures AbsentIn(f, names) == (if Absent(f, name) then [name] else []) + AbsentIn(f, rest)
  {
    assert names[1..] == rest;
  }

  lemma MissingAre(f: Fields)
    ensures Missing(f) == AbsentIn(f, FIELDS)
  {
    AbsentHead(EventTypeName, [], [EventTypeName], f);
    AbsentHead(RunIdName, [EventTypeName], LAST_FIELDS, f);
    AbsentHead(AtName, LAST_FIELDS, LATER_FIELDS, f);
    AbsentHead(SeqName, LATER_FIELDS, FIELDS, f);
    Joined(f, AbsentIn(f, [EventTypeName]));
  }

  lemma Joined(f: Fields, last: seq<FieldName>)
    requires last == if f.knownType.None? then [EventTypeName] else []
    ensures Missing(f) == (if f.seqNo.None? then [SeqName] else []) +
      ((if f.at.None? then [AtName] else []) + ((if f.ownRun.None? then [RunIdName] else []) + last))
  {
  }

  lemma CompleteIsWhole(f: Fields)
    ensures Missing(f) == [] <==> Complete(Object(f))
  {
    if Missing(f) == [] {
      NothingMissing(f);
    }
  }

  // ---- One line more -------------------------------------------------------------------------

  lemma ExpectsNext(numbers: seq<int>, e: int, found: int)
    requires Expects(numbers, e)
    ensures Expects(numbers + [found], (if e < found then found else e) + 1)
  {
    var next := (if e < found then found else e) + 1;
    var longer := numbers + [found];
    assert longer[|numbers|] == found;
    if next > |numbers| + 2 && e >= found {
      var j :| 0 <= j < |numbers| && e == numbers[j] + (|numbers| - j);
      assert longer[j] == numbers[j];
    }
  }

  lemma NoExpectation()
    ensures Expects([], 1)
  {
  }

  lemma Grown(lines: seq<Line>, l: Line)
    ensures Numbers(lines + [l]) == if NumberOn(l).Some? then Numbers(lines) + [NumberOn(l).value] else Numbers(lines)
    ensures TimesOn(lines + [l]) == if TimeOn(l).Some? then TimesOn(lines) + [TimeOn(l).value] else TimesOn(lines)
  {
    assert (lines + [l])[..|lines|] == lines;
  }

  lemma LineState(c: Check, n: nat, l: Line)
    ensures var c', m, t := CheckLine(c, n, l), NumberOn(l), TimeOn(l);
      && c'.expected == (if m.None? then c.expected else (if c.expected < m.value then m.value else c.expected) + 1)
      && c'.seen == (if m.None? then c.seen else c.seen + {m.value})
      && c'.lastAt == (if t.None? then c.lastAt else t)
  {
    if l.Object? {
      CompleteIsWhole(l.fields);
    }
  }

  lemma LineKnown(c: Check, lines: seq<Line>, n: nat, l: Line)
    requires Knows(c, lines)
    ensures Knows(CheckLine(c, n, l), lines + [l])
  {
    Grown(lines, l);
    LineState(c, n, l);
    if NumberOn(l).Some? {
      ExpectsNext(Numbers(lines), c.expected, NumberOn(l).value);
      assert ToSet(Numbers(lines) + [NumberOn(l).value]) == c.seen + {NumberOn(l).value};
    }
  }

  /** What one line adds to the list of problems. */
  lemma LineFindings(c: Check, lines: seq<Line>, n: nat, l: Line) returns (added: seq<Problem>)
    requires Knows(c, lines)
    ensures CheckLine(c, n, l).problems == c.problems + added
    ensures Distinct(added) && forall p :: p in added <==> Finding(lines, n, l, p)
  {
    if Complete(l) {
      added := CompleteFindings(c, lines, n, l);
    } else if l.Object? {
      added := PartialFindings(c, lines, n, l);
    } else {
      added := [if l.Blank? then BlankLine(n) else if l.Malformed? then MalformedJson(n) else NotAnObject(n)];
    }
  }

  lemma PartialFindings(c: Check, lines: seq<Line>, n: nat, l: Line) returns (added: seq<Problem>)
    requires l.Object? && !Complete(l)
    ensures CheckLine(c, n, l).problems == c.problems + added
    ensures Distinct(added) && forall p :: p in added <==> Finding(lines, n, l, p)
  {
    CompleteIsWhole(l.fields);
    MissingAre(l.fields);
    added := [MissingFields(n, Missing(l.fields))];
    forall p
      ensures Finding(lines, n, l, p) <==> p == added[0]
    {
      OnlyMissing(lines, n, l, p);
    }
  }

  lemma OnlyMissing(lines: seq<Line>, n: nat, l: Line, p: Problem)
    requires l.Object? && !Complete(l)
    ensures Finding(lines, n, l, p) <==> p == MissingFields(n, AbsentIn(l.fields, FIELDS))
  {
  }

  lemma CompleteFindings(c: Check, lines: seq<Line>, n: nat, l: Line) returns (added: seq<Problem>)
    requires Knows(c, lines) && Complete(l)
    ensures CheckLine(c, n, l).problems == c.problems + added
    ensures Distinct(added) && forall p :: p in added <==> Finding(lines, n, l, p)
  {
    CompleteIsWhole(l.fields);
    var f := l.fields;
    var a := SeqFindings(c, lines, n, l);
    var b := TimeFindings(CheckSeq(c, n, f.seqNo.value), lines, n, l);
    var d := RestFindings(CheckAt(CheckSeq(c, n, f.seqNo.value), n, f.at.value), lines, n, l);
    added := a + (b + d);
    DistinctJoin(b, d);
    DistinctJoin(a, b + d);
    assert c.problems + a + b + d == c.problems + added;
  }

  lemma DistinctJoin<T>(a: seq<T>, b: seq<T>)
    requires Distinct(a) && Distinct(b) && forall x :: x in a ==> x !in b
    ensures Distinct(a + b) && forall x :: x in a + b <==> x in a || x in b
  {
    var all := a + b;
    forall i, j | 0 <= i < j < |all|
      ensures all[i] != all[j]
    {
      if i < |a| <= j {
        assert all[i] in a && all[j] in b;
      }
    }
  }

  lemma RestFindings(c: Check, lines: seq<Line>, n: nat, l: Line) returns (added: seq<Problem>)
    requires Complete(l)
    ensures CheckRest(c, n, l.fields.ownRun.value, l.fields.knownType.value).problems == c.problems + added
    ensures Distinct(added)
    ensures forall p :: p in added <==> Finding(lines, n, l, p) && (p.WrongRun? || p.UnknownType?)
  {
    added := (if l.fields.ownRun.value then [] else [WrongRun(n)]) + if l.fields.knownType.value then [] else [UnknownType(n)];
  }

  lemma SeqFindings(c: Check, lines: seq<Line>, n: nat, l: Line) returns (added: seq<Problem>)
    requires Knows(c, lines) && Complete(l)
    ensures CheckSeq(c, n, l.fields.seqNo.value).problems == c.problems + added && CheckSeq(c, n, l.fields.seqNo.value).lastAt == c.lastAt
    ensures Distinct(added)
    ensures forall p :: p in added <==> Finding(lines, n, l, p) && (p.SeqNotInteger? || p.DuplicateSeq? || p.SequenceGap?)
  {
    var m := l.fields.seqNo.value;
    added := if m.Odd? then [SeqNotInteger(n)] else if m.value in c.seen then [DuplicateSeq(n, m.value)]
      else if m.value != c.expected then [SequenceGap(n, c.expected, m.value)] else [];
    forall p | Finding(lines, n, l, p) && p.SequenceGap?
      ensures p in added
    {
      ExpectsOne(Numbers(lines), p.expected, c.expected);
    }
  }

  lemma TimeFindings(c: Check, lines: seq<Line>, n: nat, l: Line) returns (added: seq<Problem>)
    requires c.lastAt == LastOf(TimesOn(lines)) && Complete(l)
    ensures CheckAt(c, n, l.fields.at.value).problems == c.problems + added
    ensures Distinct(added)
    ensures forall p :: p in added <==> Finding(lines, n, l, p) && (p.TimeNotNumber? || p.TimeBackwards?)
  {
    var m := l.fields.at.value;
    added := if m.Odd? then [TimeNotNumber(n)]
      else if c.lastAt.Some? && m.value < c.lastAt.value then [TimeBackwards(n)] else [];
  }

  // ---- All lines -----------------------------------------------------------------------------

  ghost predicate InLineOrder(ps: seq<Problem>) {
    forall i, j :: 0 <= i < j < |ps| ==> LineOf(ps[i]) <= LineOf(ps[j])
  }

  lemma FoundMore(lines: seq<Line>, p: Problem)
    requires lines != []
    ensures var k := |lines| - 1;
      Found(lines, p) <==> Found(lines[..k], p) || Finding(lines[..k], k + 1, lines[k], p)
  {
    var k := |lines| - 1;
    FindingLine(lines[..k], k + 1, lines[k], p);
    if 1 <= LineOf(p) <= k {
      SameBefore(lines, k, LineOf(p) - 1);
    }
  }

  lemma FindingLine(before: seq<Line>, n: nat, l: Line, p: Problem)
    ensures Finding(before, n, l, p) ==> LineOf(p) == n
  {
  }

  lemma SameBefore(lines: seq<Line>, k: nat, j: nat)
    requires j < k <= |lines|
    ensures lines[..k][..j] == lines[..j] && lines[..k][j] == lines[j]
  {
  }

  /** The state of the checker after the lines, and every problem found so far, none twice. */
  ghost predicate Told(c: Check, lines: seq<Line>) {
    && Knows(c, lines) && Distinct(c.problems) && InLineOrder(c.problems)
    && forall p :: p in c.problems <==> Found(lines, p)
  }

  lemma LineTold(c: Check, lines: seq<Line>, l: Line)
    requires Told(c, lines)
    ensures Told(CheckLine(c, |lines| + 1, l), lines + [l])
  {
    var n, big := |lines| + 1, lines + [l];
    LineKnown(c, lines, n, l);
    var added := LineFindings(c, lines, n, l);
    assert big[..|lines|] == lines && big[|lines|] == l;
    forall p
      ensures p in c.problems + added <==> Found(big, p)
      ensures p in added ==> LineOf(p) == n
      ensures p in c.problems ==> LineOf(p) < n
    {
      FoundMore(big, p);
    }
    DistinctJoin(c.problems, added);
    OrderJoin(c.problems, added, n);
  }

  lemma OrderJoin(a: seq<Problem>, b: seq<Problem>, n: nat)
    requires InLineOrder(a) && (forall p :: p in a ==> LineOf(p) < n) && forall p :: p in b ==> LineOf(p) == n
    ensures InLineOrder(a + b)
  {
    var all := a + b;
    forall i, j | 0 <= i < j < |all|
      ensures LineOf(all[i]) <= LineOf(all[j])
    {
      assert all[i] in a || all[i] in b;
      assert j >= |a| ==> all[j] in b;
    }
  }

  lemma {:induction false} CheckedTold(lines: seq<Line>)
    ensures Told(Checked(lines), lines)
  {
    if lines == [] {
      NoExpectation();
    } else {
      var k := |lines| - 1;
      CheckedTold(lines[..k]);
      assert lines == lines[..k] + [lines[k]];
      LineTold(Checked(lines[..k]), lines[..k], lines[k]);
    }
  }

  /**
   The report on any lines lists exactly their findings, in the order of the lines and none
   twice: a line that is blank, no JSON, no object or lacks fields; a number that is none,
   was seen before, or is not the next one; a time that is none or goes back; a line of
   another run; and a type that is unknown.
   */
  lemma ReportsExactly(lines: seq<Line>)
    ensures Distinct(Problems(lines)) && InLineOrder(Problems(lines))
    ensures forall p :: p in Problems(lines) <==> Found(lines, p)
  {
    CheckedTold(lines);
  }

  // ---- Nothing to report -----------------------------------------------------------------------

  /** Line i holds event number i + 1 of this run. */
  predicate InPlace(lines: seq<Line>, i: nat)
    requires i < |lines|
  {
    && NumberOn(lines[i]) == Some(i + 1) && TimeOn(lines[i]).Some?
    && lines[i].fields.ownRun.value && lines[i].fields.knownType.value
  }

  ghost predicate Clean(lines: seq<Line>) {
    && (forall i :: 0 <= i < |lines| ==> InPlace(lines, i))
    && (forall i, j :: 0 <= i < j < |lines| ==> NotLater(lines[i], lines[j]))
  }

  predicate NotLater(a: Line, b: Line) {
    TimeOn(a).Some? && TimeOn(b).Some? ==> TimeOn(a).value <= TimeOn(b).value
  }

  lemma {:induction false} CleanCounts(lines: seq<Line>)
    requires Clean(lines)
    ensures |Numbers(lines)| == |lines| && forall i :: 0 <= i < |lines| ==> Numbers(lines)[i] == i + 1
    ensures |TimesOn(lines)| == |lines| && forall i :: 0 <= i < |lines| ==> TimeOn(lines[i]) == Some(TimesOn(lines)[i])
  {
    if lines != [] {
      CleanPrefix(lines);
      CleanCounts(lines[..|lines| - 1]);
      assert InPlace(lines, |lines| - 1);
    }
  }

  lemma CleanPrefix(lines: seq<Line>)
    requires Clean(lines) && lines != []
    ensures Clean(lines[..|lines| - 1])
  {
    var shorter := lines[..|lines| - 1];
    forall i | 0 <= i < |shorter|
      ensures InPlace(shorter, i)
    {
      assert InPlace(lines, i);
    }
  }

  ghost predicate Faultless(before: seq<Line>, n: nat, l: Line) {
    forall p :: !Finding(before, n, l, p)
  }

  lemma FaultlessObject(before: seq<Line>, n: nat, l: Line)
    requires Faultless(before, n, l)
    ensures Complete(l)
  {
    assert !Finding(before, n, l, BlankLine(n)) && !Finding(before, n, l, MalformedJson(n)) && !Finding(before, n, l, NotAnObject(n));
    assert !Finding(before, n, l, MissingFields(n, AbsentIn(l.fields, FIELDS)));
  }

  lemma FaultlessFields(before: seq<Line>, n: nat, l: Line)
    requires Faultless(before, n, l) && Complete(l)
    ensures NumberOn(l).Some? && TimeOn(l).Some? && l.fields.ownRun.value && l.fields.knownType.value
  {
    assert !Finding(before, n, l, SeqNotInteger(n)) && !Finding(before, n, l, TimeNotNumber(n));
    assert !Finding(before, n, l, WrongRun(n)) && !Finding(before, n, l, UnknownType(n));
  }

  lemma FaultlessNumber(before: seq<Line>, n: nat, l: Line, e: int)
    requires Faultless(before, n, l) && NumberOn(l).Some? && Expects(Numbers(before), e)
    ensures NumberOn(l) == Some(e)
  {
    var found := NumberOn(l).value;
    assert !Finding(before, n, l, DuplicateSeq(n, found)) && !Finding(before, n, l, SequenceGap(n, e, found));
  }

  lemma FaultlessTime(before: seq<Line>, n: nat, l: Line)
    requires Faultless(before, n, l) && TimeOn(l).Some?
    ensures TimesOn(before) != [] ==> TimesOn(before)[|TimesOn(before)| - 1] <= TimeOn(l).value
  {
    assert !Finding(before, n, l, TimeBackwards(n));
  }

  lemma NextInPlace(before: seq<Line>, n: nat, l: Line)
    requires Clean(before) && n == |before| + 1 && Faultless(before, n, l)
    ensures Clean(before + [l])
  {
    var big := before + [l];
    CleanCounts(before);
    assert Expects(Numbers(before), n);
    FaultlessObject(before, n, l);
    FaultlessFields(before, n, l);
    FaultlessNumber(before, n, l, n);
    FaultlessTime(before, n, l);
    forall i | 0 <= i < |big|
      ensures InPlace(big, i)
    {
      assert i < |before| ==> InPlace(before, i);
    }
    forall i, j | 0 <= i < j < |big|
      ensures NotLater(big[i], big[j])
    {
      assert j < |before| ==> NotLater(before[i], before[j]);
      assert i < |before| - 1 && j == |before| ==> NotLater(before[i], before[|before| - 1]);
    }
  }

  lemma CleanFaultless(before: seq<Line>, n: nat, l: Line)
    requires Clean(before) && n == |before| + 1 && Clean(before + [l])
    ensures Faultless(before, n, l)
  {
    var big := before + [l];
    CleanCounts(before);
    assert InPlace(big, |before|) && big[|before|] == l;
    if before != [] {
      assert NotLater(big[|before| - 1], big[|before|]);
    }
    forall e | Expects(Numbers(before), e)
      ensures e == n
    {
      assert Expects(Numbers(before), n);
      ExpectsOne(Numbers(before), e, n);
    }
  }

  /**
   Any lines whatever are accepted if and only if every line is an object with all four
   fields, the numbers are 1, 2, 3 and so on, the times are numbers that never go back,
   every line is of this run, and every type is known.
   */
  lemma {:induction false} AcceptedExactly(lines: seq<Line>)
    ensures Problems(lines) == [] <==> Clean(lines)
  {
    if lines != [] {
      var k := |lines| - 1;
      AcceptedExactly(lines[..k]);
      CheckedTold(lines[..k]);
      assert lines == lines[..k] + [lines[k]];
      OneMoreAccepted(Checked(lines[..k]), lines[..k], lines[k]);
    }
  }

  lemma OneMoreAccepted(c: Check, before: seq<Line>, l: Line)
    requires Knows(c, before) && (c.problems == [] <==> Clean(before))
    ensures CheckLine(c, |before| + 1, l).problems == [] <==> Clean(before + [l])
  {
    var n := |before| + 1;
    var added := LineFindings(c, before, n, l);
    Inhabits(added);
    assert added == [] <==> Faultless(before, n, l);
    if Clean(before + [l]) {
      CleanPrefix(before + [l]);
      assert (before + [l])[..|before|] == before;
      CleanFaultless(before, n, l);
    }
    if Clean(before) && Faultless(before, n, l) {
      NextInPlace(before, n, l);
    }
  }

  lemma Inhabits<T>(xs: seq<T>)
    ensures xs == [] || exists x :: x in xs
  {
    if xs != [] {
      Inhabited(xs);
    }
  }

  // ---- What an honest log holds ------------------------------------------------------------------

  /** The clock readings of the emits so far. */
  function Readings(acts: seq<Action>): seq<real> {
    if acts == [] then []
    else
      var before := Readings(acts[..|acts| - 1]);
      if acts[|acts| - 1].Emit? then before + [acts[|acts| - 1].time] else before
  }

  ghost predicate IsLatest(readings: seq<real>, t: real) {
    && 0.0 <= t && (forall r :: r in readings ==> r <= t)
    && (t == 0.0 || t in readings)
  }

  /** Line i holds event i + 1, stamped with the latest clock reading up to then, to the microsecond. */
  ghost predicate Stamped(lines: seq<Line>, readings: seq<real>, i: nat)
    requires i < |lines| == |readings|
  {
    exists t :: IsLatest(readings[..i + 1], t) && lines[i] == Event(i + 1, Round6(t))
  }

  ghost predicate AllStamped(codec: Codec, log: Log, readings: seq<real>) {
    var lines := Lines(codec, log.text);
    && |lines| == |readings| && (forall i :: 0 <= i < |lines| ==> Stamped(lines, readings, i))
    && exists t :: IsLatest(readings, t) && log.lastAt == Round6(t)
  }

  lemma LatestLater(readings: seq<real>, t: real, time: real)
    requires IsLatest(readings, t)
    ensures IsLatest(readings + [time], Later(time, t))
  {
  }

  lemma RoundLater(time: real, t: real)
    ensures Round6(Later(time, Round6(t))) == Round6(Later(time, t))
  {
    ClampedRound(time, t);
  }

  /** A reading between a time and its rounding rounds to the same. */
  lemma ClampedRound(time: real, t: real)
    ensures time <= t ==> Round6(Later(time, Round6(t))) == Round6(t)
    ensures t <= time ==> Round6(Later(time, Round6(t))) == Round6(time)
  {
    RoundTwice(t);
    if time <= t {
      RoundMonotone(time, t);
      if time > Round6(t) {
        RoundMonotone(Round6(t), time);
      }
    } else {
      RoundMonotone(t, time);
      if time < Round6(t) {
        RoundMonotone(time, Round6(t));
      }
    }
  }

  lemma StampedEmit(codec: Codec, log: Log, readings: seq<real>, time: real, e: Entry)
    requires Conforms(codec) && ValidEntry(codec, e) && !HasBreak(Tail(codec, e)) && Intact(codec, log)
    requires AllStamped(codec, log, readings)
    ensures AllStamped(codec, Emitted(codec, log, time, e), readings + [time])
  {
    var t :| IsLatest(readings, t) && log.lastAt == Round6(t);
    var lines, at := Lines(codec, log.text), Round6(Later(time, log.lastAt));
    RoundTwice(Later(time, log.lastAt));
    WholeEvent(codec, log.seqNo + 1, at, e);
    LinesAppend(codec, log.text, Written(codec, log, time, e));
    LatestLater(readings, t, time);
    RoundLater(time, t);
    StampedNext(lines, lines + [Event(log.seqNo + 1, at)], readings, readings + [time], Later(time, t), log.seqNo);
  }

  lemma StampedNext(lines: seq<Line>, big: seq<Line>, readings: seq<real>, all: seq<real>, t: real, n: int)
    requires n == |lines| == |readings| && |all| == n + 1 && readings == all[..n] && IsLatest(all, t)
    requires forall i :: 0 <= i < |lines| ==> Stamped(lines, readings, i)
    requires big == lines + [Event(n + 1, Round6(t))]
    ensures forall i :: 0 <= i < |big| ==> Stamped(big, all, i)
  {
    forall i | 0 <= i < |big|
      ensures Stamped(big, all, i)
    {
      if i < |lines| {
        assert Stamped(lines, readings, i) && all[..i + 1] == readings[..i + 1];
      } else {
        assert all[..i + 1] == all;
      }
    }
  }

  /**
   While no text given to emit holds a line separator, the file holds exactly one line per
   emit, numbered in order and stamped with the latest clock reading so far, rounded,
   whatever the clock does and however often the log is reopened.
   */
  lemma {:induction false} LogHolds(codec: Codec, acts: seq<Action>)
    requires Conforms(codec) && ValidActions(codec, acts) && NoSeparators(codec, acts)
    ensures AllStamped(codec, Play(codec, acts).log, Readings(acts))
  {
    IntactSession(codec, acts);
    if acts == [] {
      assert IsLatest([], 0.0) && Round6(0.0) == 0.0;
    } else {
      var n := |acts| - 1;
      var before := acts[..n];
      LogHolds(codec, before);
      IntactSession(codec, before);
      assert acts[n] in acts;
      match acts[n]
      case Emit(time, e) => StampedEmit(codec, Play(codec, before).log, Readings(before), time, e);
      case Reopen => ReopenStaysIntact(codec, Play(codec, before).log);
    }
  }

  // ---- Opening any file ---------------------------------------------------------------------------

  /** A number as it stands, or what a string or the like can be turned into. */
  predicate ReadsAs<T(==)>(field: Numeric<T>, v: T) {
    field == Proper(v) || (field.Odd? && field.coerced == Some(v))
  }

  /** A line the loader takes an event from. */
  predicate Loads(l: Line, n: int, at: real) {
    && Complete(l) && l.fields.knownType.value
    && ReadsAs(l.fields.seqNo.value, n) && ReadsAs(l.fields.at.value, at)
  }

  lemma LoadsExactly(l: Line, n: int, at: real)
    ensures EventOn(l) == Some((n, at)) <==> Loads(l, n, at)
  {
  }

  ghost predicate IsHighest(lines: seq<Line>, n: int, at: real) {
    && (forall l, m, t :: l in lines && Loads(l, m, t) ==> m <= n && t <= at)
    && (exists l, t :: l in lines && Loads(l, n, t))
    && (exists l, m :: l in lines && Loads(l, m, at))
  }

  lemma {:induction false} HighestIs(lines: seq<Line>)
    ensures Highest(lines).None? ==> forall l, m, t :: l in lines ==> !Loads(l, m, t)
    ensures Highest(lines).Some? ==> IsHighest(lines, Highest(lines).value.0, Highest(lines).value.1)
  {
    if lines != [] {
      var before, l := lines[..|lines| - 1], lines[|lines| - 1];
      HighestIs(before);
      assert lines == before + [l];
      NextHighest(before, l);
    }
  }

  lemma NextHighest(before: seq<Line>, l: Line)
    requires Highest(before).None? ==> forall k, m, t :: k in before ==> !Loads(k, m, t)
    requires Highest(before).Some? ==> IsHighest(before, Highest(before).value.0, Highest(before).value.1)
    ensures Highest(before + [l]).None? ==> forall k, m, t :: k in before + [l] ==> !Loads(k, m, t)
    ensures Highest(before + [l]).Some? ==> IsHighest(before + [l], Highest(before + [l]).value.0, Highest(before + [l]).value.1)
  {
    assert (before + [l])[..|before|] == before;
    forall m, t
      ensures EventOn(l) == Some((m, t)) <==> Loads(l, m, t)
    {
      LoadsExactly(l, m, t);
    }
  }

  /**
   Opening any file raises exactly when some line is JSON but no object; otherwise the
   writer continues from the highest number and from the highest time among the lines
   that hold an event, or from 0 if none does.
   */
  lemma OpensAtHighest(codec: Codec, text: string)
    ensures var lines := Lines(codec, text);
      match Opened(codec, text)
      case None => NotObject in lines
      case Some(log) =>
        && NotObject !in lines && log.text == text
        && (IsHighest(lines, log.seqNo, log.lastAt) ||
            (log.seqNo == 0 && log.lastAt == 0.0 && forall l, m, t :: l in lines ==> !Loads(l, m, t)))
  {
    HighestIs(Lines(codec, text));
  }
}
