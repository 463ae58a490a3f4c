/**
 keel/governance/audit.py: the text an event is written as, and the lines it is read back as.

 Lines end where str.splitlines ends them. The JSON library is a codec: how it prints
 numbers, and what it reads a line as. All that is assumed of it is that it reads an
 event's own text as that event and rejects a text whose first brace is never closed.
 */
module LogTexts {
  import opened Prelude
  import J = JsonSpan

  // ---- What a line is read as ---------------------------------------------------------------

  // A JSON value found where a number belongs: a number, or something that may still convert to one.
  datatype Numeric<T> = Proper(value: T) | Odd(coerced: Option<T>)

  // The required fields of a record; run_id and event_type only matter for what they are compared with.
  datatype Fields = Fields(seqNo: Option<Numeric<int>>, at: Option<Numeric<real>>, ownRun: Option<bool>, knownType: Option<bool>)

  datatype Line = Blank | Malformed | NotObject | Object(fields: Fields)

  /** The line of an event written by this run. */
  function Event(seqNo: int, at: real): Line {
    Object(Fields(Some(Proper(seqNo)), Some(Proper(at)), Some(true), Some(true)))
  }

  // ---- Lines of a text ------------------------------------------------------------------------

  /** Where str.splitlines ends a line. */
  predicate IsBreak(c: char) {
    c == '\n' || c == '\r' || c == '\U{0b}' || c == '\U{0c}' || '\U{1c}' <= c <= '\U{1e}'
    || c == '\U{85}' || c == '\U{2028}' || c == '\U{2029}'
  }

  predicate HasBreak(s: string) {
    exists c :: c in s && IsBreak(c)
  }

  /** How long the first line is. */
  function LineLength(text: string): (n: nat)
    ensures n <= |text| && forall k :: 0 <= k < n ==> !IsBreak(text[k])
    ensures n < |text| ==> IsBreak(text[n])
  {
    if text == "" || IsBreak(text[0]) then 0 else 1 + LineLength(text[1..])
  }

  function NextLine(text: string, n: nat): (next: nat)
    requires n < |text|
    ensures n < next <= |text|
  {
    if n + 1 < |text| && text[n] == '\r' && text[n + 1] == '\n' then n + 2 else n + 1
  }

  function SplitLines(text: string): seq<string>
    decreases |text|
  {
    if text == "" then []
    else
      var n := LineLength(text);
      if n == |text| then [text] else [text[..n]] + SplitLines(text[NextLine(text, n)..])
  }

  lemma LineLengthIs(text: string, n: nat)
    requires n <= |text| && (forall k :: 0 <= k < n ==> !IsBreak(text[k])) && (n < |text| ==> IsBreak(text[n]))
    ensures LineLength(text) == n
  {
    if LineLength(text) < n {
      assert IsBreak(text[LineLength(text)]);
    }
  }

  /** A line that is ended by a character other than a carriage return. */
  lemma SplitFirst(line: string, c: char, rest: string)
    requires !HasBreak(line) && IsBreak(c) && c != '\r'
    ensures SplitLines(line + [c] + rest) == [line] + SplitLines(rest)
  {
    var text := line + [c] + rest;
    forall k | 0 <= k < |line|
      ensures !IsBreak(text[k])
    {
      assert text[k] == line[k] && line[k] in line;
    }
    LineLengthIs(text, |line|);
    assert text[..|line|] == line;
    assert text[|line| + 1..] == rest;
  }

  /** The text ends where a line ends, whatever may follow. */
  predicate Terminated(text: string) {
    text == "" || (IsBreak(text[|text| - 1]) && text[|text| - 1] != '\r')
  }

  lemma SplitOpen(text: string, n: nat, next: nat)
    requires n < |text| && n == LineLength(text) && next == NextLine(text, n)
    ensures SplitLines(text) == [text[..n]] + SplitLines(text[next..])
  {
  }

  lemma SameFirst(a: string, b: string)
    requires a != "" && Terminated(a)
    ensures var n := LineLength(a);
      && n < |a| && LineLength(a + b) == n && NextLine(a + b, n) == NextLine(a, n)
      && Terminated(a[NextLine(a, n)..])
  {
    var n := LineLength(a);
    assert IsBreak(a[|a| - 1]);
    LineLengthIs(a + b, n);
  }

  /** What is appended after the end of a line leaves the lines before as they were. */
  lemma {:induction false} SplitConcat(a: string, b: string)
    requires Terminated(a)
    ensures SplitLines(a + b) == SplitLines(a) + SplitLines(b)
    decreases |a|
  {
    if a == "" {
      assert a + b == b;
    } else {
      var n := LineLength(a);
      SameFirst(a, b);
      var next := NextLine(a, n);
      SplitConcat(a[next..], b);
      ConcatStep(a, b, n, next);
    }
  }

  lemma ConcatStep(a: string, b: string, n: nat, next: nat)
    requires n < |a| && n == LineLength(a) == LineLength(a + b) && next == NextLine(a, n) == NextLine(a + b, n)
    requires SplitLines(a[next..] + b) == SplitLines(a[next..]) + SplitLines(b)
    ensures SplitLines(a + b) == SplitLines(a) + SplitLines(b)
  {
    CutConcat(a, b, n);
    CutConcat(a, b, next);
    SplitOpen(a, n, next);
    SplitOpen(a + b, n, next);
    Regroup([a[..n]], SplitLines(a[next..]), SplitLines(b));
  }

  lemma CutConcat(a: string, b: string, n: nat)
    requires n <= |a|
    ensures (a + b)[..n] == a[..n] && (a + b)[n..] == a[n..] + b
  {
  }

  lemma Regroup<T>(a: seq<T>, b: seq<T>, c: seq<T>)
    ensures a + (b + c) == a + b + c
  {
  }

  /** Text without breaks in front only makes the first line longer. */
  lemma SplitBehind(head: string, text: string)
    requires !HasBreak(head) && text != "" && Terminated(text)
    ensures SplitLines(text) != [] && SplitLines(head + text) == [head + SplitLines(text)[0]] + SplitLines(text)[1..]
  {
    var n := LineLength(text);
    BehindLength(head, text);
    var next := NextLine(text, n);
    SplitOpen(text, n, next);
    BehindOpen(head, text, n, next);
    HeadOf(text[..n], SplitLines(text[next..]));
  }

  lemma BehindOpen(head: string, text: string, n: nat, next: nat)
    requires n < |text| && next == NextLine(text, n)
    requires LineLength(head + text) == |head| + n && NextLine(head + text, |head| + n) == |head| + next
    ensures SplitLines(head + text) == [head + text[..n]] + SplitLines(text[next..])
  {
    CutBehind(head, text, n);
    CutBehind(head, text, next);
    SplitOpen(head + text, |head| + n, |head| + next);
  }

  lemma CutBehind(head: string, text: string, n: nat)
    requires n <= |text|
    ensures (head + text)[..|head| + n] == head + text[..n] && (head + text)[|head| + n..] == text[n..]
  {
  }

  lemma HeadOf<T>(x: T, rest: seq<T>)
    ensures ([x] + rest)[0] == x && ([x] + rest)[1..] == rest
  {
  }

  lemma BehindLength(head: string, text: string)
    requires !HasBreak(head)
    ensures var n := LineLength(text);
      && LineLength(head + text) == |head| + n
      && (n < |text| ==> NextLine(head + text, |head| + n) == |head| + NextLine(text, n))
      && (text != "" && Terminated(text) ==> n < |text|)
  {
    var n, all := LineLength(text), head + text;
    forall k | 0 <= k < |head| + n
      ensures !IsBreak(all[k])
    {
      if k < |head| {
        assert all[k] == head[k] && head[k] in head;
      } else {
        assert all[k] == text[k - |head|];
      }
    }
    LineLengthIs(all, |head| + n);
    if text != "" && Terminated(text) {
      assert IsBreak(text[|text| - 1]);
    }
  }

  lemma {:induction false} TrimRightPrefix(s: string)
    ensures TrimRight(s) <= s
    ensures s != "" && !IsSpace(s[0]) ==> TrimRight(s) != ""
  {
    if s != "" && IsSpace(s[|s| - 1]) {
      TrimRightPrefix(s[..|s| - 1]);
    }
  }

  // ---- The text of an event ---------------------------------------------------------------------

  // What emit is given besides the clock: the event type's text, the node id if any, the payload's members.
  datatype Entry = Entry(kind: seq<J.Unit>, node: Option<seq<J.Unit>>, payload: J.Elements)

  // The log's run id, the texts of the known event types, how the library prints numbers
  // and times, and what it makes of a line.
  datatype Codec = Codec(runId: seq<J.Unit>, kinds: set<seq<J.Unit>>, count: int -> J.Number, stamp: real -> J.Number,
                         read: string -> Line)

  function Units(s: string): (us: seq<J.Unit>)
    ensures |us| == |s| && forall i :: 0 <= i < |s| ==> us[i] == J.Plain(s[i])
  {
    seq(|s|, i requires 0 <= i < |s| => J.Plain(s[i]))
  }

  function Member(before: string, name: string, v: J.Value, rest: J.Elements): J.Elements {
    J.Cons(before, J.Named(Units(name), "", " "), v, "", rest)
  }

  /** The members after "seq" and "at". */
  function Rest(codec: Codec, e: Entry): J.Elements {
    Member(" ", "run_id", J.Text(codec.runId),
    Member(" ", "event_type", J.Text(e.kind),
    Member(" ", "node_id", if e.node.Some? then J.Text(e.node.value) else J.Null,
    Member(" ", "payload", J.Object("", e.payload), J.Nil))))
  }

  /** _event_to_json */
  function EventValue(codec: Codec, n: int, at: real, e: Entry): J.Value {
    J.Object("", Member("", "seq", J.Num(codec.count(n)), Member(" ", "at", J.Num(codec.stamp(at)), Rest(codec, e))))
  }

  /** What json.dumps makes of it. */
  function EventText(codec: Codec, n: int, at: real, e: Entry): string {
    J.Render(EventValue(codec, n, at, e))
  }

  function MemberText(before: string, name: string, value: string): string {
    before + (J.Quote(Units(name)) + ": ") + value + ","
  }

  function Head(codec: Codec, n: int, at: real): string {
    "{" + MemberText("", "seq", J.RenderNumber(codec.count(n))) + MemberText(" ", "at", J.RenderNumber(codec.stamp(at)))
  }

  /** The part of the text that depends on what is logged. */
  function Tail(codec: Codec, e: Entry): string {
    J.RenderElements(Rest(codec, e)) + "}"
  }

  predicate ValidEntry(codec: Codec, e: Entry) {
    && e.kind in codec.kinds && J.ValidUnits(e.kind)
    && (e.node.Some? ==> J.ValidUnits(e.node.value)) && J.ValidElements(e.payload, true)
  }

  /**
   The library prints numbers as JSON numbers, reads an event's text back as that
   event, and rejects a text whose first brace is never closed.
   */
  ghost predicate Conforms(codec: Codec) {
    && Prints(codec)
    && (forall n, at, e :: ValidEntry(codec, e) ==> ReadsBack(codec, n, at, e))
    && (forall t :: Unclosed(t) ==> codec.read(t) == Malformed)
  }

  ghost predicate Prints(codec: Codec) {
    && J.ValidUnits(codec.runId)
    && (forall n :: J.ValidNumber(codec.count(n)))
    && (forall at :: J.ValidNumber(codec.stamp(at)))
  }

  // Times are compared as they are written, to the microsecond.
  predicate ReadsBack(codec: Codec, n: int, at: real, e: Entry) {
    OnGrid(at) ==> codec.read(EventText(codec, n, at, e)) == Event(n, at)
  }

  predicate Unclosed(t: string) {
    t != "" && t[0] == '{' && J.After(J.BEGIN, t).Some?
  }

  /** One line separator: a carriage return and line feed together, or any other break on its own. */
  predicate OneBreak(sep: string, after: string) {
    || sep == "\r\n"
    || (|sep| == 1 && IsBreak(sep[0]) && (sep == "\r" && after != "" ==> after[0] != '\n'))
  }

  /** Lines are cut at every separator, one by one; the text after the last one is a line if it is not empty. */
  lemma LineByLine(line: string, sep: string, after: string)
    requires IsPlain(line)
    ensures OneBreak(sep, after) ==> SplitLines(line + sep + after) == [line] + SplitLines(after)
    ensures SplitLines(line) == if line == "" then [] else [line]
  {
    PlainLength(line, "");
    assert line + "" == line;
    if OneBreak(sep, after) {
      PlainLength(line, sep + after);
      assert line + sep + after == line + (sep + after);
      NextAfter(line, sep, after);
    }
  }

  lemma {:induction false} PlainLength(line: string, after: string)
    requires IsPlain(line) && (after != "" ==> IsBreak(after[0]))
    ensures LineLength(line + after) == |line|
  {
    if line != "" {
      assert (line + after)[1..] == line[1..] + after;
      PlainLength(line[1..], after);
    } else {
      assert line + after == after;
    }
  }

  lemma NextAfter(line: string, sep: string, after: string)
    requires OneBreak(sep, after)
    ensures var text := line + sep + after;
      |line| < |text| && text[..|line|] == line && NextLine(text, |line|) == |line| + |sep| && text[|line| + |sep|..] == after
  {
    var text := line + sep + after;
    assert text[|line|] == sep[0];
    assert |line| + 1 < |text| ==> text[|line| + 1] == if |sep| == 2 then sep[1] else after[0];
  }

  // ---- Times -------------------------------------------------------------------------------------

  /** The nearest integer, ties to even. */
  function Nearest(y: real): int {
    var n := y.Floor;
    var part := y - n as real;
    if part < 0.5 || (part == 0.5 && n % 2 == 0) then n else n + 1
  }

  function Round6(x: real): real {
    Nearest(x * 1000000.0) as real / 1000000.0
  }

  predicate OnGrid(at: real) {
    Round6(at) == at
  }

  lemma NearestBetween(y: real)
    ensures Nearest(y) as real - 0.5 <= y <= Nearest(y) as real + 0.5
    ensures (Nearest(y) as real - 0.5 == y || y == Nearest(y) as real + 0.5) ==> Nearest(y) % 2 == 0
  {
  }

  lemma RoundMonotone(x: real, y: real)
    requires x <= y
    ensures Round6(x) <= Round6(y)
  {
    var a, b := x * 1000000.0, y * 1000000.0;
    NearestBetween(a);
    NearestBetween(b);
    assert Nearest(a) <= Nearest(b);
  }

  lemma RoundTwice(x: real)
    ensures OnGrid(Round6(x))
  {
    var n := Nearest(x * 1000000.0);
    assert Round6(x) * 1000000.0 == n as real;
    assert Nearest(n as real) == n;
  }

  // ---- Reading an event back ----------------------------------------------------------------------

  function ReadLine(codec: Codec, raw: string): Line {
    var t := Trim(raw);
    if t == "" then Blank else codec.read(t)
  }

  function ReadAll(codec: Codec, raws: seq<string>): (lines: seq<Line>)
    ensures |lines| == |raws| && forall i :: 0 <= i < |raws| ==> lines[i] == ReadLine(codec, raws[i])
  {
    seq(|raws|, i requires 0 <= i < |raws| => ReadLine(codec, raws[i]))
  }

  function Lines(codec: Codec, text: string): seq<Line> {
    ReadAll(codec, SplitLines(text))
  }

  /** The lines an event's text is read back as after its first one. */
  function LaterPieces(codec: Codec, e: Entry): seq<string> {
    var pieces := SplitLines(Tail(codec, e) + "\n");
    if pieces == [] then [] else pieces[1..]
  }

  lemma RenderMember(before: string, name: string, v: J.Value, rest: J.Elements)
    requires rest.Cons?
    ensures J.RenderElements(Member(before, name, v, rest)) == MemberText(before, name, J.Render(v)) + J.RenderElements(rest)
  {
    assert "" + ":" + " " == ": ";
    assert "" + "," == ",";
  }

  lemma RenderLast(before: string, name: string, v: J.Value)
    ensures J.RenderElements(Member(before, name, v, J.Nil)) == before + (J.Quote(Units(name)) + ": ") + J.Render(v)
  {
    assert "" + ":" + " " == ": ";
  }

  lemma TextParts(codec: Codec, n: int, at: real, e: Entry)
    ensures EventText(codec, n, at, e) == Head(codec, n, at) + Tail(codec, e)
  {
    var rest := Rest(codec, e);
    var count, stamp := J.Num(codec.count(n)), J.Num(codec.stamp(at));
    RenderMember(" ", "at", stamp, rest);
    RenderMember("", "seq", count, Member(" ", "at", stamp, rest));
    JoinParts(MemberText("", "seq", J.Render(count)), MemberText(" ", "at", J.Render(stamp)), J.RenderElements(rest));
  }

  lemma JoinParts(a: string, b: string, c: string)
    ensures ("{" + "") + (a + (b + c)) + "}" == "{" + a + b + (c + "}")
  {
    assert "{" + "" == "{";
  }

  lemma ValidMember(before: string, name: string, v: J.Value, rest: J.Elements)
    requires (before == "" || before == " ") && J.ValidUnits(Units(name)) && J.Valid(v) && J.ValidElements(rest, true)
    ensures J.ValidElements(Member(before, name, v, rest), true)
  {
  }

  lemma NamesValid()
    ensures J.ValidUnits(Units("seq")) && J.ValidUnits(Units("at")) && J.ValidUnits(Units("run_id"))
    ensures J.ValidUnits(Units("event_type")) && J.ValidUnits(Units("node_id")) && J.ValidUnits(Units("payload"))
  {
    PlainValid("seq");
    PlainValid("at");
    PlainValid("run_id");
    PlainValid("event_type");
    PlainValid("node_id");
    PlainValid("payload");
  }

  lemma PlainValid(s: string)
    requires forall i :: 0 <= i < |s| ==> s[i] >= ' ' && s[i] != '"' && s[i] != '\\'
    ensures J.ValidUnits(Units(s))
  {
  }

  lemma EventValid(codec: Codec, n: int, at: real, e: Entry)
    requires Prints(codec) && ValidEntry(codec, e)
    ensures J.Valid(EventValue(codec, n, at, e))
  {
    NamesValid();
    var payload := Member(" ", "payload", J.Object("", e.payload), J.Nil);
    ValidMember(" ", "payload", J.Object("", e.payload), J.Nil);
    var nodeId := if e.node.Some? then J.Text(e.node.value) else J.Null;
    ValidMember(" ", "node_id", nodeId, payload);
    var node := Member(" ", "node_id", nodeId, payload);
    ValidMember(" ", "event_type", J.Text(e.kind), node);
    ValidMember(" ", "run_id", J.Text(codec.runId), Member(" ", "event_type", J.Text(e.kind), node));
    ValidMember(" ", "at", J.Num(codec.stamp(at)), Rest(codec, e));
    ValidMember("", "seq", J.Num(codec.count(n)), Member(" ", "at", J.Num(codec.stamp(at)), Rest(codec, e)));
  }

  // ---- Which texts are read back whole ---------------------------------------------------------------

  predicate IsPlain(s: string) {
    forall i :: 0 <= i < |s| ==> !IsBreak(s[i])
  }

  lemma PlainBreak(s: string)
    ensures HasBreak(s) <==> !IsPlain(s)
  {
    if c :| c in s && IsBreak(c) {
      var i :| 0 <= i < |s| && s[i] == c;
    } else {
      forall i | 0 <= i < |s|
        ensures !IsBreak(s[i])
      {
        assert s[i] in s;
      }
    }
  }

  lemma NumberPlain(n: J.Number)
    requires J.ValidNumber(n)
    ensures IsPlain(J.RenderNumber(n))
  {
    var text := J.RenderNumber(n);
    forall i | 0 <= i < |text|
      ensures !IsBreak(text[i])
    {
      assert text[i] in text;
    }
  }

  lemma {:induction false} UnitsRender(s: string, us: seq<J.Unit>)
    requires us == Units(s)
    ensures J.RenderUnits(us) == s
  {
    if s != "" {
      UnitsRender(s[1..], us[1..]);
      assert s == [s[0]] + s[1..];
    }
  }

  lemma MemberPlain(before: string, name: string, value: string)
    requires IsPlain(before) && IsPlain(name) && IsPlain(value)
    ensures IsPlain(MemberText(before, name, value))
  {
    UnitsRender(name, Units(name));
  }

  /** Number and time bring no separator. */
  lemma HeadPlain(codec: Codec, n: int, at: real)
    requires Conforms(codec)
    ensures !HasBreak(Head(codec, n, at))
  {
    NumberPlain(codec.count(n));
    NumberPlain(codec.stamp(at));
    MemberPlain("", "seq", J.RenderNumber(codec.count(n)));
    MemberPlain(" ", "at", J.RenderNumber(codec.stamp(at)));
    PlainBreak(Head(codec, n, at));
  }

  lemma TrimEvent(codec: Codec, n: int, at: real, e: Entry)
    ensures var text := EventText(codec, n, at, e);
      text != "" && text[0] == '{' && Trim(text) == text
  {
    var text := EventText(codec, n, at, e);
    assert text[0] == '{' && text[|text| - 1] == '}';
  }

  /** The beginning of a rendered object is not read as JSON, trimmed or not. */
  lemma CutUnclosed(v: J.Value, cut: nat)
    requires v.Object? && J.Valid(v) && 0 < cut < |J.Render(v)|
    ensures Unclosed(J.Render(v)[..cut])
  {
    J.SpansItself(v);
    var text := J.Render(v);
    var body := text[..|text| - 1];
    assert text[0..] == text;
    J.AfterConcat(J.BEGIN, text[..cut], body[cut..]);
    assert text[..cut] + body[cut..] == body;
  }

  /** An event's text and a line feed are read back as that one event if the text holds no separator. */
  lemma WholeEvent(codec: Codec, n: int, at: real, e: Entry)
    requires Conforms(codec) && ValidEntry(codec, e) && OnGrid(at) && !HasBreak(Tail(codec, e))
    ensures Lines(codec, EventText(codec, n, at, e) + "\n") == [Event(n, at)]
  {
    var text := EventText(codec, n, at, e);
    TextParts(codec, n, at, e);
    HeadPlain(codec, n, at);
    assert !HasBreak(text);
    SplitFirst(text, '\n', "");
    assert text + ['\n'] + "" == text + "\n";
    TrimEvent(codec, n, at, e);
    assert ReadsBack(codec, n, at, e);
  }

  /** ... and otherwise as a malformed line and the pieces after it. */
  lemma BrokenEvent(codec: Codec, n: int, at: real, e: Entry)
    requires Conforms(codec) && ValidEntry(codec, e) && HasBreak(Tail(codec, e))
    ensures Lines(codec, EventText(codec, n, at, e) + "\n") == [Malformed] + ReadAll(codec, LaterPieces(codec, e))
  {
    var text, tail := EventText(codec, n, at, e), Tail(codec, e);
    TextParts(codec, n, at, e);
    HeadPlain(codec, n, at);
    var head, pieces := Head(codec, n, at), SplitLines(tail + "\n");
    SplitBehind(head, tail + "\n");
    assert head + (tail + "\n") == text + "\n";
    FirstCut(codec, n, at, e, pieces[0]);
    ReadAllCons(codec, head + pieces[0], pieces[1..]);
  }

  lemma ReadAllCons(codec: Codec, raw: string, raws: seq<string>)
    ensures ReadAll(codec, [raw] + raws) == [ReadLine(codec, raw)] + ReadAll(codec, raws)
  {
  }

  lemma FirstCut(codec: Codec, n: int, at: real, e: Entry, first: string)
    requires Conforms(codec) && ValidEntry(codec, e) && HasBreak(Tail(codec, e))
    requires SplitLines(Tail(codec, e) + "\n") != [] && first == SplitLines(Tail(codec, e) + "\n")[0]
    ensures ReadLine(codec, Head(codec, n, at) + first) == Malformed
  {
    TextParts(codec, n, at, e);
    FirstLine(Tail(codec, e));
    EventValid(codec, n, at, e);
    CutInTail(codec, EventValue(codec, n, at, e), Head(codec, n, at), Tail(codec, e), first);
  }

  lemma CutInTail(codec: Codec, v: J.Value, head: string, tail: string, first: string)
    requires Conforms(codec) && v.Object? && J.Valid(v) && J.Render(v) == head + tail
    requires head != "" && |first| < |tail| && first == tail[..|first|]
    ensures ReadLine(codec, head + first) == Malformed
  {
    assert (head + tail)[..|head + first|] == head + first;
    CutMalformed(codec, v, |head + first|);
  }

  lemma CutMalformed(codec: Codec, v: J.Value, cut: nat)
    requires Conforms(codec) && v.Object? && J.Valid(v) && 0 < cut < |J.Render(v)|
    ensures ReadLine(codec, J.Render(v)[..cut]) == Malformed
  {
    var piece := J.Render(v)[..cut];
    assert piece[0] == '{';
    TrimRightPrefix(piece);
    var t := TrimRight(piece);
    assert t == J.Render(v)[..|t|];
    CutUnclosed(v, |t|);
  }

  /** The first line of a text with a separator ends before it. */
  lemma FirstLine(text: string)
    requires HasBreak(text)
    ensures var lines := SplitLines(text + "\n");
      lines != [] && |lines[0]| < |text| && lines[0] == text[..|lines[0]|]
  {
    var all := text + "\n";
    PlainBreak(text);
    var n := LineLength(all);
    assert n < |text| by {
      var i :| 0 <= i < |text| && IsBreak(text[i]);
      assert all[i] == text[i];
    }
    SplitOpen(all, n, NextLine(all, n));
  }
}
