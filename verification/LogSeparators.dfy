/**
 One logged text with line separators makes the audit log unacceptable and impossible to reopen.

 The payload holds U+2028, the digit 5 and U+2028 again. Where it ends up in the text of
 the event is followed outwards, from the string through the payload and the members
 to the whole text, and the digit is then a line of its own.
 */
module LogSeparators {
  import opened Prelude
  import opened LogTexts
  import opened AuditLogs
  import J = JsonSpan

  const SEPARATOR := '\U{2028}'

  /** A payload with one text: a line separator, a five, a line separator. */
  function Divided(kind: seq<J.Unit>): Entry {
    Entry(kind, None, Member("", "text", J.Text([J.Plain(SEPARATOR), J.Plain('5'), J.Plain(SEPARATOR)]), J.Nil))
  }

  predicate WithinAt(part: string, whole: string, at: nat) {
    at + |part| <= |whole| && whole[at..at + |part|] == part
  }

  ghost predicate Within(part: string, whole: string) {
    exists at: nat :: WithinAt(part, whole, at)
  }

  lemma WithinPart(a: string, part: string, b: string)
    ensures Within(part, a + part + b)
  {
    assert WithinAt(part, a + part + b, |a|);
  }

  lemma WithinWithin(a: string, b: string, c: string)
    requires Within(a, b) && Within(b, c)
    ensures Within(a, c)
  {
    var i: nat :| WithinAt(a, b, i);
    var j: nat :| WithinAt(b, c, j);
    var u, w, x, y := c[..j], c[j + |b|..], b[..i], b[i + |a|..];
    assert c == u + b + w && b == x + a + y;
    assert c == (u + x) + a + (y + w);
    WithinPart(u + x, a, y + w);
  }

  lemma WithinQuote(us: seq<J.Unit>)
    ensures Within(J.RenderUnits(us), J.Quote(us))
  {
    WithinPart("\"", J.RenderUnits(us), "\"");
  }

  lemma WithinObject(open: string, members: J.Elements)
    ensures Within(J.RenderElements(members), J.Render(J.Object(open, members)))
  {
    WithinPart("{" + open, J.RenderElements(members), "}");
  }

  lemma WithinElements(before: string, name: string, v: J.Value, rest: J.Elements)
    ensures Within(J.Render(v), J.RenderElements(Member(before, name, v, rest)))
    ensures Within(J.RenderElements(rest), J.RenderElements(Member(before, name, v, rest)))
  {
    var key := before + (J.Quote(Units(name)) + ("" + ":" + " "));
    var tail := "" + if rest.Nil? then "" else ",";
    WithinPart(key, J.Render(v), tail + J.RenderElements(rest));
    assert key + J.Render(v) + (tail + J.RenderElements(rest)) == key + J.Render(v) + tail + J.RenderElements(rest);
    WithinPart(key + J.Render(v) + tail, J.RenderElements(rest), "");
    assert key + J.Render(v) + tail + J.RenderElements(rest) + "" == key + J.Render(v) + tail + J.RenderElements(rest);
  }

  lemma WithinRest(part: string, before: string, name: string, v: J.Value, rest: J.Elements)
    requires Within(part, J.RenderElements(rest))
    ensures Within(part, J.RenderElements(Member(before, name, v, rest)))
  {
    WithinElements(before, name, v, rest);
    WithinWithin(part, J.RenderElements(rest), J.RenderElements(Member(before, name, v, rest)));
  }

  lemma WithinPayload(part: string, payload: J.Elements)
    requires Within(part, J.RenderElements(payload))
    ensures Within(part, J.RenderElements(Member(" ", "payload", J.Object("", payload), J.Nil)))
  {
    var v := J.Object("", payload);
    WithinObject("", payload);
    WithinElements(" ", "payload", v, J.Nil);
    WithinWithin(part, J.RenderElements(payload), J.Render(v));
    WithinWithin(part, J.Render(v), J.RenderElements(Member(" ", "payload", v, J.Nil)));
  }

  /** What the payload's rendering holds, the text of the event holds. */
  lemma WithinTail(codec: Codec, e: Entry, part: string)
    requires Within(part, J.RenderElements(e.payload))
    ensures Within(part, Tail(codec, e))
  {
    var payload := Member(" ", "payload", J.Object("", e.payload), J.Nil);
    var nodeId := if e.node.Some? then J.Text(e.node.value) else J.Null;
    var node := Member(" ", "node_id", nodeId, payload);
    WithinPayload(part, e.payload);
    WithinRest(part, " ", "node_id", nodeId, payload);
    WithinRest(part, " ", "event_type", J.Text(e.kind), node);
    WithinRest(part, " ", "run_id", J.Text(codec.runId), Member(" ", "event_type", J.Text(e.kind), node));
    WithinClosed(part, J.RenderElements(Rest(codec, e)));
  }

  lemma WithinClosed(part: string, text: string)
    requires Within(part, text)
    ensures Within(part, text + "}")
  {
    WithinPart("", text, "}");
    assert "" + text + "}" == text + "}";
    WithinWithin(part, text, text + "}");
  }

  const FIVE := [SEPARATOR] + "5" + [SEPARATOR]

  lemma DividedHolds(codec: Codec, kind: seq<J.Unit>)
    ensures Within(FIVE, Tail(codec, Divided(kind)))
  {
    var us := [J.Plain(SEPARATOR), J.Plain('5'), J.Plain(SEPARATOR)];
    assert us[1..] == [J.Plain('5'), J.Plain(SEPARATOR)] && us[1..][1..] == [J.Plain(SEPARATOR)] && us[1..][1..][1..] == [];
    assert J.RenderUnits(us[1..][1..]) == [SEPARATOR];
    assert J.RenderUnits(us) == FIVE;
    WithinQuote(us);
    WithinElements("", "text", J.Text(us), J.Nil);
    WithinWithin(FIVE, J.Quote(us), J.RenderElements(Divided(kind).payload));
    WithinTail(codec, Divided(kind), FIVE);
  }

  lemma AroundFive(text: string, at: nat, more: string)
    requires WithinAt(FIVE, text, at)
    ensures text + more == (text[..at] + [SEPARATOR]) + ("5" + [SEPARATOR] + (text[at + 3..] + more))
  {
    assert text == text[..at] + text[at..at + 3] + text[at + 3..];
  }

  /** A five between two separators is a line of its own. */
  lemma FiveIsALine(text: string)
    requires Within(FIVE, text)
    ensures var lines := SplitLines(text + "\n"); |lines| > 1 && "5" in lines[1..]
    ensures HasBreak(text)
  {
    var at: nat :| WithinAt(FIVE, text, at);
    var before, rest := text[..at] + [SEPARATOR], text[at + 3..] + "\n";
    assert text[at..at + 3][0] == SEPARATOR && text[at] in text;
    AroundFive(text, at, "\n");
    SplitConcat(before, "5" + [SEPARATOR] + rest);
    SplitFirst("5", SEPARATOR, rest);
    var first := SplitLines(before);
    assert first != [];
    assert (first + (["5"] + SplitLines(rest)))[|first|] == "5";
  }

  /**
   One such event makes the file unacceptable and every later reopening raise, under
   any reader that takes 5 for a number.
   */
  lemma DividedBreaksLog(codec: Codec, kind: seq<J.Unit>, time: real)
    requires Conforms(codec) && codec.read("5") == NotObject && kind in codec.kinds && J.ValidUnits(kind)
    ensures var acts := [Emit(time, Divided(kind))];
      && Problems(Lines(codec, Play(codec, acts).log.text)) != []
      && !Play(codec, acts + [Reopen]).open
  {
    var acts, e := [Emit(time, Divided(kind))], Divided(kind);
    DividedValid(codec, kind);
    DividedHolds(codec, kind);
    FiveIsALine(Tail(codec, e));
    FiveIsScalar(codec, e);
    assert acts[0] in acts;
    LogAccepted(codec, acts);
    ReopensExactly(codec, acts);
  }

  lemma DividedValid(codec: Codec, kind: seq<J.Unit>)
    requires kind in codec.kinds && J.ValidUnits(kind)
    ensures ValidEntry(codec, Divided(kind))
  {
    PlainValid("text");
    ValidMember("", "text", J.Text([J.Plain(SEPARATOR), J.Plain('5'), J.Plain(SEPARATOR)]), J.Nil);
  }

  lemma FiveIsScalar(codec: Codec, e: Entry)
    requires codec.read("5") == NotObject && "5" in LaterPieces(codec, e)
    ensures HasScalar(codec, e)
  {
    var k :| 0 <= k < |LaterPieces(codec, e)| && LaterPieces(codec, e)[k] == "5";
    assert TrimRight("5") == "5" && Trim("5") == "5";
    assert ReadAll(codec, LaterPieces(codec, e))[k] == NotObject;
  }
}
