/**
 A codec that conforms: what the audit log asks of the JSON library can be met.

 Numbers are written as so many ones, which no comma interrupts, so the text of an
 event tells its number and its time. Reading a text looks for the event it is the
 text of; a text that is no event's is malformed, except a lone five, which is a
 number. The choice of printing is the simplest that keeps numbers apart.
 */
module LogCodec {
  import opened Prelude
  import opened LogTexts
  import J = JsonSpan

  // Numbers are written as so many ones.

  function Ones(k: nat): (s: string)
    ensures |s| == k + 1 && forall i :: 0 <= i < |s| ==> s[i] == '1'
  {
    seq(k + 1, _ => '1')
  }

  function Plainly(n: int): J.Number {
    J.Number(n < 0, Ones(if n < 0 then -n else n), None, None)
  }

  function Microseconds(at: real): int {
    (at * 1000000.0).Floor
  }

  function Printer(runId: seq<J.Unit>, kinds: set<seq<J.Unit>>, read: string -> Line): Codec {
    Codec(runId, kinds, n => Plainly(n), at => Plainly(Microseconds(at)), read)
  }

  lemma PlainlyValid(n: int)
    ensures J.ValidNumber(Plainly(n))
    ensures var text := J.RenderNumber(Plainly(n));
      ',' !in text && text == (if n < 0 then "-" else "") + Ones(if n < 0 then -n else n)
  {
    var text, whole := J.RenderNumber(Plainly(n)), Plainly(n).whole;
    assert forall c :: c in whole ==> c == '1';
    assert text == (if n < 0 then "-" else "") + whole + "" + "";
  }

  lemma PlainlyApart(n: int, m: int)
    requires J.RenderNumber(Plainly(n)) == J.RenderNumber(Plainly(m))
    ensures n == m
  {
    PlainlyValid(n);
    PlainlyValid(m);
    var a, b := J.RenderNumber(Plainly(n)), J.RenderNumber(Plainly(m));
    assert a[0] == if n < 0 then '-' else '1';
    assert b[0] == if m < 0 then '-' else '1';
  }

  lemma CommaAt(a: string, x: string, k: nat)
    requires ',' !in a && k < |a + "," + x| && (a + "," + x)[k] == ','
    ensures k >= |a|
  {
  }

  /** Texts that agree agree up to their first commas. */
  lemma UpToComma(a: string, x: string, b: string, y: string)
    requires a + "," + x == b + "," + y && ',' !in a && ',' !in b
    ensures a == b && x == y
  {
    var s := a + "," + x;
    CommaAt(a, x, |b|);
    CommaAt(b, y, |a|);
    assert s[..|a|] == a && s[..|b|] == b;
    assert s[|a| + 1..] == x && s[|b| + 1..] == y;
  }

  lemma AfterPrefix(p: string, x: string, y: string)
    requires p + x == p + y
    ensures x == y
  {
    assert (p + x)[|p|..] == x && (p + y)[|p|..] == y;
  }

  lemma GridApart(a: real, b: real)
    requires OnGrid(a) && OnGrid(b) && Microseconds(a) == Microseconds(b)
    ensures a == b
  {
    assert a * 1000000.0 == Nearest(a * 1000000.0) as real;
    assert b * 1000000.0 == Nearest(b * 1000000.0) as real;
  }

  function Before(name: string, before: string): string {
    before + (J.Quote(Units(name)) + ": ")
  }

  lemma HeadShape(c: Codec, n: int, at: real, tail: string)
    ensures var num, time := J.RenderNumber(c.count(n)), J.RenderNumber(c.stamp(at));
      Head(c, n, at) + tail == ("{" + Before("seq", "")) + (num + "," + (Before("at", " ") + (time + "," + tail)))
  {
    var num, time := J.RenderNumber(c.count(n)), J.RenderNumber(c.stamp(at));
    Parts("{", Before("seq", ""), num, Before("at", " "), time, tail);
  }

  lemma Parts(open: string, a: string, x: string, b: string, y: string, z: string)
    ensures open + (a + x + ",") + (b + y + ",") + z == (open + a) + (x + "," + (b + (y + "," + z)))
  {
  }

  /** The text of an event tells its number and its time. */
  lemma EventApart(c: Codec, n: int, at: real, e: Entry, n': int, at': real, e': Entry)
    requires c == Printer(c.runId, c.kinds, c.read) && OnGrid(at) && OnGrid(at')
    requires EventText(c, n, at, e) == EventText(c, n', at', e')
    ensures n == n' && at == at'
  {
    TextParts(c, n, at, e);
    TextParts(c, n', at', e');
    HeadApart(c, n, at, Tail(c, e), n', at', Tail(c, e'));
  }

  lemma HeadApart(c: Codec, n: int, at: real, tail: string, n': int, at': real, tail': string)
    requires c == Printer(c.runId, c.kinds, c.read) && OnGrid(at) && OnGrid(at')
    requires Head(c, n, at) + tail == Head(c, n', at') + tail'
    ensures n == n' && at == at'
  {
    HeadShape(c, n, at, tail);
    HeadShape(c, n', at', tail');
    var num, num' := J.RenderNumber(Plainly(n)), J.RenderNumber(Plainly(n'));
    var time, time' := J.RenderNumber(Plainly(Microseconds(at))), J.RenderNumber(Plainly(Microseconds(at')));
    PlainlyValid(n);
    PlainlyValid(n');
    PlainlyValid(Microseconds(at));
    PlainlyValid(Microseconds(at'));
    Apart("{" + Before("seq", ""), num, Before("at", " "), time, tail, num', time', tail');
    PlainlyApart(n, n');
    PlainlyApart(Microseconds(at), Microseconds(at'));
    GridApart(at, at');
  }

  lemma Apart(open: string, num: string, mid: string, time: string, tail: string, num': string, time': string, tail': string)
    requires open + (num + "," + (mid + (time + "," + tail))) == open + (num' + "," + (mid + (time' + "," + tail')))
    requires ',' !in num && ',' !in num' && ',' !in time && ',' !in time'
    ensures num == num' && time == time'
  {
    AfterPrefix(open, num + "," + (mid + (time + "," + tail)), num' + "," + (mid + (time' + "," + tail')));
    UpToComma(num, mid + (time + "," + tail), num', mid + (time' + "," + tail'));
    AfterPrefix(mid, time + "," + tail, time' + "," + tail');
    UpToComma(time, tail, time', tail');
  }

  // ---- Reading back -------------------------------------------------------------------------------

  ghost predicate TextOf(c: Codec, t: string, n: int, at: real, e: Entry) {
    ValidEntry(c, e) && OnGrid(at) && EventText(c, n, at, e) == t
  }

  /** Looks for the event a text is the text of. */
  ghost function Read(c: Codec, t: string): Line {
    if exists n, at, e :: TextOf(c, t, n, at, e) then
      var n, at, e :| TextOf(c, t, n, at, e);
      Event(n, at)
    else if t == "5" then NotObject
    else Malformed
  }

  lemma SameTexts(c: Codec, d: Codec, n: int, at: real, e: Entry)
    requires c.runId == d.runId && c.kinds == d.kinds && c.count == d.count && c.stamp == d.stamp
    ensures EventText(c, n, at, e) == EventText(d, n, at, e) && (ValidEntry(c, e) <==> ValidEntry(d, e))
  {
    assert Rest(c, e) == Rest(d, e);
  }

  lemma PrinterPrints(c: Codec)
    requires c == Printer(c.runId, c.kinds, c.read) && J.ValidUnits(c.runId)
    ensures Prints(c)
  {
    forall n
      ensures J.ValidNumber(c.count(n))
    {
      PlainlyValid(n);
    }
    forall at
      ensures J.ValidNumber(c.stamp(at))
    {
      PlainlyValid(Microseconds(at));
    }
  }

  lemma EventClosed(c: Codec, n: int, at: real, e: Entry)
    requires Prints(c) && ValidEntry(c, e)
    ensures !Unclosed(EventText(c, n, at, e)) && EventText(c, n, at, e) != "5"
  {
    EventValid(c, n, at, e);
    ObjectCloses(EventValue(c, n, at, e));
    assert EventText(c, n, at, e)[0] == '{';
  }

  lemma ObjectCloses(v: J.Value)
    requires v.Object? && J.Valid(v)
    ensures !Unclosed(J.Render(v))
  {
    J.SpansItself(v);
    var text := J.Render(v);
    assert text[0..] == text;
    J.AfterConcat(J.BEGIN, text[..|text| - 1], text[|text| - 1..]);
    assert text[..|text| - 1] + text[|text| - 1..] == text;
  }

  /** For any run id and event types there is a library that keeps to what the log asks of it, and takes 5 for a number. */
  lemma Conformable(runId: seq<J.Unit>, kinds: set<seq<J.Unit>>) returns (codec: Codec)
    requires J.ValidUnits(runId)
    ensures Conforms(codec) && codec.runId == runId && codec.kinds == kinds && codec.read("5") == NotObject
  {
    var c := Printer(runId, kinds, t => Malformed);
    codec := c.(read := t => Read(c, t));
    PrinterPrints(c);
    assert Prints(codec);
    forall n, at, e | ValidEntry(codec, e)
      ensures ReadsBack(codec, n, at, e)
    {
      SameTexts(codec, c, n, at, e);
      if OnGrid(at) {
        ReadIs(c, n, at, e);
      }
    }
    forall t | Unclosed(t)
      ensures codec.read(t) == Malformed
    {
      NoEventIs(c, t);
    }
    NoEventIs(c, "5");
  }

  lemma ReadIs(c: Codec, n: int, at: real, e: Entry)
    requires c == Printer(c.runId, c.kinds, c.read) && ValidEntry(c, e) && OnGrid(at)
    ensures Read(c, EventText(c, n, at, e)) == Event(n, at)
  {
    var t := EventText(c, n, at, e);
    assert TextOf(c, t, n, at, e);
    forall n', at', e' | TextOf(c, t, n', at', e')
      ensures n' == n && at' == at
    {
      EventApart(c, n, at, e, n', at', e');
    }
  }

  lemma NoEventIs(c: Codec, t: string)
    requires Prints(c) && (Unclosed(t) || t == "5")
    ensures forall n, at, e :: !TextOf(c, t, n, at, e)
  {
    forall n, at, e | ValidEntry(c, e)
      ensures EventText(c, n, at, e) != t
    {
      EventClosed(c, n, at, e);
    }
  }
}
