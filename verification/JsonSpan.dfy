/** keel/adapters/base.py, _first_object_span, against RFC 8259, sections 2 to 7. */
module JsonSpan {
  import opened Prelude

  // The scanner returns the first balanced {...} of a reply; the JSON texts it has to
  // find intact are syntax trees with all their white space.

  // ---- The scanner ---------------------------------------------------------------------

  datatype Mode = Outside | Quoted | Escaped

  datatype Scan = Scan(depth: int, mode: Mode)

  function Next(s: Scan, c: char): Scan {
    match s.mode
    case Escaped => s.(mode := Quoted)
    case Quoted => if c == '\\' then s.(mode := Escaped) else if c == '"' then s.(mode := Outside) else s
    case Outside =>
      if c == '"' then s.(mode := Quoted)
      else if c == '{' then s.(depth := s.depth + 1)
      else if c == '}' then s.(depth := s.depth - 1)
      else s
  }

  predicate Closes(s: Scan, c: char) {
    s == Scan(1, Outside) && c == '}'
  }

  /** Where the scanner stands after reading a text, unless some character of it closed the object. */
  function After(s: Scan, text: string): Option<Scan>
    decreases |text|
  {
    if text == "" then Some(s)
    else if Closes(s, text[0]) then None
    else After(Next(s, text[0]), text[1..])
  }

  const BEGIN := Scan(0, Outside)

  /** `span` starts at the first brace of the text and ends where the scanner first closes it. */
  ghost predicate IsSpan(text: string, span: string) {
    exists at: nat :: SpansAt(text, at, span)
  }

  predicate SpansAt(text: string, at: nat, span: string) {
    && at < |text| && text[at] == '{' && (forall k :: 0 <= k < at ==> text[k] != '{')
    && span != "" && span <= text[at..]
    && After(BEGIN, span[..|span| - 1]) == Some(Scan(1, Outside)) && span[|span| - 1] == '}'
  }

  method FirstObjectSpan(text: string) returns (span: Option<string>)
    ensures span.Some? ==> IsSpan(text, span.value)
    ensures span.None? ==> forall s :: !IsSpan(text, s)
  {
    var start := 0;
    while start < |text| && text[start] != '{'
      invariant 0 <= start <= |text| && forall k :: 0 <= k < start ==> text[k] != '{'
    {
      start := start + 1;
    }
    if start == |text| {
      return None;
    }
    var depth, inString, escaped := 0, false, false;
    var index := start;
    while index < |text|
      invariant start <= index <= |text|
      invariant escaped ==> inString
      invariant After(BEGIN, text[start..index])
             == Some(Scan(depth, if escaped then Escaped else if inString then Quoted else Outside))
    {
      var c := text[index];
      ghost var scan := Scan(depth, if escaped then Escaped else if inString then Quoted else Outside);
      AfterOne(BEGIN, text[start..index], c);
      assert text[start..index] + [c] == text[start..index + 1];
      if inString {
        if escaped {
          escaped := false;
        } else if c == '\\' {
          escaped := true;
        } else if c == '"' {
          inString := false;
        }
      } else if c == '"' {
        inString := true;
      } else if c == '{' {
        depth := depth + 1;
      } else if c == '}' {
        depth := depth - 1;
        if depth == 0 {
          ghost var found := text[start..index + 1];
          assert found[..|found| - 1] == text[start..index];
          assert SpansAt(text, start, found);
          return Some(text[start..index + 1]);
        }
      }
      index := index + 1;
    }
    assert text[start..index] == text[start..];
    NeverClosed(text, start);
    span := None;
  }

  lemma {:induction false} AfterConcat(s: Scan, a: string, b: string)
    ensures After(s, a + b) == match After(s, a) case None => None case Some(mid) => After(mid, b)
    decreases |a|
  {
    if a == "" {
      assert a + b == b;
    } else {
      assert (a + b)[1..] == a[1..] + b;
      if !Closes(s, a[0]) {
        AfterConcat(Next(s, a[0]), a[1..], b);
      }
    }
  }

  lemma AfterOne(s: Scan, a: string, c: char)
    requires After(s, a).Some?
    ensures var mid := After(s, a).value;
      After(s, a + [c]) == if Closes(mid, c) then None else Some(Next(mid, c))
  {
    AfterConcat(s, a, [c]);
    assert [c][1..] == "";
  }

  lemma NeverClosed(text: string, start: nat)
    requires start < |text| && text[start] == '{' && forall k :: 0 <= k < start ==> text[k] != '{'
    requires After(BEGIN, text[start..]).Some?
    ensures forall s :: !IsSpan(text, s)
  {
    forall span, at: nat
      ensures !SpansAt(text, at, span)
    {
      if SpansAt(text, at, span) {
        FirstBrace(text, start, at);
        var body := span[..|span| - 1];
        assert text[at..] == body + ("}" + text[at..][|span|..]);
        AfterConcat(BEGIN, body, "}" + text[at..][|span|..]);
        assert false;
      }
    }
  }

  lemma FirstBrace(text: string, i: nat, j: nat)
    requires i < |text| && text[i] == '{' && forall k :: 0 <= k < i ==> text[k] != '{'
    requires j < |text| && text[j] == '{' && forall k :: 0 <= k < j ==> text[k] != '{'
    ensures i == j
  {
  }

  /** A text has at most one span: the scanner's answer is determined. */
  lemma SpanUnique(text: string, s: string, t: string)
    requires IsSpan(text, s) && IsSpan(text, t)
    ensures s == t
  {
    var i: nat :| SpansAt(text, i, s);
    var j: nat :| SpansAt(text, j, t);
    FirstBrace(text, i, j);
    if |s| < |t| {
      NotLonger(text, i, s, t);
    } else if |t| < |s| {
      NotLonger(text, i, t, s);
    } else {
      assert s == text[i..][..|s|] == t;
    }
  }

  lemma NotLonger(text: string, at: nat, s: string, t: string)
    requires SpansAt(text, at, s) && SpansAt(text, at, t)
    ensures |s| >= |t|
  {
    if |s| < |t| {
      var body, rest := s[..|s| - 1], t[|s|..|t| - 1];
      assert s == text[at..][..|s|] && t == text[at..][..|t|];
      assert t[..|t| - 1] == body + ("}" + rest);
      AfterConcat(BEGIN, body, "}" + rest);
      assert false;
    }
  }

  // ---- JSON texts ------------------------------------------------------------------------

  // A unit of a string: a character as it is, a two-character escape, or \uXXXX.
  datatype Unit = Plain(c: char) | Short(e: char) | Hex(h1: char, h2: char, h3: char, h4: char)

  datatype Number = Number(negative: bool, whole: string, fraction: Option<string>, exponent: Option<(string, string)>)

  datatype Label = Unlabelled | Named(name: seq<Unit>, beforeColon: string, afterColon: string)

  datatype Value =
    | Null
    | Boolean(b: bool)
    | Num(n: Number)
    | Text(units: seq<Unit>)
    | Array(open: string, items: Elements)
    | Object(open: string, members: Elements)

  // The elements of an array or the members of an object, with the white space around them.
  datatype Elements = Nil | Cons(before: string, key: Label, value: Value, after: string, rest: Elements)

  predicate IsDigits(s: string) {
    s != "" && forall c :: c in s ==> '0' <= c <= '9'
  }

  predicate IsHexDigit(c: char) {
    '0' <= c <= '9' || 'a' <= c <= 'f' || 'A' <= c <= 'F'
  }

  predicate IsWhite(s: string) {
    forall c :: c in s ==> c == ' ' || c == '\t' || c == '\n' || c == '\r'
  }

  predicate ValidUnit(u: Unit) {
    match u
    case Plain(c) => c >= ' ' && c != '"' && c != '\\'
    case Short(e) => e in "\"\\/bfnrt"
    case Hex(a, b, c, d) => IsHexDigit(a) && IsHexDigit(b) && IsHexDigit(c) && IsHexDigit(d)
  }

  predicate ValidUnits(us: seq<Unit>) {
    forall u :: u in us ==> ValidUnit(u)
  }

  predicate ValidNumber(n: Number) {
    && IsDigits(n.whole) && (n.whole[0] == '0' ==> |n.whole| == 1)
    && (n.fraction.Some? ==> IsDigits(n.fraction.value))
    && (n.exponent.Some? ==> n.exponent.value.0 in ["e", "E", "e+", "E+", "e-", "E-"] && IsDigits(n.exponent.value.1))
  }

  predicate ValidLabel(l: Label) {
    l.Named? ==> ValidUnits(l.name) && IsWhite(l.beforeColon) && IsWhite(l.afterColon)
  }

  predicate Valid(v: Value) {
    match v
    case Null => true
    case Boolean(_) => true
    case Num(n) => ValidNumber(n)
    case Text(us) => ValidUnits(us)
    case Array(open, items) => IsWhite(open) && ValidElements(items, false)
    case Object(open, members) => IsWhite(open) && ValidElements(members, true)
  }

  predicate ValidElements(es: Elements, named: bool) {
    es.Cons? ==>
      && IsWhite(es.before) && IsWhite(es.after)
      && es.key.Named? == named && ValidLabel(es.key)
      && Valid(es.value) && ValidElements(es.rest, named)
  }

  // ---- Their renderings ---------------------------------------------------------------------

  function RenderUnit(u: Unit): string {
    match u
    case Plain(c) => [c]
    case Short(e) => ['\\', e]
    case Hex(a, b, c, d) => ['\\', 'u', a, b, c, d]
  }

  function RenderUnits(us: seq<Unit>): string {
    if us == [] then "" else RenderUnit(us[0]) + RenderUnits(us[1..])
  }

  function Quote(us: seq<Unit>): string {
    "\"" + RenderUnits(us) + "\""
  }

  function RenderNumber(n: Number): string {
    (if n.negative then "-" else "") + n.whole
    + (if n.fraction.Some? then "." + n.fraction.value else "")
    + if n.exponent.Some? then n.exponent.value.0 + n.exponent.value.1 else ""
  }

  function RenderLabel(l: Label): string {
    if l.Named? then Quote(l.name) + (l.beforeColon + ":" + l.afterColon) else ""
  }

  function Render(v: Value): string {
    match v
    case Null => "null"
    case Boolean(b) => if b then "true" else "false"
    case Num(n) => RenderNumber(n)
    case Text(us) => Quote(us)
    case Array(open, items) => ("[" + open) + RenderElements(items) + "]"
    case Object(open, members) => ("{" + open) + RenderElements(members) + "}"
  }

  function RenderElements(es: Elements): string {
    if es.Nil? then ""
    else es.before + RenderLabel(es.key) + Render(es.value) + (es.after + if es.rest.Nil? then "" else ",")
         + RenderElements(es.rest)
  }

  // ---- Scanning a rendering ------------------------------------------------------------------

  /** Reading the text leaves the scanner as it was. */
  predicate Neutral(s: Scan, text: string) {
    After(s, text) == Some(s)
  }

  lemma NeutralConcat(s: Scan, a: string, b: string)
    requires Neutral(s, a) && Neutral(s, b)
    ensures Neutral(s, a + b)
  {
    AfterConcat(s, a, b);
  }

  /** Outside strings only quotes and braces matter. */
  lemma {:induction false} PlainText(depth: int, text: string)
    requires '"' !in text && '{' !in text && '}' !in text
    ensures Neutral(Scan(depth, Outside), text)
  {
    if text != "" {
      assert text[0] in text;
      PlainText(depth, text[1..]);
    }
  }

  lemma UnitNeutral(depth: int, u: Unit)
    requires ValidUnit(u)
    ensures Neutral(Scan(depth, Quoted), RenderUnit(u))
  {
    var s := Scan(depth, Quoted);
    match u
    case Plain(c) =>
      AfterOne(s, "", c);
      assert "" + [c] == [c];
    case Short(e) =>
      AfterOne(s, "", '\\');
      assert "" + ['\\'] == ['\\'];
      AfterOne(s, ['\\'], e);
      assert ['\\'] + [e] == ['\\', e];
    case Hex(a, b, c, d) =>
      AfterOne(s, "", '\\');
      assert "" + ['\\'] == ['\\'];
      AfterOne(s, ['\\'], 'u');
      assert ['\\'] + ['u'] == ['\\', 'u'];
      QuotedPlain(depth, [a, b, c, d]);
      AfterConcat(s, ['\\', 'u'], [a, b, c, d]);
      assert ['\\', 'u'] + [a, b, c, d] == RenderUnit(u);
  }

  lemma {:induction false} QuotedPlain(depth: int, text: string)
    requires '"' !in text && '\\' !in text
    ensures Neutral(Scan(depth, Quoted), text)
  {
    if text != "" {
      assert text[0] in text;
      QuotedPlain(depth, text[1..]);
    }
  }

  lemma {:induction false} UnitsNeutral(depth: int, us: seq<Unit>)
    requires ValidUnits(us)
    ensures Neutral(Scan(depth, Quoted), RenderUnits(us))
  {
    if us != [] {
      UnitNeutral(depth, us[0]);
      UnitsNeutral(depth, us[1..]);
      NeutralConcat(Scan(depth, Quoted), RenderUnit(us[0]), RenderUnits(us[1..]));
    }
  }

  /** A string is neutral whatever braces, quotes and backslashes it holds. */
  lemma QuoteNeutral(depth: int, us: seq<Unit>)
    requires ValidUnits(us)
    ensures Neutral(Scan(depth, Outside), Quote(us))
  {
    var s, inner := Scan(depth, Outside), RenderUnits(us);
    UnitsNeutral(depth, us);
    AfterOne(s, "", '"');
    assert "" + ['"'] == "\"";
    AfterConcat(s, "\"", inner);
    AfterOne(s, "\"" + inner, '"');
    assert Quote(us) == ("\"" + inner) + ['"'];
  }

  lemma NumberNeutral(depth: int, n: Number)
    requires ValidNumber(n)
    ensures Neutral(Scan(depth, Outside), RenderNumber(n))
  {
    PlainText(depth, RenderNumber(n));
  }

  lemma LabelNeutral(depth: int, l: Label)
    requires ValidLabel(l)
    ensures Neutral(Scan(depth, Outside), RenderLabel(l))
  {
    if l.Named? {
      QuoteNeutral(depth, l.name);
      PlainText(depth, l.beforeColon + ":" + l.afterColon);
      NeutralConcat(Scan(depth, Outside), Quote(l.name), l.beforeColon + ":" + l.afterColon);
    }
  }

  /** Inside the outermost braces every JSON value is neutral. */
  lemma {:induction false} ValueNeutral(depth: int, v: Value)
    requires Valid(v) && depth >= 1
    ensures Neutral(Scan(depth, Outside), Render(v))
    decreases v
  {
    match v
    case Null => PlainText(depth, "null");
    case Boolean(b) => PlainText(depth, if b then "true" else "false");
    case Num(n) => NumberNeutral(depth, n);
    case Text(us) => QuoteNeutral(depth, us);
    case Array(open, items) =>
      var s := Scan(depth, Outside);
      PlainText(depth, "[" + open);
      ElementsNeutral(depth, items, false);
      NeutralConcat(s, "[" + open, RenderElements(items));
      PlainText(depth, "]");
      NeutralConcat(s, ("[" + open) + RenderElements(items), "]");
    case Object(open, members) =>
      ElementsNeutral(depth + 1, members, true);
      OpenBrace(depth, open, RenderElements(members));
      AfterOne(Scan(depth, Outside), ("{" + open) + RenderElements(members), '}');
  }

  /** An opening brace, white space and a neutral body leave the scanner one level deeper. */
  lemma OpenBrace(depth: int, open: string, body: string)
    requires IsWhite(open) && Neutral(Scan(depth + 1, Outside), body)
    ensures After(Scan(depth, Outside), ("{" + open) + body) == Some(Scan(depth + 1, Outside))
  {
    AfterOne(Scan(depth, Outside), "", '{');
    assert "" + ['{'] == "{";
    PlainText(depth + 1, open);
    AfterConcat(Scan(depth, Outside), "{", open);
    AfterConcat(Scan(depth, Outside), "{" + open, body);
  }

  lemma {:induction false} ElementsNeutral(depth: int, es: Elements, named: bool)
    requires ValidElements(es, named) && depth >= 1
    ensures Neutral(Scan(depth, Outside), RenderElements(es))
    decreases es
  {
    if es.Cons? {
      var s := Scan(depth, Outside);
      var tail := es.after + if es.rest.Nil? then "" else ",";
      PlainText(depth, es.before);
      LabelNeutral(depth, es.key);
      ValueNeutral(depth, es.value);
      PlainText(depth, tail);
      ElementsNeutral(depth, es.rest, named);
      NeutralConcat(s, es.before, RenderLabel(es.key));
      NeutralConcat(s, es.before + RenderLabel(es.key), Render(es.value));
      NeutralConcat(s, es.before + RenderLabel(es.key) + Render(es.value), tail);
      NeutralConcat(s, es.before + RenderLabel(es.key) + Render(es.value) + tail, RenderElements(es.rest));
    }
  }

  /**
   Scanner exactness: the rendered object is found where it stands, whatever follows it,
   exactly when no opening brace comes before it, and then it is the one span.
   */
  lemma ObjectIsTheSpan(prefix: string, v: Value, suffix: string, span: string)
    requires v.Object? && Valid(v)
    ensures SpansAt(prefix + Render(v) + suffix, |prefix|, Render(v)) <==> '{' !in prefix
    ensures '{' !in prefix ==> (IsSpan(prefix + Render(v) + suffix, span) <==> span == Render(v))
  {
    var text, rendered := prefix + Render(v) + suffix, Render(v);
    var body := ("{" + v.open) + RenderElements(v.members);
    ElementsNeutral(1, v.members, true);
    OpenBrace(0, v.open, RenderElements(v.members));
    assert rendered[..|rendered| - 1] == body;
    assert text[|prefix|..] == rendered + suffix;
    assert forall k :: 0 <= k < |prefix| ==> text[k] == prefix[k];
    if '{' !in prefix {
      assert SpansAt(text, |prefix|, rendered);
      if IsSpan(text, span) {
        SpanUnique(text, span, rendered);
      }
    }
  }

  lemma OnlyObjectsOpen(w: Value)
    requires Valid(w) && Render(w) != "" && Render(w)[0] == '{'
    ensures w.Object?
  {
    if w.Num? {
      NumberStart(w.n);
    }
  }

  lemma NumberStart(n: Number)
    requires ValidNumber(n)
    ensures RenderNumber(n) != "" && RenderNumber(n)[0] != '{'
  {
    assert n.whole[0] in n.whole;
  }

  /** A rendered object cut short is not JSON. */
  lemma CutIsMalformed(v: Value, cut: nat, w: Value)
    requires v.Object? && Valid(v) && 0 < cut < |Render(v)| && Valid(w)
    ensures Render(w) != Render(v)[..cut]
  {
    var whole, piece := Render(v), Render(w);
    if piece == whole[..cut] {
      OnlyObjectsOpen(w);
      SpansItself(v);
      SpansItself(w);
      assert piece <= whole[0..];
      assert SpansAt(whole, 0, piece);
      SpanUnique(whole, whole, piece);
      assert false;
    }
  }

  lemma SpansItself(v: Value)
    requires v.Object? && Valid(v)
    ensures SpansAt(Render(v), 0, Render(v))
  {
    ObjectIsTheSpan("", v, "", Render(v));
    assert "" + Render(v) + "" == Render(v);
  }
}
