/** keel/workspace.py, _safe_path: which file a spelled path names, if any. */
module SafePaths {
  import opened Prelude
  import opened Workspaces

  // On a POSIX host and without symbolic links: '\' separates nothing, but the
  // lexical checks read the text as a Windows path as well.

  // A path as the stage spelled it, before the workspace makes it canonical.
  datatype RawPath = RawPath(text: string)

  function Split(text: string, seps: set<char>): (r: seq<string>)
    ensures r != []
  {
    if text == "" then [""]
    else
      var rest := Split(text[1..], seps);
      if text[0] in seps then [""] + rest else [[text[0]] + rest[0]] + rest[1..]
  }

  predicate Named(part: string) {
    part != "" && part != "."
  }

  function Parts(text: string): seq<string> {
    Filter(Split(text, {'/'}), part => Named(part))
  }

  /** A drive letter, or the two leading separators of a network share. */
  predicate HasDrive(text: string) {
    |text| >= 2 && if text[0] == '\\' then text[1] == '\\' || text[1] == '/' else text[1] == ':'
  }

  predicate Refused(text: string) {
    text == "" || '\0' in text || text[0] == '/' || HasDrive(text) || ".." in Split(text, {'/', '\\'})
  }

  function Resolve(raw: RawPath): Option<Path> {
    var text := Trim(raw.text);
    if Refused(text) || Parts(text) == [] then None else Some(Path(Parts(text)))
  }

  function Join(parts: seq<string>): string {
    if parts == [] then ""
    else if |parts| == 1 then parts[0]
    else parts[0] + "/" + Join(parts[1..])
  }

  /** The canonical spelling, under which snapshots and rollbacks know the file. */
  function Canonical(p: Path): RawPath {
    RawPath(Join(p.parts))
  }

  // ---- Splitting -----------------------------------------------------------------------------

  lemma {:induction false} SplitAt(a: string, sep: char, b: string, seps: set<char>)
    requires sep in seps
    ensures Split(a + [sep] + b, seps) == Split(a, seps) + Split(b, seps)
  {
    var text := a + [sep] + b;
    if a == "" {
      assert text[1..] == b;
    } else {
      assert text[1..] == a[1..] + [sep] + b;
      SplitAt(a[1..], sep, b, seps);
    }
  }

  lemma {:induction false} SplitNowhere(text: string, seps: set<char>)
    requires forall c :: c in text ==> c !in seps
    ensures Split(text, seps) == [text]
  {
    if text != "" {
      SplitNowhere(text[1..], seps);
      assert [text[0]] + text[1..] == text;
    }
  }

  lemma {:induction false} SplitChars(text: string, seps: set<char>, part: string, c: char)
    requires part in Split(text, seps) && c in part
    ensures c in text && c !in seps
  {
    if text != "" {
      var rest := Split(text[1..], seps);
      if part in rest {
        SplitChars(text[1..], seps, part, c);
      } else if text[0] !in seps {
        assert part == [text[0]] + rest[0];
        if c != text[0] {
          assert c in rest[0];
          SplitChars(text[1..], seps, rest[0], c);
        }
      }
    }
  }

  predicate Plain(part: string) {
    part != "" && '/' !in part
  }

  lemma {:induction false} SplitJoin(parts: seq<string>)
    requires parts != [] && forall part :: part in parts ==> Plain(part)
    ensures Split(Join(parts), {'/'}) == parts
    ensures Join(parts) != "" && Join(parts)[0] != '/'
  {
    assert parts[0] in parts;
    assert Plain(parts[0]);
    SplitNowhere(parts[0], {'/'});
    if |parts| == 1 {
      assert parts == [parts[0]];
    } else {
      SplitJoin(parts[1..]);
      SplitAt(parts[0], '/', Join(parts[1..]), {'/'});
      assert parts == [parts[0]] + parts[1..];
    }
  }

  lemma {:induction false} JoinChars(parts: seq<string>, c: char)
    requires c in Join(parts) && c != '/'
    ensures exists part :: part in parts && c in part
  {
    if parts != [] {
      if c in parts[0] {
        assert parts[0] in parts;
      } else {
        JoinChars(parts[1..], c);
        var part :| part in parts[1..] && c in part;
        assert part in parts;
      }
    }
  }

  /** Splitting at both separators is splitting at one and then at the other. */
  function Finer(segments: seq<string>): seq<string> {
    if segments == [] then [] else Split(segments[0], {'\\'}) + Finer(segments[1..])
  }

  lemma {:induction false} SplitBoth(text: string)
    ensures Split(text, {'/', '\\'}) == Finer(Split(text, {'/'}))
  {
    if text != "" {
      SplitBoth(text[1..]);
      SplitBothStep(text[0], Split(text[1..], {'/'}));
    }
  }

  lemma SplitBothStep(c: char, rest: seq<string>)
    requires rest != []
    ensures c == '/' ==> Finer([""] + rest) == [""] + Finer(rest)
    ensures c == '\\' ==> Finer([[c] + rest[0]] + rest[1..]) == [""] + Finer(rest)
    ensures c != '/' && c != '\\' ==>
      Finer([[c] + rest[0]] + rest[1..]) == [[c] + Finer(rest)[0]] + Finer(rest)[1..]
  {
    assert ([""] + rest)[1..] == rest;
    var more := [[c] + rest[0]] + rest[1..];
    assert more[0][1..] == rest[0] && more[1..] == rest[1..];
    var first := Split(rest[0], {'\\'});
    assert Finer(rest) == first + Finer(rest[1..]);
    assert ([""] + first) + Finer(rest[1..]) == [""] + Finer(rest);
  }

  lemma {:induction false} FinerHas(segments: seq<string>, part: string)
    ensures part in Finer(segments) <==> exists s :: s in segments && part in Split(s, {'\\'})
  {
    if segments != [] {
      var rest := segments[1..];
      FinerHas(rest, part);
      assert Finer(segments) == Split(segments[0], {'\\'}) + Finer(rest);
      if s :| s in segments && part in Split(s, {'\\'}) {
        assert s == segments[0] || s in rest;
      }
      if part in Finer(segments) && part !in Split(segments[0], {'\\'}) {
        var s :| s in rest && part in Split(s, {'\\'});
        assert s in segments;
      }
    }
  }

  // ---- How long a spelling is -------------------------------------------------------------------

  function Size(parts: seq<string>): nat {
    if parts == [] then 0 else |parts[0]| + 1 + Size(parts[1..])
  }

  lemma {:induction false} SplitSize(text: string, seps: set<char>)
    ensures Size(Split(text, seps)) == |text| + 1
  {
    if text == "" {
      assert [""][1..] == [];
    } else {
      var rest := Split(text[1..], seps);
      SplitSize(text[1..], seps);
      assert ([""] + rest)[1..] == rest;
      assert ([[text[0]] + rest[0]] + rest[1..])[1..] == rest[1..];
    }
  }

  lemma {:induction false} JoinSize(parts: seq<string>)
    requires parts != []
    ensures |Join(parts)| + 1 == Size(parts)
  {
    if |parts| > 1 {
      JoinSize(parts[1..]);
    }
  }

  lemma {:induction false} FilterSize(parts: seq<string>)
    ensures Size(Filter(parts, part => Named(part))) <= Size(parts)
  {
    if parts != [] {
      FilterSize(parts[1..]);
      var kept := Filter(parts[1..], part => Named(part));
      assert ([parts[0]] + kept)[1..] == kept;
    }
  }

  // ---- What a resolved path is like -----------------------------------------------------------

  /** Every part names something and stays inside: no separator, no '.', no '..', no null byte. */
  lemma ResolvedParts(raw: RawPath)
    requires Resolve(raw).Some?
    ensures var parts := Resolve(raw).value.parts;
      && parts != []
      && forall part :: part in parts ==> Plain(part) && part != "." && part != ".." && '\0' !in part
  {
    var text := Trim(raw.text);
    forall part | part in Parts(text)
      ensures Plain(part) && part != ".." && '\0' !in part
    {
      if '/' in part {
        SplitChars(text, {'/'}, part, '/');
      }
      if '\0' in part {
        SplitChars(text, {'/'}, part, '\0');
      }
      SplitBoth(text);
      if part == ".." {
        SplitNowhere(part, {'\\'});
        FinerHas(Split(text, {'/'}), "..");
      }
    }
  }

  lemma CanonicalKept(raw: RawPath)
    requires Resolve(raw).Some?
    ensures var parts := Resolve(raw).value.parts; var text := Join(parts);
      && Parts(text) == parts && text != "" && '\0' !in text && text[0] != '/' && ".." !in Split(text, {'/', '\\'})
  {
    var before := Trim(raw.text);
    var parts := Resolve(raw).value.parts;
    var text := Join(parts);
    ResolvedParts(raw);
    SplitJoin(parts);
    FilterWhole(parts, part => Named(part));
    if '\0' in text {
      JoinChars(parts, '\0');
    }
    SplitBoth(text);
    SplitBoth(before);
    FinerHas(parts, "..");
    FinerHas(Split(before, {'/'}), "..");
  }

  /**
   The canonical spelling of a file names that file again exactly when no blank at its
   ends is stripped and it does not look like a drive.
   */
  lemma CanonicalExactly(raw: RawPath)
    requires Resolve(raw).Some?
    ensures var p := Resolve(raw).value; var text := Canonical(p).text;
      Resolve(Canonical(p)) == Some(p) <==> Trim(text) == text && !HasDrive(text)
  {
    var parts := Resolve(raw).value.parts;
    var text := Join(parts);
    CanonicalKept(raw);
    TrimShorter(text);
    if Trim(text) != text && Parts(Trim(text)) == parts {
      SplitSize(Trim(text), {'/'});
      FilterSize(Split(Trim(text), {'/'}));
      JoinSize(parts);
    }
  }

  // ---- Spellings used elsewhere -----------------------------------------------------------------

  const README: Path := Path(["README.md"])

  /** No blanks at the ends. */
  lemma {:induction false} TrimNothing(s: string)
    requires s != "" && !IsSpace(s[0]) && !IsSpace(s[|s| - 1])
    ensures Trim(s) == s
  {
  }

  /** A name that is one part, under either reading. */
  predicate OnePart(name: string) {
    && Named(name) && name != ".." && !IsSpace(name[0]) && !IsSpace(name[|name| - 1])
    && forall c :: c in name ==> c != '/' && c != '\\' && c != '\0'
  }

  lemma PlainSpelling(name: string)
    requires OnePart(name) && !HasDrive(name)
    ensures Resolve(RawPath(name)) == Some(Path([name]))
  {
    TrimNothing(name);
    SplitNowhere(name, {'/'});
    SplitNowhere(name, {'/', '\\'});
    FilterWhole([name], part => Named(part));
    assert name[0] in name;
  }

  lemma SplitDotted(name: string, dotted: string, seps: set<char>)
    requires dotted == "." + ['/'] + name && '/' in seps && '.' !in seps && forall c :: c in name ==> c !in seps
    ensures Split(dotted, seps) == [".", name]
  {
    SplitAt(".", '/', name, seps);
    SplitNowhere(".", seps);
    SplitNowhere(name, seps);
  }

  lemma DottedParts(name: string, dotted: string)
    requires Split(dotted, {'/'}) == [".", name] && Named(name)
    ensures Parts(dotted) == [name]
  {
    assert [".", name][1..] == [name];
    FilterWhole([name], part => Named(part));
  }

  /** Under a dot nothing looks like a drive. */
  lemma DottedSpelling(name: string, dotted: string)
    requires OnePart(name) && dotted == "." + ['/'] + name
    ensures Resolve(RawPath(dotted)) == Some(Path([name]))
  {
    TrimNothing(dotted);
    SplitDotted(name, dotted, {'/'});
    SplitDotted(name, dotted, {'/', '\\'});
    DottedParts(name, dotted);
  }

  lemma ReadmeName(name: string)
    requires name == "README.md"
    ensures OnePart(name) && !HasDrive(name)
  {
  }

  lemma Dotted(name: string, dotted: string)
    requires name == "README.md" && dotted == "./README.md"
    ensures dotted == "." + ['/'] + name && |dotted| > |name|
  {
  }

  /** Two spellings of one file. */
  lemma ReadmeSpelled(plain: RawPath, dotted: RawPath)
    requires plain.text == "README.md" && dotted.text == "./README.md"
    ensures plain != dotted && Resolve(plain) == Some(README) && Resolve(dotted) == Some(README)
  {
    TwoSpellings(plain.text, dotted.text);
  }

  lemma TwoSpellings(name: string, dotted: string)
    requires name == "README.md" && dotted == "./README.md"
    ensures name != dotted
    ensures Resolve(RawPath(name)) == Some(Path([name])) && Resolve(RawPath(dotted)) == Some(Path([name]))
  {
    ReadmeName(name);
    Dotted(name, dotted);
    PlainSpelling(name);
    DottedSpelling(name, dotted);
  }

  /** An absolute path names nothing in the workspace. */
  lemma AbsoluteRefused(raw: RawPath)
    requires raw.text != "" && raw.text[0] == '/' && !IsSpace(raw.text[|raw.text| - 1])
    ensures Resolve(raw) == None
  {
    TrimNothing(raw.text);
  }

  /** A file whose canonical spelling is refused: the dot hides what looks like a drive. */
  lemma HiddenDrive(raw: RawPath, p: Path)
    requires raw.text == "./a:b" && p.parts == ["a:b"]
    ensures Resolve(raw) == Some(p) && Resolve(Canonical(p)) == None
  {
    var name := p.parts[0];
    assert raw.text == "." + ['/'] + name;
    DottedSpelling(name, raw.text);
    TrimNothing(name);
  }
}
