/** Which file a spelled path names, for every spelling there is. */
module SpelledPaths {
  import opened Prelude
  import opened Workspaces
  import opened SafePaths

  predicate Blank(s: string) {
    forall c :: c in s ==> IsSpace(c)
  }

  predicate Bare(s: string) {
    s != "" ==> !IsSpace(s[0]) && !IsSpace(s[|s| - 1])
  }

  // ---- Blanks at the ends ------------------------------------------------------------

  lemma {:induction false} RightTrimmed(mid: string, trail: string)
    requires Bare(mid) && Blank(trail)
    ensures TrimRight(mid + trail) == mid
  {
    if trail == "" {
      assert mid + trail == mid;
    } else {
      var n := |trail| - 1;
      assert trail[n] in trail && forall c :: c in trail[..n] ==> c in trail;
      RightTrimmed(mid, trail[..n]);
      assert (mid + trail)[..|mid + trail| - 1] == mid + trail[..n];
    }
  }

  /** strip removes the blanks at the ends, and nothing else. */
  lemma {:induction false} Trimmed(lead: string, mid: string, trail: string)
    requires Blank(lead) && Bare(mid) && Blank(trail)
    ensures Trim(lead + mid + trail) == mid
  {
    if lead == "" {
      assert lead + mid + trail == mid + trail;
      if mid == "" {
        AllTrimmed(trail);
        assert mid + trail == trail;
      } else {
        RightTrimmed(mid, trail);
      }
    } else {
      assert lead[0] in lead && forall c :: c in lead[1..] ==> c in lead;
      Trimmed(lead[1..], mid, trail);
      assert (lead + mid + trail)[1..] == lead[1..] + mid + trail;
    }
  }

  lemma {:induction false} AllTrimmed(s: string)
    requires Blank(s)
    ensures Trim(s) == ""
  {
    if s != "" {
      assert s[0] in s && forall c :: c in s[1..] ==> c in s;
      AllTrimmed(s[1..]);
    }
  }

  lemma {:induction false} RightEnds(s: string) returns (trail: string)
    ensures s == TrimRight(s) + trail && Blank(trail)
    ensures TrimRight(s) != "" ==> !IsSpace(TrimRight(s)[|TrimRight(s)| - 1])
  {
    if s != "" && IsSpace(s[|s| - 1]) {
      var n := |s| - 1;
      var t := RightEnds(s[..n]);
      trail := t + [s[n]];
      assert s == s[..n] + [s[n]];
      assert TrimRight(s) + t + [s[n]] == TrimRight(s) + trail;
    } else {
      trail := "";
      assert s == TrimRight(s) + "";
    }
  }

  /** Every text is its stripped form between blanks. */
  lemma {:induction false} TrimEnds(s: string) returns (lead: string, trail: string)
    ensures s == lead + Trim(s) + trail && Blank(lead) && Blank(trail) && Bare(Trim(s))
  {
    if s != "" && IsSpace(s[0]) {
      var l, t := TrimEnds(s[1..]);
      lead, trail := [s[0]] + l, t;
      assert s == [s[0]] + s[1..];
      assert [s[0]] + (l + Trim(s) + t) == lead + Trim(s) + trail;
    } else {
      lead := "";
      trail := RightEnds(s);
      assert lead + TrimRight(s) + trail == s;
    }
  }

  // ---- Segments ----------------------------------------------------------------------

  /** A text cut at its slashes. */
  predicate Segments(segs: seq<string>) {
    segs != [] && forall s :: s in segs ==> '/' !in s
  }

  lemma {:induction false} SegmentsBack(segs: seq<string>)
    requires Segments(segs)
    ensures Split(Join(segs), {'/'}) == segs
  {
    assert segs[0] in segs;
    SplitNowhere(segs[0], {'/'});
    if |segs| == 1 {
      assert segs == [segs[0]];
    } else {
      SegmentsBack(segs[1..]);
      SplitAt(segs[0], '/', Join(segs[1..]), {'/'});
      assert segs == [segs[0]] + segs[1..];
    }
  }

  lemma {:induction false} JoinBack(text: string)
    ensures Join(Split(text, {'/'})) == text && Segments(Split(text, {'/'}))
  {
    if text != "" {
      var rest := Split(text[1..], {'/'});
      JoinBack(text[1..]);
      assert text == [text[0]] + text[1..];
      if text[0] == '/' {
        JoinSlash(rest);
      } else {
        JoinChar(text[0], rest[0], rest[1..]);
        assert [rest[0]] + rest[1..] == rest && rest[0] in rest;
      }
    }
  }

  lemma JoinSlash(rest: seq<string>)
    requires Segments(rest)
    ensures Join([""] + rest) == "/" + Join(rest) && Segments([""] + rest)
  {
    assert ([""] + rest)[1..] == rest;
    assert "" + "/" + Join(rest) == "/" + Join(rest);
  }

  lemma JoinChar(c: char, first: string, rest: seq<string>)
    ensures Join([[c] + first] + rest) == [c] + Join([first] + rest)
  {
    assert ([[c] + first] + rest)[1..] == rest && ([first] + rest)[1..] == rest;
    if rest != [] {
      assert [c] + first + "/" + Join(rest) == [c] + (first + "/" + Join(rest));
    }
  }

  lemma {:induction false} JoinHolds(segs: seq<string>, c: char)
    requires c != '/'
    ensures c in Join(segs) <==> exists s :: s in segs && c in s
  {
    if segs != [] {
      JoinHolds(segs[1..], c);
      if |segs| == 1 {
        assert segs == [segs[0]];
      } else {
        assert Join(segs) == segs[0] + "/" + Join(segs[1..]);
        assert forall s :: s in segs <==> s == segs[0] || s in segs[1..];
      }
    }
  }

  // ---- Resolution -----------------------------------------------------------------------

  /** A spelling that leaves the workspace or cannot be a path: absolute, with a drive, up, or with a null byte. */
  predicate Strays(text: string, segs: seq<string>) {
    || (|segs| > 1 && segs[0] == "")
    || (|text| >= 2 && text[0] != '\\' && text[1] == ':')
    || (|text| >= 2 && text[0] == '\\' && text[1] in {'\\', '/'})
    || (exists s :: s in segs && ".." in Split(s, {'\\'}))
    || (exists s :: s in segs && '\0' in s)
  }

  lemma StraysRefused(segs: seq<string>)
    requires Segments(segs) && Join(segs) != ""
    ensures Refused(Join(segs)) <==> Strays(Join(segs), segs)
  {
    var text := Join(segs);
    SegmentsBack(segs);
    SplitBoth(text);
    FinerHas(segs, "..");
    JoinHolds(segs, '\0');
    assert text[0] == '/' <==> |segs| > 1 && segs[0] == "" by {
      assert segs[0] in segs;
      if segs[0] != "" {
        assert text[0] == segs[0][0];
        assert segs[0][0] in segs[0];
      }
    }
  }

  /**
   Whatever segments are joined by slashes, between whatever blanks: the path is refused
   if it strays or names nothing, and is the segments other than "" and "." in their
   order otherwise.
   */
  lemma ResolvesExactly(raw: RawPath, lead: string, segs: seq<string>, trail: string)
    requires raw.text == lead + Join(segs) + trail
    requires Blank(lead) && Blank(trail) && Segments(segs) && Bare(Join(segs))
    ensures var named := Filter(segs, s => s != "" && s != ".");
      Resolve(raw) == if Strays(Join(segs), segs) || named == [] then None else Some(Path(named))
  {
    Trimmed(lead, Join(segs), trail);
    SegmentsBack(segs);
    FilterSame(segs, part => Named(part), s => s != "" && s != ".");
    if Join(segs) == "" {
      assert Split("", {'/'}) == [""];
      assert segs == [""];
    } else {
      StraysRefused(segs);
    }
  }

  /** Every text is segments joined by slashes, between blanks. */
  lemma EverySpelling(raw: RawPath) returns (lead: string, segs: seq<string>, trail: string)
    ensures raw.text == lead + Join(segs) + trail
    ensures Blank(lead) && Blank(trail) && Segments(segs) && Bare(Join(segs))
  {
    lead, trail := TrimEnds(raw.text);
    segs := Split(Trim(raw.text), {'/'});
    JoinBack(Trim(raw.text));
  }
}
