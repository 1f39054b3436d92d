/** The regex clean-up chain that ends rewrite_text: whitespace runs become
    one space, the ends are stripped, runs of dots become one dot, and a
    dot, optional whitespace and another dot become one dot. */
module Cleanup {
  import opened Text
  import opened TextFacts

  /** No two adjacent dots. */
  ghost predicate NoDoubleDot(s: string) {
    forall j, k :: 0 <= j < k < |s| && k == j + 1 ==> s[j] != '.' || s[k] != '.'
  }

  /** The first index at or after i that holds no dot, or |s|. */
  function SkipDots(s: string, i: nat): (j: nat)
    requires i <= |s|
    ensures i <= j <= |s|
    ensures forall k :: i <= k < j ==> s[k] == '.'
    ensures j < |s| ==> s[j] != '.'
    decreases |s| - i
  {
    if i < |s| && s[i] == '.' then SkipDots(s, i + 1) else i
  }

  /** re.sub(r'\.+', '.', s[i..]): each maximal run of dots becomes one
      dot. */
  function CollapseDotsFrom(s: string, i: nat): string
    requires i <= |s|
    decreases |s| - i
  {
    if i == |s| then []
    else if s[i] == '.' then ['.'] + CollapseDotsFrom(s, SkipDots(s, i))
    else [s[i]] + CollapseDotsFrom(s, i + 1)
  }

  function CollapseDots(s: string): string {
    CollapseDotsFrom(s, 0)
  }

  /** re.sub(r'\.\s*\.', '.', s[i..]): a dot, whitespace, and a second dot
      become one dot and the scan resumes after the second dot. */
  function DotSpaceDotFrom(s: string, i: nat): string
    requires i <= |s|
    decreases |s| - i
  {
    if i == |s| then []
    else if s[i] == '.' && SkipSpaces(s, i + 1) < |s| && s[SkipSpaces(s, i + 1)] == '.' then
      ['.'] + DotSpaceDotFrom(s, SkipSpaces(s, i + 1) + 1)
    else
      [s[i]] + DotSpaceDotFrom(s, i + 1)
  }

  function DotSpaceDot(s: string): string {
    DotSpaceDotFrom(s, 0)
  }

  /** Collapsing dot runs keeps the first and last characters, leaves no
      two dots adjacent and keeps single spacing. */
  lemma {:induction false} CollapseDotsFromShape(s: string, i: nat)
    requires i <= |s|
    ensures CollapseDotsFrom(s, i) == [] <==> i == |s|
    ensures i < |s| ==> CollapseDotsFrom(s, i)[0] == s[i]
    ensures i < |s| ==> CollapseDotsFrom(s, i)[|CollapseDotsFrom(s, i)| - 1] == s[|s| - 1]
    ensures NoDoubleDot(CollapseDotsFrom(s, i))
    ensures SingleSpaced(s) ==> SingleSpaced(CollapseDotsFrom(s, i))
    decreases |s| - i
  {
    if i < |s| {
      var j := if s[i] == '.' then SkipDots(s, i) else i + 1;
      CollapseDotsFromShape(s, j);
      var rest := CollapseDotsFrom(s, j);
      var r := CollapseDotsFrom(s, i);
      assert r == [r[0]] + rest;
      assert rest != [] ==> rest[0] == s[j];
      GlueKeeps(r[0], rest, s[i] != '.' || j == |s| || s[j] != '.');
    }
  }

  /** Merging dots separated by whitespace keeps the first and last
      characters, and empties only the empty text. */
  lemma {:induction false} DotSpaceDotFromEnds(s: string, i: nat)
    requires i <= |s|
    ensures DotSpaceDotFrom(s, i) == [] <==> i == |s|
    ensures i < |s| ==> DotSpaceDotFrom(s, i)[0] == s[i]
    ensures i < |s| ==> DotSpaceDotFrom(s, i)[|DotSpaceDotFrom(s, i)| - 1] == s[|s| - 1]
    decreases |s| - i
  {
    if i < |s| {
      var merge := s[i] == '.' && SkipSpaces(s, i + 1) < |s| && s[SkipSpaces(s, i + 1)] == '.';
      var j := if merge then SkipSpaces(s, i + 1) + 1 else i + 1;
      DotSpaceDotFromEnds(s, j);
      assert DotSpaceDotFrom(s, i) == [if merge then '.' else s[i]] + DotSpaceDotFrom(s, j);
    }
  }

  /** Merging dots separated by whitespace keeps the absence of adjacent
      dots and single spacing. */
  lemma {:induction false} DotSpaceDotFromShape(s: string, i: nat)
    requires i <= |s|
    ensures NoDoubleDot(s) ==> NoDoubleDot(DotSpaceDotFrom(s, i))
    ensures SingleSpaced(s) ==> SingleSpaced(DotSpaceDotFrom(s, i))
    decreases |s| - i
  {
    if i < |s| {
      var merge := s[i] == '.' && SkipSpaces(s, i + 1) < |s| && s[SkipSpaces(s, i + 1)] == '.';
      var j := if merge then SkipSpaces(s, i + 1) + 1 else i + 1;
      DotSpaceDotFromShape(s, j);
      DotSpaceDotFromEnds(s, j);
      var rest := DotSpaceDotFrom(s, j);
      var c := if merge then '.' else s[i];
      assert DotSpaceDotFrom(s, i) == [c] + rest;
      if NoDoubleDot(s) && rest != [] {
        assert s[j - 1] != '.' || s[j] != '.';
      }
      GlueKeeps(c, rest, NoDoubleDot(s));
    }
  }

  /** A character the content comparison ignores: a dot and, when spaces
      is set, whitespace. */
  predicate Dropped(c: char, spaces: bool) {
    c == '.' || (spaces && IsSpace(c))
  }

  /** The characters of s that are not Dropped, in order. */
  function DropDots(s: string, spaces: bool): string
    decreases |s|
  {
    if s == [] then []
    else if Dropped(s[0], spaces) then DropDots(s[1..], spaces)
    else [s[0]] + DropDots(s[1..], spaces)
  }

  lemma DropDotsCons(c: char, r: string, spaces: bool)
    ensures DropDots([c] + r, spaces) == (if Dropped(c, spaces) then [] else [c]) + DropDots(r, spaces)
  {
    assert ([c] + r)[1..] == r;
  }

  lemma DropDotsAt(s: string, i: nat, spaces: bool)
    requires i < |s|
    ensures DropDots(s[i..], spaces) == (if Dropped(s[i], spaces) then [] else [s[i]]) + DropDots(s[i + 1..], spaces)
  {
    assert s[i..][1..] == s[i + 1..];
  }

  /** Skipping characters that are all dropped changes no content. */
  lemma {:induction false} DropDotsRun(s: string, i: nat, j: nat, spaces: bool)
    requires i <= j <= |s|
    requires forall k :: i <= k < j ==> Dropped(s[k], spaces)
    ensures DropDots(s[i..], spaces) == DropDots(s[j..], spaces)
    decreases j - i
  {
    if i < j {
      DropDotsAt(s, i, spaces);
      DropDotsRun(s, i + 1, j, spaces);
    }
  }

  lemma {:induction false} DropDotsAppend(a: string, b: string, spaces: bool)
    ensures DropDots(a + b, spaces) == DropDots(a, spaces) + DropDots(b, spaces)
    decreases |a|
  {
    if a != [] {
      assert (a + b)[1..] == a[1..] + b;
      DropDotsAppend(a[1..], b, spaces);
    } else {
      assert a + b == b;
    }
  }

  lemma {:induction false} DropDotsBlank(a: string)
    requires Blank(a)
    ensures DropDots(a, true) == []
    decreases |a|
  {
    if a != [] {
      DropDotsBlank(a[1..]);
    }
  }

  /** re.sub(r'\.+', '.') removes only dots: with or without whitespace in
      the comparison, the rest of the text is kept in order. */
  lemma {:induction false} CollapseDotsFromContent(s: string, i: nat, spaces: bool)
    requires i <= |s|
    ensures DropDots(CollapseDotsFrom(s, i), spaces) == DropDots(s[i..], spaces)
    decreases |s| - i
  {
    if i < |s| {
      var j := if s[i] == '.' then SkipDots(s, i) else i + 1;
      CollapseDotsFromContent(s, j, spaces);
      DropDotsCons(if s[i] == '.' then '.' else s[i], CollapseDotsFrom(s, j), spaces);
      if s[i] == '.' {
        DropDotsRun(s, i, j, spaces);
      } else {
        DropDotsAt(s, i, spaces);
      }
    }
  }

  /** re.sub(r'\.\s*\.', '.') removes only dots and whitespace. */
  lemma {:induction false} DotSpaceDotFromContent(s: string, i: nat)
    requires i <= |s|
    ensures DropDots(DotSpaceDotFrom(s, i), true) == DropDots(s[i..], true)
    decreases |s| - i
  {
    if i < |s| {
      var merge := s[i] == '.' && SkipSpaces(s, i + 1) < |s| && s[SkipSpaces(s, i + 1)] == '.';
      var j := if merge then SkipSpaces(s, i + 1) + 1 else i + 1;
      DotSpaceDotFromContent(s, j);
      DropDotsCons(if merge then '.' else s[i], DotSpaceDotFrom(s, j), true);
      if merge {
        DropDotsRun(s, i, j, true);
      } else {
        DropDotsAt(s, i, true);
      }
    }
  }

  /** re.sub(r'\s+', ' ') changes only whitespace. */
  lemma {:induction false} CollapseSpacesContent(s: string)
    ensures DropDots(CollapseSpaces(s), true) == DropDots(s, true)
    decreases |s|, 1
  {
    if s != [] {
      if IsSpace(s[0]) {
        CollapseSpaceRun(s);
      } else {
        CollapseSpacesChar(s);
      }
    }
  }

  lemma {:induction false} CollapseSpaceRun(s: string)
    requires s != [] && IsSpace(s[0])
    ensures DropDots(CollapseSpaces(s), true) == DropDots(s, true)
    decreases |s|, 0
  {
    var t := TrimStart(s);
    CollapseSpacesContent(t);
    TrimStartContent(s);
    CollapseSpaceUnfold(s, t);
    ContentStep(CollapseSpaces(s), ' ', CollapseSpaces(t), s, t);
  }

  lemma CollapseSpaceUnfold(s: string, t: string)
    requires s != [] && IsSpace(s[0]) && t == TrimStart(s)
    ensures CollapseSpaces(s) == [' '] + CollapseSpaces(t)
  {
  }

  lemma {:induction false} CollapseSpacesChar(s: string)
    requires s != [] && !IsSpace(s[0])
    ensures DropDots(CollapseSpaces(s), true) == DropDots(s, true)
    decreases |s|, 0
  {
    CollapseSpacesContent(s[1..]);
    ContentStep(CollapseSpaces(s), s[0], CollapseSpaces(s[1..]), s, s[1..]);
  }

  /** str.lstrip() removes only whitespace. */
  lemma TrimStartContent(s: string)
    ensures DropDots(TrimStart(s), true) == DropDots(s, true)
  {
    var m := |s| - |TrimStart(s)|;
    TrimStartDropsBlank(s);
    forall k | 0 <= k < m
      ensures Dropped(s[k], true)
    {
      assert s[k] == s[..m][k];
    }
    DropDotsRun(s, 0, m, true);
    assert s[0..] == s;
  }

  /** out is c in front of rest, where rest has the content of s' and s
      has the content of c in front of s'. */
  lemma ContentStep(out: string, c: char, rest: string, s: string, s': string)
    requires out == [c] + rest
    requires DropDots(rest, true) == DropDots(s', true)
    requires DropDots(s, true) == (if Dropped(c, true) then [] else [c]) + DropDots(s', true)
    ensures DropDots(out, true) == DropDots(s, true)
  {
    DropDotsCons(c, rest, true);
  }

  /** str.strip() removes only whitespace. */
  lemma StripKeepsContent(s: string)
    ensures DropDots(Strip(s), true) == DropDots(s, true)
  {
    StripContent(s);
    var head, tail :| Blank(head) && Blank(tail) && s == head + Strip(s) + tail;
    DropDotsAppend(head + Strip(s), tail, true);
    DropDotsAppend(head, Strip(s), true);
    DropDotsBlank(head);
    DropDotsBlank(tail);
  }

  /** Putting character c in front of r keeps r's properties when the seam
      is harmless. */
  lemma GlueKeeps(c: char, r: string, dotsOk: bool)
    requires dotsOk ==> !(c == '.' && r != [] && r[0] == '.')
    ensures dotsOk && NoDoubleDot(r) ==> NoDoubleDot([c] + r)
    ensures SingleSpaced(r) && (IsSpace(c) ==> c == ' ') && !(IsSpace(c) && r != [] && IsSpace(r[0]))
      ==> SingleSpaced([c] + r)
  {
    var t := [c] + r;
    assert forall k :: 0 < k < |t| ==> t[k] == r[k - 1];
  }

  /** The whole chain of rewrite_text. */
  function Clean(s: string): string {
    DotSpaceDot(CollapseDots(Strip(CollapseSpaces(s))))
  }

  /** Stripping text that ends in a dot keeps that dot, and stripping
      single-spaced text keeps it single-spaced. */
  lemma StripDotted(s: string)
    requires s != [] && s[|s| - 1] == '.' && SingleSpaced(s)
    ensures Strip(s) != [] && Strip(s)[|Strip(s)| - 1] == '.'
    ensures SingleSpaced(Strip(s))
  {
    StripKeepsLastDot(s);
    SuffixSingleSpaced(s, |s| - |Strip(s)|);
  }

  /** Stripping text that ends with a dot only drops leading whitespace. */
  lemma StripKeepsLastDot(s: string)
    requires s != [] && s[|s| - 1] == '.'
    ensures Strip(s) != [] && Strip(s)[|Strip(s)| - 1] == '.'
    ensures Strip(s) == s[|s| - |Strip(s)|..]
  {
    var t := TrimStart(s);
    TrimStartKeepsLast(s);
    TrimEndKeeps(t);
    assert Strip(s) == t;
  }

  /** A suffix of a single-spaced string is single-spaced. */
  lemma SuffixSingleSpaced(s: string, a: nat)
    requires a <= |s| && SingleSpaced(s)
    ensures SingleSpaced(s[a..])
  {
    assert forall k :: 0 <= k < |s| - a ==> s[a..][k] == s[a + k];
  }

  lemma TrimStartKeepsLast(s: string)
    requires s != [] && !IsSpace(s[|s| - 1])
    ensures TrimStart(s) != [] && TrimStart(s)[|TrimStart(s)| - 1] == s[|s| - 1]
  {
    assert !Blank(s);
  }

  lemma TrimEndKeeps(t: string)
    requires t != [] && !IsSpace(t[|t| - 1])
    ensures TrimEnd(t) == t
  {
  }

  /** Text that starts with a non-space, ends with a dot and is
      single-spaced: what the whitespace steps of the chain leave. */
  ghost predicate Dotted(x: string) {
    x != [] && !IsSpace(x[0]) && x[|x| - 1] == '.' && SingleSpaced(x)
  }

  lemma CollapseDotsKeeps(x: string)
    requires Dotted(x)
    ensures Dotted(CollapseDots(x)) && NoDoubleDot(CollapseDots(x))
  {
    CollapseDotsFromShape(x, 0);
  }

  lemma DotSpaceDotKeeps(x: string)
    requires Dotted(x) && NoDoubleDot(x)
    ensures Dotted(DotSpaceDot(x)) && NoDoubleDot(DotSpaceDot(x))
  {
    DotSpaceDotFromEnds(x, 0);
    DotSpaceDotFromShape(x, 0);
  }

  lemma WhitespaceStepsDotted(s: string)
    requires s != [] && s[|s| - 1] == '.'
    ensures Dotted(Strip(CollapseSpaces(s)))
  {
    var x := CollapseSpaces(s);
    assert x != [];
    assert x[|x| - 1] == '.';
    assert SingleSpaced(x);
    StripDotted(x);
    assert NoEdgeSpace(Strip(x));
  }

  /** The two dot steps keep dotted text dotted and leave no two adjacent
      dots. */
  lemma DotStepsKeep(x: string)
    requires Dotted(x)
    ensures Dotted(DotSpaceDot(CollapseDots(x))) && NoDoubleDot(DotSpaceDot(CollapseDots(x)))
  {
    CollapseDotsKeeps(x);
    DotSpaceDotKeeps(CollapseDots(x));
  }

  /** The clean-up of text ending in a dot is non-empty, ends in a dot, has
      no two adjacent dots, and is tidy: no whitespace run, no whitespace at
      either end, and only plain spaces. */
  lemma CleanShape(s: string)
    requires s != [] && s[|s| - 1] == '.'
    ensures Clean(s) != [] && Clean(s)[|Clean(s)| - 1] == '.'
    ensures NoDoubleDot(Clean(s))
    ensures Tidy(Clean(s))
    ensures DropDots(Clean(s), true) == DropDots(s, true)
  {
    WhitespaceStepsDotted(s);
    DotStepsKeep(Strip(CollapseSpaces(s)));
    CleanKeepsContent(s);
  }

  /** The clean-up removes only dots and whitespace: every other character
      of the input survives, in order, and none is added. */
  lemma CleanKeepsContent(s: string)
    ensures DropDots(Clean(s), true) == DropDots(s, true)
  {
    var a := CollapseSpaces(s);
    CollapseSpacesContent(s);
    StripKeepsContent(a);
    CollapseDotsContent(Strip(a), true);
    DotSpaceDotContent(CollapseDots(Strip(a)));
  }

  lemma CollapseDotsContent(s: string, spaces: bool)
    ensures DropDots(CollapseDots(s), spaces) == DropDots(s, spaces)
  {
    CollapseDotsFromContent(s, 0, spaces);
    assert s[0..] == s;
  }

  lemma DotSpaceDotContent(s: string)
    ensures DropDots(DotSpaceDot(s), true) == DropDots(s, true)
  {
    DotSpaceDotFromContent(s, 0);
    assert s[0..] == s;
  }

  /** Where no two dots are adjacent there is no "..": the pause the
      Suspenseful tone adds never survives the clean-up. */
  lemma {:induction false} NoDoubleDotNoEllipsis(s: string)
    requires NoDoubleDot(s)
    ensures !Contains(s, "..")
    decreases |s|
  {
    if |s| >= 2 {
      assert !StartsWith(s, "..") by {
        assert s[0] != '.' || s[1] != '.';
      }
      assert NoDoubleDot(s[1..]) by {
        assert forall k :: 0 <= k < |s| - 1 ==> s[1..][k] == s[k + 1];
      }
      NoDoubleDotNoEllipsis(s[1..]);
    } else if |s| == 1 {
      assert !StartsWith(s, "..");
      assert s[1..] == [];
    }
  }
}
