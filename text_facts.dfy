/** Facts about the string operations of module Text: what ' '.join(s.split())
    guarantees, and when str.replace can or cannot leave an occurrence of a
    pattern behind. */
module TextFacts {
  import opened Text

  /** Python's str.find for a pattern known to occur: the first index. */
  function Find(s: string, p: string): (i: nat)
    requires Contains(s, p)
    ensures i + |p| <= |s| && s[i..i + |p|] == p
    decreases |s|
  {
    if StartsWith(s, p) then 0
    else
      var j := Find(s[1..], p);
      assert s[1..][j..j + |p|] == s[j + 1..j + 1 + |p|];
      j + 1
  }

  lemma {:induction false} ContainsAt(s: string, p: string, i: nat)
    requires i + |p| <= |s| && s[i..i + |p|] == p
    ensures Contains(s, p)
    decreases i
  {
    if i > 0 {
      assert s[1..][i - 1..i - 1 + |p|] == s[i..i + |p|];
      ContainsAt(s[1..], p, i - 1);
    }
  }

  lemma {:induction false} ContainsTransitive(s: string, w: string, q: string)
    requires Contains(s, w) && Contains(w, q)
    ensures Contains(s, q)
  {
    var i, j := Find(s, w), Find(w, q);
    InnerSlice(s, i, i + |w|, j, j + |q|);
    ContainsAt(s, q, i + j);
  }

  lemma InnerSlice(s: string, a: nat, b: nat, c: nat, d: nat)
    requires a <= b <= |s| && c <= d <= b - a
    ensures s[a..b][c..d] == s[a + c..a + d]
  {
    assert forall k :: 0 <= k < d - c ==> s[a..b][c..d][k] == s[a + c + k];
  }

  /** A pattern whose first character never occurs is absent. */
  lemma {:induction false} AbsentFirstChar(s: string, p: string)
    requires p != [] && forall k :: 0 <= k < |s| ==> s[k] != p[0]
    ensures !Contains(s, p)
    decreases |s|
  {
    if s != [] {
      assert s[0] != p[0];
      AbsentFirstChar(s[1..], p);
    }
  }

  /** A pattern that does not start the text, and whose first character
      never occurs later in it, is absent. */
  lemma AbsentPastHead(s: string, p: string, w: nat)
    requires w < |p| <= |s| && s[w] != p[w]
    requires forall k :: 0 < k < |s| ==> s[k] != p[0]
    ensures !Contains(s, p)
  {
    assert s[..|p|][w] != p[w];
    AbsentFirstChar(s[1..], p);
  }

  lemma {:induction false} ContainsInSuffix(s: string, k: nat, q: string)
    requires k <= |s| && Contains(s[k..], q)
    ensures Contains(s, q)
    decreases k
  {
    if k > 0 {
      assert s[1..][k - 1..] == s[k..];
      ContainsInSuffix(s[1..], k - 1, q);
    }
  }

  /** No proper prefix of q ends r, so q cannot straddle the end of r. */
  predicate NoTailOverlap(r: string, q: string) {
    forall k :: 0 < k < |q| ==> !EndsWith(r, q[..k])
  }

  /** No suffix of q starts r, so q cannot end inside r or start it. */
  predicate NoHeadOverlap(r: string, q: string) {
    forall k :: 0 <= k < |q| ==> !StartsWith(r, q[k..])
  }

  /** An occurrence of q in a + x that cannot straddle the seam lies in a or in x. */
  lemma {:induction false} ContainsAcrossSeam(a: string, x: string, q: string)
    requires q != [] && NoTailOverlap(a, q)
    requires Contains(a + x, q)
    ensures Contains(a, q) || Contains(x, q)
    decreases |a|
  {
    if a == [] {
      assert a + x == x;
    } else if StartsWith(a + x, q) {
      if |a| >= |q| {
        assert (a + x)[..|q|] == a[..|q|];
      } else {
        assert a == (a + x)[..|a|] == q[..|a|];
        assert EndsWith(a, q[..|a|]);
        assert false;
      }
    } else {
      assert (a + x)[1..] == a[1..] + x;
      ContainsAcrossSeam(a[1..], x, q);
    }
  }

  /** A replacement text that cannot begin with any suffix of q: whatever
      suffix of q starts the output of ReplaceAll already started the input. */
  lemma {:induction false} StartsThroughReplace(x: string, p: string, r: string, q: string, j: nat)
    requires p != [] && j < |q| && |r| >= |q| && NoHeadOverlap(r, q)
    requires StartsWith(ReplaceAll(x, p, r), q[j..])
    ensures StartsWith(x, q[j..])
    decreases |q| - j
  {
    if StartsWith(x, p) {
      assert false;
    } else if x == [] {
      assert false;
    } else {
      var y := ReplaceAll(x[1..], p, r);
      assert ReplaceAll(x, p, r) == [x[0]] + y;
      if j + 1 < |q| {
        assert y[..|q| - j - 1] == ([x[0]] + y)[1..|q| - j] == q[j + 1..];
        StartsThroughReplace(x[1..], p, r, q, j + 1);
        assert x[..|q| - j] == [x[0]] + x[1..][..|q| - j - 1];
      } else {
        assert x[..1] == [x[0]];
      }
    }
  }

  /** Replacing p by r leaves no occurrence of q behind, when r does not
      overlap q at either end and q is p itself or absent from the input. */
  lemma {:induction false} ReplaceLeavesNo(s: string, p: string, r: string, q: string)
    requires p != [] && q != [] && |r| >= |q|
    requires !Contains(r, q) && NoHeadOverlap(r, q) && NoTailOverlap(r, q)
    requires q == p || !Contains(s, q)
    ensures !Contains(ReplaceAll(s, p, r), q)
    decreases |s|
  {
    if StartsWith(s, p) {
      var rest := s[|p|..];
      if q != p && Contains(rest, q) {
        ContainsInSuffix(s, |p|, q);
      }
      ReplaceLeavesNo(rest, p, r, q);
      if Contains(r + ReplaceAll(rest, p, r), q) {
        ContainsAcrossSeam(r, ReplaceAll(rest, p, r), q);
      }
    } else if s != [] {
      var y := ReplaceAll(s[1..], p, r);
      assert ReplaceAll(s, p, r) == [s[0]] + y;
      ReplaceLeavesNo(s[1..], p, r, q);
      if StartsWith([s[0]] + y, q) {
        if |q| > 1 {
          assert y[..|q| - 1] == q[1..];
          StartsThroughReplace(s[1..], p, r, q, 1);
        }
        assert false;
      }
      assert ([s[0]] + y)[1..] == y;
    }
  }

  /** str.replace does nothing when the pattern does not occur. */
  lemma {:induction false} ReplaceAbsent(s: string, p: string, r: string)
    requires p != [] && !Contains(s, p)
    ensures ReplaceAll(s, p, r) == s
    decreases |s|
  {
    if s != [] {
      ReplaceAbsent(s[1..], p, r);
    }
  }

  lemma {:induction false} ReplaceKeepsDigitFree(s: string, p: string, r: string)
    requires p != [] && DigitFree(s) && DigitFree(r)
    ensures DigitFree(ReplaceAll(s, p, r))
    decreases |s|
  {
    if StartsWith(s, p) {
      ReplaceKeepsDigitFree(s[|p|..], p, r);
    } else if s != [] {
      ReplaceKeepsDigitFree(s[1..], p, r);
    }
  }

  lemma SingleSpacedGlue(a: string, b: string)
    requires a != [] && NoSpace(a) && SingleSpaced(b) && b != [] && !IsSpace(b[0])
    ensures SingleSpaced(a + " " + b)
  {
    var j := a + " " + b;
    forall i | 0 < i < |j| && IsSpace(j[i]) ensures !IsSpace(j[i - 1]) {
      if i > |a| + 1 {
        assert j[i] == b[i - |a| - 1] && j[i - 1] == b[i - |a| - 2];
      }
    }
  }

  /** Joining non-empty whitespace-free words with single spaces gives tidy text. */
  lemma {:induction false} JoinTidy(ws: seq<string>)
    requires WordList(ws)
    ensures Tidy(JoinWith(ws, " "))
    ensures ws != [] ==> JoinWith(ws, " ") != [] && JoinWith(ws, " ")[0] == ws[0][0]
  {
    if |ws| >= 2 {
      var rest := JoinWith(ws[1..], " ");
      JoinTidy(ws[1..]);
      assert ws[0] != [] && NoSpace(ws[0]);
      SingleSpacedGlue(ws[0], rest);
    }
  }

  /** Every word of str.split() from index i is a non-empty, whitespace-free
      piece of s; there is none exactly when the rest of s is blank. */
  lemma {:induction false} WordsFromShape(s: string, i: nat)
    requires i <= |s|
    ensures WordList(WordsFrom(s, i))
    ensures forall k :: 0 <= k < |WordsFrom(s, i)| ==> Contains(s, WordsFrom(s, i)[k])
    ensures WordsFrom(s, i) == [] <==> Blank(s[i..])
    decreases |s| - i
  {
    var a := SkipSpaces(s, i);
    if a < |s| {
      var b := SkipWord(s, a);
      WordsFromShape(s, b);
      WordsFromStep(s, i, a, b);
      WordPiece(s, a, b);
      ConsWordShape(s, s[a..b], WordsFrom(s, b));
      NotBlankFrom(s, i, a);
    } else {
      WordsFromDone(s, i);
      BlankFrom(s, i);
    }
  }

  /** The run s[a..b] that SkipWord finds is a word of s. */
  lemma WordPiece(s: string, a: nat, b: nat)
    requires a < |s| && !IsSpace(s[a]) && b == SkipWord(s, a)
    ensures s[a..b] != [] && NoSpace(s[a..b]) && Contains(s, s[a..b])
  {
    assert s[a..b][0] == s[a];
    forall k | 0 <= k < b - a
      ensures !IsSpace(s[a..b][k])
    {
      assert s[a..b][k] == s[a + k];
    }
    ContainsAt(s, s[a..b], a);
  }

  lemma ConsWordShape(s: string, w: string, rest: seq<string>)
    requires w != [] && NoSpace(w) && Contains(s, w)
    requires WordList(rest) && forall k :: 0 <= k < |rest| ==> Contains(s, rest[k])
    ensures WordList([w] + rest)
    ensures forall k :: 0 <= k < |[w] + rest| ==> Contains(s, ([w] + rest)[k])
  {
    forall k | 1 <= k < |[w] + rest|
      ensures ([w] + rest)[k] != [] && NoSpace(([w] + rest)[k]) && Contains(s, ([w] + rest)[k])
    {
      assert ([w] + rest)[k] == rest[k - 1];
    }
  }

  lemma NotBlankFrom(s: string, i: nat, a: nat)
    requires i <= a < |s| && !IsSpace(s[a])
    ensures !Blank(s[i..])
  {
    assert s[i..][a - i] == s[a];
  }

  lemma BlankFrom(s: string, i: nat)
    requires i <= |s| && SkipSpaces(s, i) == |s|
    ensures Blank(s[i..])
  {
    forall k | 0 <= k < |s| - i
      ensures IsSpace(s[i..][k])
    {
      assert s[i..][k] == s[i + k];
    }
  }

  lemma WordsShape(s: string)
    ensures WordList(Words(s))
    ensures forall k :: 0 <= k < |Words(s)| ==> Contains(s, Words(s)[k])
    ensures Words(s) == [] <==> Blank(s)
  {
    WordsFromShape(s, 0);
    assert s[0..] == s;
  }

  /** Scanning for words in a + b from inside b ignores a. */
  lemma WordsFromShift(a: string, b: string, i: nat)
    requires i <= |b|
    ensures WordsFrom(a + b, |a| + i) == WordsFrom(b, i)
  {
    TailOfJoin(a, b);
    WordsFromTail(a + b, |a|, b, i);
  }

  /** s holds b from index d to its end. */
  ghost predicate TailIs(s: string, d: nat, b: string) {
    |s| == d + |b| && forall k :: 0 <= k < |b| ==> s[d + k] == b[k]
  }

  lemma TailOfJoin(a: string, b: string)
    ensures TailIs(a + b, |a|, b)
  {
  }

  /** The words of s from inside its tail b are the words of b. */
  lemma {:induction false} WordsFromTail(s: string, d: nat, b: string, i: nat)
    requires TailIs(s, d, b) && i <= |b|
    ensures WordsFrom(s, d + i) == WordsFrom(b, i)
    decreases |b| - i
  {
    var x := SkipSpaces(b, i);
    SkipSpacesTail(s, d, b, i);
    if x < |b| {
      var y := SkipWord(b, x);
      SkipWordTail(s, d, b, x);
      WordsFromTail(s, d, b, y);
      SliceTail(s, d, b, x, y);
      TailStep(s, d, b, i, x, y);
    } else {
      WordsFromDone(s, d + i);
      WordsFromDone(b, i);
    }
  }

  /** The step of WordsFromTail that reads one word. */
  lemma TailStep(s: string, d: nat, b: string, i: nat, x: nat, y: nat)
    requires |s| == d + |b| && i <= |b| && x == SkipSpaces(b, i) && x < |b| && y == SkipWord(b, x)
    requires SkipSpaces(s, d + i) == d + x && SkipWord(s, d + x) == d + y
    requires s[d + x..d + y] == b[x..y] && WordsFrom(s, d + y) == WordsFrom(b, y)
    ensures WordsFrom(s, d + i) == WordsFrom(b, i)
  {
    WordsFromStep(s, d + i, d + x, d + y);
    WordsFromStep(b, i, x, y);
  }

  /** One word of str.split(): the scan from i finds the word s[x..y]. */
  lemma WordsFromStep(s: string, i: nat, x: nat, y: nat)
    requires i <= |s| && x == SkipSpaces(s, i) && x < |s| && y == SkipWord(s, x)
    ensures WordsFrom(s, i) == [s[x..y]] + WordsFrom(s, y)
  {
  }

  lemma WordsFromDone(s: string, i: nat)
    requires i <= |s| && SkipSpaces(s, i) == |s|
    ensures WordsFrom(s, i) == []
  {
  }

  lemma SliceTail(s: string, d: nat, b: string, x: nat, y: nat)
    requires TailIs(s, d, b) && x <= y <= |b|
    ensures s[d + x..d + y] == b[x..y]
  {
    forall k | 0 <= k < y - x
      ensures s[d + x..d + y][k] == b[x..y][k]
    {
      assert b[x..y][k] == b[x + k];
    }
  }

  lemma {:induction false} SkipSpacesTail(s: string, d: nat, b: string, i: nat)
    requires TailIs(s, d, b) && i <= |b|
    ensures SkipSpaces(s, d + i) == d + SkipSpaces(b, i)
    decreases |b| - i
  {
    if i < |b| {
      assert s[d + i] == b[i];
      SkipSpacesTail(s, d, b, i + 1);
    }
  }

  lemma {:induction false} SkipWordTail(s: string, d: nat, b: string, i: nat)
    requires TailIs(s, d, b) && i <= |b|
    ensures SkipWord(s, d + i) == d + SkipWord(b, i)
    decreases |b| - i
  {
    if i < |b| {
      assert s[d + i] == b[i];
      SkipWordTail(s, d, b, i + 1);
    }
  }

  /** re.sub(r'\s+', ' ', s) keeps the words of s: the same non-whitespace
      runs, in the same order. */
  lemma {:induction false} CollapseSpacesWords(s: string)
    ensures Words(CollapseSpaces(s)) == Words(s)
    decreases |s|
  {
    if s != [] {
      if IsSpace(s[0]) {
        CollapseSpacesWords(TrimStart(s));
        CollapsedRun(s);
        WordsTrimStart(s);
      } else {
        CollapseSpacesWords(s[1..]);
        CollapsedChar(s);
      }
    }
  }

  /** The step of CollapseSpacesWords over a whitespace run: the run
      becomes one space, which adds no word. */
  lemma CollapsedRun(s: string)
    requires s != [] && IsSpace(s[0])
    ensures Words(CollapseSpaces(s)) == Words(CollapseSpaces(TrimStart(s)))
  {
    var r := CollapseSpaces(s);
    assert r[1..] == CollapseSpaces(TrimStart(s));
    WordsDropSpace(r);
  }

  /** The step of CollapseSpacesWords over a character that is kept. */
  lemma CollapsedChar(s: string)
    requires s != [] && !IsSpace(s[0])
    requires Words(CollapseSpaces(s[1..])) == Words(s[1..])
    ensures Words(CollapseSpaces(s)) == Words(s)
  {
    var r := CollapseSpaces(s);
    var x := s[1..];
    assert r[0] == s[0] && r[1..] == CollapseSpaces(x);
    TailOfDrop(r);
    TailOfDrop(s);
    WordsConsChar(r, r[1..]);
    WordsConsChar(s, x);
  }

  lemma TailOfDrop(s: string)
    requires s != []
    ensures TailIs(s, 1, s[1..])
  {
  }

  /** Leading whitespace adds no word. */
  lemma WordsDropSpace(s: string)
    requires s != [] && IsSpace(s[0])
    ensures Words(s) == Words(s[1..])
  {
    TailOfDrop(s);
    WordsFromTail(s, 1, s[1..], 0);
    WordsFromSpace(s, 0);
  }

  lemma WordsFromSpace(s: string, i: nat)
    requires i < |s| && IsSpace(s[i])
    ensures WordsFrom(s, i) == WordsFrom(s, i + 1)
  {
    assert SkipSpaces(s, i) == SkipSpaces(s, i + 1);
  }

  /** lstrip() keeps the words. */
  lemma {:induction false} WordsTrimStart(s: string)
    ensures Words(TrimStart(s)) == Words(s)
    decreases |s|
  {
    if s != [] && IsSpace(s[0]) {
      WordsTrimStart(s[1..]);
      WordsDropSpace(s);
    }
  }

  /** The words of a character c that is not whitespace followed by text
      with words ws: c is a word of its own when the text is empty or starts
      with whitespace (apart), and the start of the first word otherwise. */
  ghost function ConsChar(c: char, ws: seq<string>, apart: bool): seq<string>
  {
    if apart || ws == [] then [[c]] + ws else [[c] + ws[0]] + ws[1..]
  }

  lemma WordsConsChar(s: string, x: string)
    requires s != [] && !IsSpace(s[0]) && TailIs(s, 1, x)
    ensures Words(s) == ConsChar(s[0], Words(x), x == [] || IsSpace(x[0]))
  {
    if x == [] || IsSpace(x[0]) {
      WordsConsApart(s, x);
    } else {
      WordsConsJoined(s, x);
    }
  }

  lemma WordsConsApart(s: string, x: string)
    requires s != [] && !IsSpace(s[0]) && TailIs(s, 1, x) && (x == [] || IsSpace(x[0]))
    ensures Words(s) == [[s[0]]] + Words(x)
  {
    assert |s| == 1 || s[1] == x[0];
    assert SkipWord(s, 0) == 1;
    WordsFromStep(s, 0, 0, 1);
    assert s[0..1] == [s[0]];
    WordsFromTail(s, 1, x, 0);
  }

  lemma WordsConsJoined(s: string, x: string)
    requires s != [] && !IsSpace(s[0]) && TailIs(s, 1, x) && x != [] && !IsSpace(x[0])
    ensures Words(x) != [] && Words(s) == [[s[0]] + Words(x)[0]] + Words(x)[1..]
  {
    var y := SkipWord(x, 0);
    WordsFromStep(x, 0, 0, y);
    JoinedSkip(s, x, y);
    WordsFromStep(s, 0, 0, 1 + y);
    WordsFromTail(s, 1, x, y);
    SliceTail(s, 1, x, 0, y);
    JoinedWords(s, x, y);
  }

  lemma JoinedSkip(s: string, x: string, y: nat)
    requires s != [] && !IsSpace(s[0]) && TailIs(s, 1, x) && y <= |x| && y == SkipWord(x, 0)
    ensures SkipWord(s, 0) == 1 + y
  {
    SkipWordTail(s, 1, x, 0);
  }

  /** The congruence that closes WordsConsJoined. */
  lemma JoinedWords(s: string, x: string, y: nat)
    requires 1 + |x| == |s| && y <= |x| && s[1..1 + y] == x[0..y]
    requires Words(x) == [x[0..y]] + WordsFrom(x, y)
    requires WordsFrom(s, 0) == [s[0..1 + y]] + WordsFrom(s, 1 + y)
    requires WordsFrom(s, 1 + y) == WordsFrom(x, y)
    ensures Words(s) == [[s[0]] + Words(x)[0]] + Words(x)[1..]
  {
    SliceCons(s, 1 + y);
    ConsFirst(s[0], s[0..1 + y], x[0..y], Words(x), WordsFrom(x, y), Words(s));
  }

  lemma SliceCons(s: string, m: nat)
    requires 0 < m <= |s|
    ensures s[0..m] == [s[0]] + s[1..m]
  {
  }

  /** Putting c in front of the first word w of ws. */
  lemma ConsFirst(c: char, piece: string, w: string, ws: seq<string>, rest: seq<string>, all: seq<string>)
    requires piece == [c] + w && ws == [w] + rest && all == [piece] + rest
    ensures ws != [] && all == [[c] + ws[0]] + ws[1..]
  {
    assert ws[0] == w && ws[1..] == rest;
  }

  /** A whitespace-free word, a space, then text that starts with a word. */
  lemma WordsCons(w: string, x: string)
    requires w != [] && NoSpace(w) && (x == [] || !IsSpace(x[0]))
    ensures Words(w + " " + x) == [w] + Words(x)
  {
    var j := w + " " + x;
    assert j == (w + " ") + x;
    assert j[0] == w[0];
    assert SkipSpaces(j, 0) == 0;
    assert SkipWord(j, 0) == |w| by {
      assert forall k :: 0 <= k < |w| ==> j[k] == w[k];
      assert j[|w|] == ' ';
    }
    assert j[0..|w|] == w;
    assert WordsFrom(j, 0) == [w] + WordsFrom(j, |w|);
    assert SkipSpaces(j, |w|) == SkipSpaces(j, |w| + 1);
    assert WordsFrom(j, |w|) == WordsFrom(j, |w| + 1);
    WordsFromShift(w + " ", x, 0);
  }

  lemma WordsSingle(w: string)
    requires w != [] && NoSpace(w)
    ensures Words(w) == [w]
  {
    assert SkipSpaces(w, 0) == 0;
    assert SkipWord(w, 0) == |w|;
    assert w[0..|w|] == w;
    assert WordsFrom(w, |w|) == [];
  }

  /** str.split() undoes ' '.join of non-empty whitespace-free words. */
  lemma {:induction false} WordsOfJoin(ws: seq<string>)
    requires WordList(ws)
    ensures Words(JoinWith(ws, " ")) == ws
  {
    if |ws| == 1 {
      WordsSingle(ws[0]);
    } else if |ws| > 1 {
      WordsOfJoin(ws[1..]);
      JoinTidy(ws[1..]);
      WordsCons(ws[0], JoinWith(ws[1..], " "));
      assert [ws[0]] + ws[1..] == ws;
    }
  }

  /** ' '.join(s.split()) is tidy. */
  lemma SquashTidy(s: string)
    ensures Tidy(Squash(s))
  {
    WordsShape(s);
    JoinTidy(Words(s));
  }

  /** Applying ' '.join(s.split()) twice is the same as applying it once. */
  lemma SquashIdempotent(s: string)
    ensures Squash(Squash(s)) == Squash(s)
  {
    WordsShape(s);
    WordsOfJoin(Words(s));
  }

  /** A whitespace-free pattern found in a space-joined list lies in one word. */
  lemma {:induction false} JoinContains(ws: seq<string>, q: string)
    requires q != [] && NoSpace(q) && Contains(JoinWith(ws, " "), q)
    ensures exists k :: 0 <= k < |ws| && Contains(ws[k], q)
  {
    if ws == [] {
      assert false;
    } else if |ws| == 1 {
      assert Contains(ws[0], q);
    } else {
      var a := ws[0] + " ";
      var rest := JoinWith(ws[1..], " ");
      assert JoinWith(ws, " ") == a + rest;
      forall k | 0 < k < |q| ensures !EndsWith(a, q[..k]) {
        assert q[..k][k - 1] == q[k - 1] && !IsSpace(q[k - 1]);
      }
      ContainsAcrossSeam(a, rest, q);
      if Contains(a, q) {
        var i := Find(a, q);
        assert a[i..i + |q|][|q| - 1] == q[|q| - 1] && !IsSpace(q[|q| - 1]);
        assert i + |q| <= |ws[0]|;
        assert ws[0][i..i + |q|] == a[i..i + |q|];
        ContainsAt(ws[0], q, i);
      } else {
        JoinContains(ws[1..], q);
        var k :| 0 <= k < |ws[1..]| && Contains(ws[1..][k], q);
        assert ws[k + 1] == ws[1..][k];
      }
    }
  }

  /** ' '.join(s.split()) creates no occurrence of a whitespace-free pattern. */
  lemma SquashKeepsAbsent(s: string, q: string)
    requires q != [] && NoSpace(q) && !Contains(s, q)
    ensures !Contains(Squash(s), q)
  {
    if Contains(Squash(s), q) {
      JoinContains(Words(s), q);
      var k :| 0 <= k < |Words(s)| && Contains(Words(s)[k], q);
      WordsShape(s);
      ContainsTransitive(s, Words(s)[k], q);
    }
  }

  lemma {:induction false} JoinDigitFree(ws: seq<string>)
    requires forall k :: 0 <= k < |ws| ==> DigitFree(ws[k])
    ensures DigitFree(JoinWith(ws, " "))
  {
    if |ws| >= 2 {
      JoinDigitFree(ws[1..]);
    }
  }

  /** ' '.join(s.split()) adds no digit. */
  lemma SquashKeepsDigitFree(s: string)
    requires DigitFree(s)
    ensures DigitFree(Squash(s))
  {
    WordsShape(s);
    forall k | 0 <= k < |Words(s)| ensures DigitFree(Words(s)[k]) {
      var i := Find(s, Words(s)[k]);
      assert Words(s)[k] == s[i..i + |Words(s)[k]|];
    }
    JoinDigitFree(Words(s));
  }
}
