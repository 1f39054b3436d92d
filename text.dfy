/** Characters and the string operations of Python's `str` and `re` that
    both the rewriter and the speech front end rely on, over ASCII text. */
module Text {

  /** Python's str.isspace() and the regex class \s, on ASCII: tab, line
      feed, vertical tab, form feed, carriage return, the separators
      \x1c-\x1f and the space. */
  predicate IsSpace(c: char) {
    c == ' ' || '\t' <= c <= '\r' || '\U{1C}' <= c <= '\U{1F}'
  }

  predicate IsDigit(c: char) { '0' <= c <= '9' }

  /** The regex class \w on ASCII. */
  predicate IsWordChar(c: char) {
    'a' <= c <= 'z' || 'A' <= c <= 'Z' || IsDigit(c) || c == '_'
  }

  function ToLower(c: char): char {
    if 'A' <= c <= 'Z' then (c as int + 32) as char else c
  }

  /** Python's str.upper() on one ASCII character. */
  function ToUpper(c: char): (d: char)
    ensures 'a' <= c <= 'z' ==> 'A' <= d <= 'Z' && ToLower(d) == c
    ensures !('a' <= c <= 'z') ==> d == c
  {
    if 'a' <= c <= 'z' then (c as int - 32) as char else c
  }

  predicate Blank(s: string) {
    forall i :: 0 <= i < |s| ==> IsSpace(s[i])
  }

  predicate NoSpace(s: string) {
    forall i :: 0 <= i < |s| ==> !IsSpace(s[i])
  }

  predicate DigitFree(s: string) {
    forall i :: 0 <= i < |s| ==> !IsDigit(s[i])
  }

  /** No whitespace at either end. */
  predicate NoEdgeSpace(s: string) {
    s == [] || (!IsSpace(s[0]) && !IsSpace(s[|s| - 1]))
  }

  /** Every whitespace character is a plain space, and no two whitespace
      characters are adjacent. */
  ghost predicate SingleSpaced(s: string) {
    && (forall i :: 0 <= i < |s| && IsSpace(s[i]) ==> s[i] == ' ')
    && (forall j, k :: 0 <= j < k < |s| && k == j + 1 ==> !IsSpace(s[j]) || !IsSpace(s[k]))
  }

  /** What ' '.join(s.split()) and re.sub(r'\s+', ' ', s).strip() produce. */
  ghost predicate Tidy(s: string) {
    SingleSpaced(s) && NoEdgeSpace(s)
  }

  /** Drops the leading whitespace (Python's str.lstrip()). */
  function TrimStart(s: string): (r: string)
    ensures |r| <= |s| && r == s[|s| - |r|..]
    ensures r == [] || !IsSpace(r[0])
    ensures r == [] <==> Blank(s)
    ensures s != [] && IsSpace(s[0]) ==> |r| < |s|
    decreases |s|
  {
    if s != [] && IsSpace(s[0]) then
      var r := TrimStart(s[1..]);
      r
    else
      s
  }

  /** Drops the trailing whitespace (Python's str.rstrip()). */
  function TrimEnd(s: string): (r: string)
    ensures |r| <= |s| && r == s[..|r|]
    ensures r == [] || !IsSpace(r[|r| - 1])
    ensures r == [] <==> Blank(s)
    decreases |s|
  {
    if s != [] && IsSpace(s[|s| - 1]) then
      var r := TrimEnd(s[..|s| - 1]);
      r
    else
      s
  }

  /** Python's str.strip(). */
  function Strip(s: string): (r: string)
    ensures NoEdgeSpace(r)
    ensures r == [] <==> Blank(s)
    ensures |r| <= |s|
  {
    TrimEnd(TrimStart(s))
  }

  /** str.strip() removes whitespace from both ends and nothing else: s is
      a blank head, then the result, then a blank tail. */
  lemma StripContent(s: string)
    ensures exists head, tail :: Blank(head) && Blank(tail) && s == head + Strip(s) + tail
  {
    var t := TrimStart(s);
    TrimStartDropsBlank(s);
    TrimEndDropsBlank(t);
    assert Strip(s) == TrimEnd(t);
    BlankAround(s, t, Strip(s));
  }

  /** t, a suffix of s after blank text, and r, a prefix of t before blank
      text, make s a blank head, then r, then a blank tail. */
  lemma BlankAround(s: string, t: string, r: string)
    requires |t| <= |s| && t == s[|s| - |t|..] && Blank(s[..|s| - |t|])
    requires |r| <= |t| && r == t[..|r|] && Blank(t[|r|..])
    ensures exists head, tail :: Blank(head) && Blank(tail) && s == head + r + tail
  {
    ThreePieces(s, s[..|s| - |t|], t, r, t[|r|..]);
  }

  lemma ThreePieces(s: string, head: string, t: string, r: string, tail: string)
    requires |head| <= |s| && head == s[..|head|] && t == s[|head|..]
    requires |r| <= |t| && r == t[..|r|] && tail == t[|r|..]
    ensures s == head + r + tail
  {
    assert s == head + t;
    assert t == r + tail;
  }

  /** lstrip() drops only whitespace. */
  lemma {:induction false} TrimStartDropsBlank(s: string)
    ensures Blank(s[..|s| - |TrimStart(s)|])
    decreases |s|
  {
    if s != [] && IsSpace(s[0]) {
      TrimStartDropsBlank(s[1..]);
      var k := |s| - |TrimStart(s)|;
      forall j | 0 <= j < k
        ensures IsSpace(s[..k][j])
      {
        if j > 0 {
          assert s[..k][j] == s[1..][..k - 1][j - 1];
        }
      }
    }
  }

  /** rstrip() drops only whitespace. */
  lemma {:induction false} TrimEndDropsBlank(s: string)
    ensures Blank(s[|TrimEnd(s)|..])
    decreases |s|
  {
    if s != [] && IsSpace(s[|s| - 1]) {
      var p := s[..|s| - 1];
      TrimEndDropsBlank(p);
      var m := |TrimEnd(s)|;
      forall j | 0 <= j < |s| - m
        ensures IsSpace(s[m..][j])
      {
        if m + j < |s| - 1 {
          assert s[m..][j] == p[m..][j];
        }
      }
    }
  }

  /** re.sub(r'\s+', ' ', s): every maximal whitespace run becomes one space. */
  function CollapseSpaces(s: string): (r: string)
    ensures SingleSpaced(r)
    ensures |r| <= |s|
    ensures r == [] <==> s == []
    ensures r != [] ==> r[0] == (if IsSpace(s[0]) then ' ' else s[0])
    ensures r != [] ==> r[|r| - 1] == (if IsSpace(s[|s| - 1]) then ' ' else s[|s| - 1])
    decreases |s|
  {
    if s == [] then []
    else if IsSpace(s[0]) then [' '] + CollapseSpaces(TrimStart(s))
    else [s[0]] + CollapseSpaces(s[1..])
  }

  /** The first index at or after i that holds no whitespace, or |s|. */
  function SkipSpaces(s: string, i: nat): (j: nat)
    requires i <= |s|
    ensures i <= j <= |s|
    ensures forall k :: i <= k < j ==> IsSpace(s[k])
    ensures j < |s| ==> !IsSpace(s[j])
    decreases |s| - i
  {
    if i < |s| && IsSpace(s[i]) then SkipSpaces(s, i + 1) else i
  }

  /** The first index at or after i that holds whitespace, or |s|. */
  function SkipWord(s: string, i: nat): (j: nat)
    requires i <= |s|
    ensures i <= j <= |s|
    ensures forall k :: i <= k < j ==> !IsSpace(s[k])
    ensures j < |s| ==> IsSpace(s[j])
    decreases |s| - i
  {
    if i < |s| && !IsSpace(s[i]) then SkipWord(s, i + 1) else i
  }

  /** Non-empty, whitespace-free pieces. */
  predicate WordList(ws: seq<string>) {
    forall k :: 0 <= k < |ws| ==> ws[k] != [] && NoSpace(ws[k])
  }

  /** The maximal whitespace-free runs of s that start at or after i. */
  function WordsFrom(s: string, i: nat): seq<string>
    requires i <= |s|
    decreases |s| - i
  {
    var a := SkipSpaces(s, i);
    if a == |s| then []
    else
      var b := SkipWord(s, a);
      [s[a..b]] + WordsFrom(s, b)
  }

  /** Python's str.split() without a separator. */
  function Words(s: string): seq<string> {
    WordsFrom(s, 0)
  }

  /** Python's sep.join(xs). */
  function JoinWith(xs: seq<string>, sep: string): string {
    if xs == [] then []
    else if |xs| == 1 then xs[0]
    else xs[0] + sep + JoinWith(xs[1..], sep)
  }

  /** ' '.join(s.split()). */
  function Squash(s: string): string {
    JoinWith(Words(s), " ")
  }

  predicate StartsWith(s: string, p: string) {
    |p| <= |s| && s[..|p|] == p
  }

  predicate EndsWith(s: string, p: string) {
    |p| <= |s| && s[|s| - |p|..] == p
  }

  /** Python's `p in s`, case-sensitive. */
  predicate Contains(s: string, p: string)
    decreases |s|
  {
    StartsWith(s, p) || (s != [] && Contains(s[1..], p))
  }

  /** Python's s.replace(p, r): leftmost, non-overlapping occurrences. */
  function ReplaceAll(s: string, p: string, r: string): string
    requires p != []
    decreases |s|
  {
    if StartsWith(s, p) then r + ReplaceAll(s[|p|..], p, r)
    else if s == [] then []
    else [s[0]] + ReplaceAll(s[1..], p, r)
  }
}
