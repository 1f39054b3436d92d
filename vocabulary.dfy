/** Vocabulary substitution: for each key of the tone's table, in table
    order, re.sub(r'\b' + re.escape(key) + r'\b', choice, text,
    flags=re.IGNORECASE), run only when the key occurs case-sensitively in
    the text as it stands at that point. */
module Vocabulary {
  import opened Text
  import opened TextFacts
  import opened RandomSource
  import opened ToneTables
  import opened Wrappers

  /** Position i of t holds a \w character. */
  predicate WordAt(t: string, i: int) {
    0 <= i < |t| && IsWordChar(t[i])
  }

  /** \b at position i: exactly one of the characters on either side is a
      \w character (the ends of t count as non-word). */
  predicate Boundary(t: string, i: int) {
    WordAt(t, i - 1) != WordAt(t, i)
  }

  /** a and b are equal ignoring ASCII case (re.IGNORECASE). */
  predicate FoldEq(a: string, b: string) {
    |a| == |b| && forall j :: 0 <= j < |a| ==> ToLower(a[j]) == ToLower(b[j])
  }

  /** The pattern \bkey\b matches t at i, ignoring ASCII case. */
  predicate MatchAt(t: string, key: string, i: nat) {
    && i + |key| <= |t|
    && FoldEq(t[i..i + |key|], key)
    && Boundary(t, i)
    && Boundary(t, i + |key|)
  }

  /** re.sub scanning t from i: each leftmost match is replaced by rep and
      the scan resumes after it. */
  function SubFrom(t: string, key: string, rep: string, i: nat): string
    requires key != [] && i <= |t|
    decreases |t| - i
  {
    if i == |t| then []
    else if MatchAt(t, key, i) then rep + SubFrom(t, key, rep, i + |key|)
    else [t[i]] + SubFrom(t, key, rep, i + 1)
  }

  function Sub(t: string, key: string, rep: string): string
    requires key != []
  {
    SubFrom(t, key, rep, 0)
  }

  /** With no match from i on, the scan copies the rest of t. */
  lemma {:induction false} SubFromNoMatch(t: string, key: string, rep: string, i: nat)
    requires key != [] && i <= |t|
    requires forall j :: i <= j < |t| ==> !MatchAt(t, key, j)
    ensures SubFrom(t, key, rep, i) == t[i..]
    decreases |t| - i
  {
    if i < |t| {
      SubFromNoMatch(t, key, rep, i + 1);
      assert t[i..] == [t[i]] + t[i + 1..];
    }
  }

  /** The scan copies t up to the first match at or after i, writes rep
      in place of the match and goes on after it. */
  lemma {:induction false} SubFromFirstMatch(t: string, key: string, rep: string, i: nat, m: nat)
    requires key != [] && i <= m < |t|
    requires MatchAt(t, key, m)
    requires forall j :: i <= j < m ==> !MatchAt(t, key, j)
    ensures SubFrom(t, key, rep, i) == t[i..m] + rep + SubFrom(t, key, rep, m + |key|)
    decreases m - i
  {
    if i < m {
      SubFromFirstMatch(t, key, rep, i + 1, m);
      SubFromCopyStep(t, key, rep, i, m);
    } else {
      SubFromHit(t, key, rep, m);
      assert t[i..m] + rep == rep;
    }
  }

  /** One copied character in front of the scan from i + 1. */
  lemma SubFromCopyStep(t: string, key: string, rep: string, i: nat, m: nat)
    requires key != [] && i < m < |t| && m + |key| <= |t|
    requires !MatchAt(t, key, i)
    requires SubFrom(t, key, rep, i + 1) == t[i + 1..m] + rep + SubFrom(t, key, rep, m + |key|)
    ensures SubFrom(t, key, rep, i) == t[i..m] + rep + SubFrom(t, key, rep, m + |key|)
  {
    SubFromSkip(t, key, rep, i);
    ConsSlice(t, i, m, rep, SubFrom(t, key, rep, m + |key|));
  }

  lemma ConsSlice(t: string, i: nat, m: nat, rep: string, rest: string)
    requires i < m <= |t|
    ensures [t[i]] + (t[i + 1..m] + rep + rest) == t[i..m] + rep + rest
  {
    assert t[i..m] == [t[i]] + t[i + 1..m];
  }

  /** Where no match starts, re.sub copies one character. */
  lemma SubFromSkip(t: string, key: string, rep: string, i: nat)
    requires key != [] && i < |t| && !MatchAt(t, key, i)
    ensures SubFrom(t, key, rep, i) == [t[i]] + SubFrom(t, key, rep, i + 1)
  {
  }

  /** Where a match starts, re.sub writes the replacement and skips it. */
  lemma SubFromHit(t: string, key: string, rep: string, i: nat)
    requires key != [] && i < |t| && MatchAt(t, key, i)
    ensures i + |key| <= |t|
    ensures SubFrom(t, key, rep, i) == rep + SubFrom(t, key, rep, i + |key|)
  {
  }

  /** Substitution without a match changes nothing. */
  lemma SubNoMatch(t: string, key: string, rep: string)
    requires key != []
    requires forall j :: 0 <= j < |t| ==> !MatchAt(t, key, j)
    ensures Sub(t, key, rep) == t
  {
    SubFromNoMatch(t, key, rep, 0);
  }

  /** An occurrence glued to a \w character on either side is not a match:
      a key inside a longer word is never replaced. */
  lemma InsideWordNoMatch(t: string, key: string, i: nat)
    requires key != [] && i + |key| <= |t|
    requires IsWordChar(key[0]) && IsWordChar(key[|key| - 1])
    requires FoldEq(t[i..i + |key|], key)
    requires WordAt(t, i - 1) || WordAt(t, i + |key|)
    ensures !MatchAt(t, key, i)
  {
    var n := |key| - 1;
    assert t[i..i + |key|][0] == t[i] && t[i..i + |key|][n] == t[i + n];
    FoldKeepsWordChar(t[i], key[0]);
    FoldKeepsWordChar(t[i + n], key[n]);
  }

  lemma FoldKeepsWordChar(a: char, b: char)
    requires ToLower(a) == ToLower(b) && IsWordChar(b)
    ensures IsWordChar(a)
  {
    if 'A' <= a <= 'Z' || 'A' <= b <= 'Z' {
      assert IsWordChar(ToLower(b));
    }
  }

  /** transform_vocabulary over the remaining keys of a table, reading
      draws from position p; returns the text and the next draw position. */
  function VocabFrom(text: string, table: seq<Entry>, d: nat -> Unit, p: nat): (r: (string, nat))
    requires WellFormed(table)
    ensures p <= r.1 <= p + |table|
    decreases |table|
  {
    if table == [] then (text, p)
    else
      var e := table[0];
      if Contains(text, e.key) then
        VocabFrom(Sub(text, e.key, ChoiceOf(e.choices, d(p))), table[1..], d, p + 1)
      else
        VocabFrom(text, table[1..], d, p)
  }

  /** self.transform_vocabulary(text, tone) against draws from position p. */
  function Transform(text: string, tone: string, d: nat -> Unit, p: nat): (r: (string, nat))
    ensures StyleOf(tone) == Plain ==> r == (text, p)
  {
    match VocabularyMap(tone)
    case None => (text, p)
    case Some(table) => VocabFrom(text, table, d, p)
  }

  /** When no key occurs in the text, nothing is replaced and no draw is
      consumed. */
  lemma {:induction false} VocabNoKey(text: string, table: seq<Entry>, d: nat -> Unit, p: nat)
    requires WellFormed(table)
    requires forall k :: 0 <= k < |table| ==> !Contains(text, table[k].key)
    ensures VocabFrom(text, table, d, p) == (text, p)
    decreases |table|
  {
    if table != [] {
      VocabNoKey(text, table[1..], d, p);
    }
  }

  /** The trigger is case-sensitive: a capitalised occurrence alone does not
      fire the key, so it is left as it is even though the substitution
      itself would have matched it. */
  lemma TriggerIsCaseSensitive(d: nat -> Unit, p: nat)
    ensures VocabFrom("Said it", [SuspensefulVocabulary[0]], d, p) == ("Said it", p)
  {
    AbsentFirstChar("Said it", "said");
  }

  /** self.transform_vocabulary: an unknown tone returns the text as it is;
      otherwise the table is applied key by key. */
  method TransformVocabulary(text: string, tone: string, rng: Rng) returns (result: string)
    modifies rng`pos
    ensures (result, rng.pos) == Transform(text, tone, rng.draws, old(rng.pos))
  {
    var m := VocabularyMap(tone);
    if m.None? {
      return text;
    }
    result := ApplyTable(text, m.value, rng);
  }

  /** The loop of transform_vocabulary: the accumulator is reassigned once
      per key that fires, in table order. */
  method ApplyTable(text: string, table: seq<Entry>, rng: Rng) returns (result: string)
    requires WellFormed(table)
    modifies rng`pos
    ensures (result, rng.pos) == VocabFrom(text, table, rng.draws, old(rng.pos))
  {
    result := text;
    for i := 0 to |table|
      invariant VocabFrom(text, table, rng.draws, old(rng.pos)) == VocabFrom(result, table[i..], rng.draws, rng.pos)
    {
      assert table[i..][1..] == table[i + 1..];
      var e := table[i];
      if Contains(result, e.key) {
        var replacement := rng.Choice(e.choices);
        result := Sub(result, e.key, replacement);
      }
    }
    assert table[|table|..] == [];
  }
}
