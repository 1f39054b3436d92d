/** restructure_for_tone: the text is cut into sentence fragments at runs
    of '.', '!' and '?', and the fragments are decorated with connectors,
    dramatic pauses and filler sentences according to the tone and the
    draws of the random generator. */
module Restructure {
  import opened Text
  import opened RandomSource
  import opened ToneTables

  predicate IsStop(c: char) { c == '.' || c == '!' || c == '?' }

  predicate NoStop(s: string) {
    forall k :: 0 <= k < |s| ==> !IsStop(s[k])
  }

  /** The first index at or after i holding a stop, or |s|. */
  function NextStop(s: string, i: nat): (j: nat)
    requires i <= |s|
    ensures i <= j <= |s|
    ensures forall k :: i <= k < j ==> !IsStop(s[k])
    ensures j < |s| ==> IsStop(s[j])
    decreases |s| - i
  {
    if i < |s| && !IsStop(s[i]) then NextStop(s, i + 1) else i
  }

  /** The first index at or after i holding no stop, or |s|. */
  function SkipStops(s: string, i: nat): (j: nat)
    requires i <= |s|
    ensures i <= j <= |s|
    ensures forall k :: i <= k < j ==> IsStop(s[k])
    ensures j < |s| ==> !IsStop(s[j])
    decreases |s| - i
  {
    if i < |s| && IsStop(s[i]) then SkipStops(s, i + 1) else i
  }

  /** re.split(r'[.!?]+', s[i..]): the pieces between maximal runs of
      stops, including the empty ones at either end. */
  function SplitFrom(s: string, i: nat): seq<string>
    requires i <= |s|
    decreases |s| - i
  {
    var j := NextStop(s, i);
    if j == |s| then [s[i..]]
    else [s[i..j]] + SplitFrom(s, SkipStops(s, j))
  }

  /** [p.strip() for p in pieces if p.strip()]. */
  function KeepStripped(pieces: seq<string>): seq<string> {
    if pieces == [] then []
    else if Blank(pieces[0]) then KeepStripped(pieces[1..])
    else [Strip(pieces[0])] + KeepStripped(pieces[1..])
  }

  /** The sentence fragments of the text. */
  function Sentences(text: string): seq<string> {
    KeepStripped(SplitFrom(text, 0))
  }

  /** Every fragment is non-empty, holds no stop and has no whitespace at
      either end. */
  predicate Fragmentary(frags: seq<string>) {
    forall k :: 0 <= k < |frags| ==> frags[k] != [] && NoStop(frags[k]) && NoEdgeSpace(frags[k])
  }

  lemma {:induction false} SplitFromNoStop(s: string, i: nat)
    requires i <= |s|
    ensures forall k :: 0 <= k < |SplitFrom(s, i)| ==> NoStop(SplitFrom(s, i)[k])
    decreases |s| - i
  {
    var j := NextStop(s, i);
    if j < |s| {
      SplitFromNoStop(s, SkipStops(s, j));
    }
  }

  predicate AllStops(s: string) {
    forall k :: 0 <= k < |s| ==> IsStop(s[k])
  }

  /** The maximal runs of stops in s[i..], in order: the separators that
      re.split drops. */
  ghost function StopRunsFrom(s: string, i: nat): seq<string>
    requires i <= |s|
    decreases |s| - i
  {
    var j := NextStop(s, i);
    if j == |s| then []
    else [s[j..SkipStops(s, j)]] + StopRunsFrom(s, SkipStops(s, j))
  }

  /** pieces[0] + seps[0] + pieces[1] + ... + seps[|seps| - 1] + pieces[|seps|]. */
  function Interleave(pieces: seq<string>, seps: seq<string>): string
    requires |pieces| == |seps| + 1
    decreases |seps|
  {
    if seps == [] then pieces[0]
    else pieces[0] + seps[0] + Interleave(pieces[1..], seps[1..])
  }

  /** re.split drops exactly the separators: the pieces are stop-free, the
      runs between them are non-empty runs of stops, there is one more
      piece than runs, and putting the runs back rebuilds the text. */
  lemma {:induction false} SplitFromRebuilds(s: string, i: nat)
    requires i <= |s|
    ensures |SplitFrom(s, i)| == |StopRunsFrom(s, i)| + 1
    ensures forall k :: 0 <= k < |SplitFrom(s, i)| ==> NoStop(SplitFrom(s, i)[k])
    ensures forall k :: 0 <= k < |StopRunsFrom(s, i)| ==> StopRunsFrom(s, i)[k] != [] && AllStops(StopRunsFrom(s, i)[k])
    ensures Interleave(SplitFrom(s, i), StopRunsFrom(s, i)) == s[i..]
    decreases |s| - i
  {
    SplitFromNoStop(s, i);
    StopRunsShape(s, i);
    var j := NextStop(s, i);
    if j < |s| {
      var k := SkipStops(s, j);
      SplitFromRebuilds(s, k);
      SliceThree(s, i, j, k);
      InterleaveStep(SplitFrom(s, i), StopRunsFrom(s, i), SplitFrom(s, k), StopRunsFrom(s, k));
    }
  }

  lemma {:induction false} StopRunsShape(s: string, i: nat)
    requires i <= |s|
    ensures |SplitFrom(s, i)| == |StopRunsFrom(s, i)| + 1
    ensures forall k :: 0 <= k < |StopRunsFrom(s, i)| ==> StopRunsFrom(s, i)[k] != [] && AllStops(StopRunsFrom(s, i)[k])
    decreases |s| - i
  {
    var j := NextStop(s, i);
    if j < |s| {
      StopRunsShape(s, SkipStops(s, j));
    }
  }

  lemma SliceThree(s: string, i: nat, j: nat, k: nat)
    requires i <= j <= k <= |s|
    ensures s[i..] == s[i..j] + s[j..k] + s[k..]
  {
  }

  lemma InterleaveStep(ps: seq<string>, rs: seq<string>, ps': seq<string>, rs': seq<string>)
    requires |rs| > 0 && |ps| == |rs| + 1
    requires ps[1..] == ps' && rs[1..] == rs'
    ensures Interleave(ps, rs) == ps[0] + rs[0] + Interleave(ps', rs')
  {
  }

  /** A stripped piece keeps only characters of the piece. */
  lemma StripNoStop(s: string)
    requires NoStop(s)
    ensures NoStop(Strip(s))
  {
    var t := TrimStart(s);
    assert forall k :: 0 <= k < |t| ==> t[k] == s[|s| - |t| + k];
    assert forall k :: 0 <= k < |Strip(s)| ==> Strip(s)[k] == t[k];
  }

  lemma {:induction false} KeepStrippedShape(pieces: seq<string>)
    requires forall k :: 0 <= k < |pieces| ==> NoStop(pieces[k])
    ensures Fragmentary(KeepStripped(pieces))
  {
    if pieces != [] {
      KeepStrippedShape(pieces[1..]);
      if !Blank(pieces[0]) {
        StripNoStop(pieces[0]);
      }
    }
  }

  /** The indices at or after i of the non-blank pieces, in increasing
      order. */
  ghost function NonBlankFrom(pieces: seq<string>, i: nat): (ix: seq<nat>)
    requires i <= |pieces|
    ensures forall k :: 0 <= k < |ix| ==> i <= ix[k] < |pieces| && !Blank(pieces[ix[k]])
    ensures forall a, b :: 0 <= a < b < |ix| ==> ix[a] < ix[b]
    ensures forall m :: i <= m < |pieces| && !Blank(pieces[m]) ==> m in ix
    decreases |pieces| - i
  {
    if i == |pieces| then []
    else if Blank(pieces[i]) then NonBlankFrom(pieces, i + 1)
    else [i] + NonBlankFrom(pieces, i + 1)
  }

  /** [p.strip() for p in pieces], without the filter. */
  function StripEach(pieces: seq<string>): (r: seq<string>)
    ensures |r| == |pieces| && forall j :: 0 <= j < |pieces| ==> r[j] == Strip(pieces[j])
  {
    seq(|pieces|, j requires 0 <= j < |pieces| => Strip(pieces[j]))
  }

  /** ks lists the values at the indices ix, in order. */
  ghost predicate Picks<T>(vals: seq<T>, ks: seq<T>, ix: seq<nat>) {
    |ks| == |ix| && forall k :: 0 <= k < |ix| ==> ix[k] < |vals| && ks[k] == vals[ix[k]]
  }

  /** The comprehension keeps the non-blank pieces, in order, each
      stripped: it picks the stripped pieces at the non-blank indices. */
  lemma {:induction false} KeepStrippedPieces(pieces: seq<string>, i: nat)
    requires i <= |pieces|
    ensures Picks(StripEach(pieces), KeepStripped(pieces[i..]), NonBlankFrom(pieces, i))
    decreases |pieces| - i
  {
    if i < |pieces| {
      KeepStrippedPieces(pieces, i + 1);
      KeepStrippedAt(pieces, i);
      if !Blank(pieces[i]) {
        PicksCons(StripEach(pieces), i, KeepStripped(pieces[i + 1..]), NonBlankFrom(pieces, i + 1),
          KeepStripped(pieces[i..]), NonBlankFrom(pieces, i));
      }
    }
  }

  lemma KeepStrippedAt(pieces: seq<string>, i: nat)
    requires i < |pieces|
    ensures KeepStripped(pieces[i..]) ==
      (if Blank(pieces[i]) then [] else [Strip(pieces[i])]) + KeepStripped(pieces[i + 1..])
  {
    assert pieces[i..][1..] == pieces[i + 1..];
    assert pieces[i..][0] == pieces[i];
  }

  /** Picking the value at i in front of a picking keeps it a picking. */
  lemma PicksCons<T>(vals: seq<T>, i: nat, ks: seq<T>, ix: seq<nat>, ks': seq<T>, ix': seq<nat>)
    requires i < |vals| && Picks(vals, ks, ix)
    requires ks' == [vals[i]] + ks && ix' == [i] + ix
    ensures Picks(vals, ks', ix')
  {
    forall k | 0 < k < |ix'|
      ensures ix'[k] < |vals| && ks'[k] == vals[ix'[k]]
    {
      assert ix'[k] == ix[k - 1];
      assert ks'[k] == ks[k - 1];
    }
  }

  /** The fragments of a text are its stop-separated pieces that are not
      blank, stripped and in order. */
  lemma SentencesFromPieces(text: string)
    ensures var ps := SplitFrom(text, 0);
      Picks(StripEach(ps), Sentences(text), NonBlankFrom(ps, 0))
  {
    var ps := SplitFrom(text, 0);
    KeepStrippedPieces(ps, 0);
    assert ps[0..] == ps;
  }

  lemma SentencesShape(text: string)
    ensures Fragmentary(Sentences(text))
  {
    SplitFromNoStop(text, 0);
    KeepStrippedShape(SplitFrom(text, 0));
  }

  /** Text made only of stops and whitespace has no fragment. */
  lemma {:induction false} SplitFromPunctuation(s: string, i: nat)
    requires i <= |s|
    requires forall k :: 0 <= k < |s| ==> IsStop(s[k]) || IsSpace(s[k])
    ensures forall k :: 0 <= k < |SplitFrom(s, i)| ==> Blank(SplitFrom(s, i)[k])
    decreases |s| - i
  {
    var j := NextStop(s, i);
    assert forall k :: 0 <= k < j - i ==> s[i..j][k] == s[i + k];
    if j < |s| {
      SplitFromPunctuation(s, SkipStops(s, j));
    }
  }

  lemma {:induction false} KeepStrippedBlank(pieces: seq<string>)
    requires forall k :: 0 <= k < |pieces| ==> Blank(pieces[k])
    ensures KeepStripped(pieces) == []
  {
    if pieces != [] {
      KeepStrippedBlank(pieces[1..]);
    }
  }

  lemma PunctuationHasNoSentence(text: string)
    requires forall k :: 0 <= k < |text| ==> IsStop(text[k]) || IsSpace(text[k])
    ensures Sentences(text) == []
  {
    SplitFromPunctuation(text, 0);
    KeepStrippedBlank(SplitFrom(text, 0));
  }

  /** The connector draw of fragment i ("i > 0 and random.random() < t")
      and, when it fires, the choice of connector. */
  function Connect(f: string, i: nat, style: Style, book: Phrasebook, d: nat -> Unit, p: nat): (r: (string, nat))
    requires style != Plain && Stocked(style, book)
  {
    if i == 0 then (f, p)
    else if d(p) < ConnectorChance(style) then
      (ChoiceOf(book.connectors, d(p + 1)) + ", " + f, p + 2)
    else (f, p + 1)
  }

  /** The pause draw of a Suspenseful fragment: always consumed, and the
      "..." is added only when the fragment is longer than 20 characters. */
  function Pause(s: string, style: Style, d: nat -> Unit, p: nat): (r: (string, nat))
  {
    if style != Suspense then (s, p)
    else if d(p) < PauseChance && |s| > PauseMinLength then (s + "...", p + 1)
    else (s, p + 1)
  }

  /** The filler draw and, when it fires, the choice of filler. */
  function Fill(style: Style, book: Phrasebook, d: nat -> Unit, p: nat): (r: (seq<string>, nat))
    requires Stocked(style, book)
  {
    if d(p) < FillerChance(style) then ([ChoiceOf(book.fillers, d(p + 1))], p + 2)
    else ([], p + 1)
  }

  /** What one fragment contributes in a decorated branch: the fragment
      after its connector and pause draws, then the filler, if drawn. */
  function DecorateOne(f: string, i: nat, style: Style, book: Phrasebook, d: nat -> Unit, p: nat): (r: (seq<string>, nat))
    requires style != Plain && Stocked(style, book)
  {
    var c := Connect(f, i, style, book, d, p);
    var s := Pause(c.0, style, d, c.1);
    var fill := Fill(style, book, d, s.1);
    ([s.0] + fill.0, fill.1)
  }

  /** The decorated loop over frags[i..] of the Suspenseful and Inspiring
      branches, reading draws from position p. */
  function DecorateFrom(frags: seq<string>, i: nat, style: Style, book: Phrasebook, d: nat -> Unit, p: nat): (r: (seq<string>, nat))
    requires style != Plain && Stocked(style, book) && i <= |frags|
    decreases |frags| - i
  {
    if i == |frags| then ([], p)
    else
      var one := DecorateOne(frags[i], i, style, book, d, p);
      var rest := DecorateFrom(frags, i + 1, style, book, d, one.1);
      (one.0 + rest.0, rest.1)
  }

  /** Restructuring of the fragments for a style with its phrase pools,
      against draws from position p. */
  function RestructureWith(frags: seq<string>, style: Style, book: Phrasebook, d: nat -> Unit, p: nat): (r: (seq<string>, nat))
    requires Stocked(style, book)
  {
    if style == Plain then
      var f := Fill(Plain, book, d, p);
      (frags + f.0, f.1)
    else
      DecorateFrom(frags, 0, style, book, d, p)
  }

  /** self.restructure_for_tone(text, tone) against draws from position p. */
  function RestructureSpec(text: string, tone: string, d: nat -> Unit, p: nat): (r: (seq<string>, nat))
  {
    var style := StyleOf(tone);
    RestructureWith(Sentences(text), style, PhrasebookOf(style), d, p)
  }

  /** g is fragment f, or f behind a connector of the style and ", " when f
      is not the first fragment. */
  predicate Connected(f: string, g: string, book: Phrasebook, first: bool) {
    g == f || (!first && exists c :: c in book.connectors && g == c + ", " + f)
  }

  /** What a fragment may become: connected, and for Suspenseful possibly
      followed by "..." when the connected form is longer than 20. */
  predicate Variant(f: string, s: string, style: Style, book: Phrasebook, first: bool) {
    || Connected(f, s, book, first)
    || (&& style == Suspense
        && |s| > PauseMinLength + 3
        && s[|s| - 3..] == "..."
        && Connected(f, s[..|s| - 3], book, first))
  }

  /** out is frags[i..] in order, each fragment turned into a variant and
      followed by at most one filler from the style's own pool. */
  predicate ShapedFrom(frags: seq<string>, i: nat, out: seq<string>, style: Style, book: Phrasebook)
    requires i <= |frags|
    decreases |frags| - i
  {
    if i == |frags| then out == []
    else
      && out != []
      && Variant(frags[i], out[0], style, book, i == 0)
      && (|| ShapedFrom(frags, i + 1, out[1..], style, book)
          || (&& |out| >= 2
              && out[1] in book.fillers
              && ShapedFrom(frags, i + 1, out[2..], style, book)))
  }

  /** One fragment yields a variant of it, then at most one filler from
      the style's own pool. */
  lemma DecorateOneShape(f: string, i: nat, style: Style, book: Phrasebook, d: nat -> Unit, p: nat)
    requires style != Plain && Stocked(style, book)
    ensures var out := DecorateOne(f, i, style, book, d, p).0;
      && 1 <= |out| <= 2
      && Variant(f, out[0], style, book, i == 0)
      && (|out| == 2 ==> out[1] in book.fillers)
  {
    var c := Connect(f, i, style, book, d, p);
    if i > 0 && d(p) < ConnectorChance(style) {
      var k := ChoiceOf(book.connectors, d(p + 1));
      assert k in book.connectors && c.0 == k + ", " + f;
    }
    assert Connected(f, c.0, book, i == 0);
    var s := Pause(c.0, style, d, c.1).0;
    if s != c.0 {
      assert s[..|s| - 3] == c.0;
    }
  }

  /** Whatever the draws, decoration yields a shaped list. */
  lemma {:induction false} DecorateShaped(frags: seq<string>, i: nat, style: Style, book: Phrasebook, d: nat -> Unit, p: nat)
    requires style != Plain && Stocked(style, book) && i <= |frags|
    ensures ShapedFrom(frags, i, DecorateFrom(frags, i, style, book, d, p).0, style, book)
    decreases |frags| - i
  {
    if i < |frags| {
      var one := DecorateOne(frags[i], i, style, book, d, p);
      var rest := DecorateFrom(frags, i + 1, style, book, d, one.1);
      var out := one.0 + rest.0;
      DecorateOneShape(frags[i], i, style, book, d, p);
      DecorateShaped(frags, i + 1, style, book, d, one.1);
      assert out[0] == one.0[0];
      if |one.0| == 1 {
        assert out[1..] == rest.0;
      } else {
        assert out[1] == one.0[1];
        assert out[2..] == rest.0;
      }
    }
  }

  /** A shaped list has between one and two entries per fragment. */
  lemma {:induction false} ShapedLength(frags: seq<string>, i: nat, out: seq<string>, style: Style, book: Phrasebook)
    requires i <= |frags|
    requires ShapedFrom(frags, i, out, style, book)
    ensures |frags| - i <= |out| <= 2 * (|frags| - i)
    decreases |frags| - i
  {
    if i < |frags| {
      if ShapedFrom(frags, i + 1, out[1..], style, book) {
        ShapedLength(frags, i + 1, out[1..], style, book);
      } else {
        ShapedLength(frags, i + 1, out[2..], style, book);
      }
    }
  }

  /** The properties of restructuring over every draw sequence: a decorated
      style gives a shaped list of n to 2n entries for n fragments; the
      plain style gives the fragments, possibly followed by one filler. */
  lemma RestructureShape(frags: seq<string>, style: Style, book: Phrasebook, d: nat -> Unit, p: nat)
    requires Stocked(style, book)
    ensures var out := RestructureWith(frags, style, book, d, p).0;
      if style == Plain then
        out == frags || (|out| == |frags| + 1 && out[..|frags|] == frags && out[|frags|] in book.fillers)
      else
        ShapedFrom(frags, 0, out, style, book) && |frags| <= |out| <= 2 * |frags|
  {
    var out := RestructureWith(frags, style, book, d, p).0;
    if style != Plain {
      DecorateShaped(frags, 0, style, book, d, p);
      ShapedLength(frags, 0, out, style, book);
    } else if out != frags {
      assert out[..|frags|] == frags;
    }
  }

  /** self.restructure_for_tone: the fragments, then the decoration of the
      tone's branch. */
  method RestructureForTone(text: string, tone: string, rng: Rng) returns (enhanced: seq<string>)
    modifies rng`pos
    ensures (enhanced, rng.pos) == RestructureSpec(text, tone, rng.draws, old(rng.pos))
  {
    var style := StyleOf(tone);
    enhanced := Decorate(Sentences(text), style, PhrasebookOf(style), rng);
  }

  /** The loops of restructure_for_tone: fragments are appended one by one,
      with the draws taken in the order the source takes them. */
  method Decorate(frags: seq<string>, style: Style, book: Phrasebook, rng: Rng) returns (enhanced: seq<string>)
    requires Stocked(style, book)
    modifies rng`pos
    ensures (enhanced, rng.pos) == RestructureWith(frags, style, book, rng.draws, old(rng.pos))
  {
    if style == Plain {
      enhanced := AddFiller(frags, book, rng);
    } else {
      enhanced := DecorateEach(frags, style, book, rng);
    }
  }

  /** The neutral branch: one filler draw at the end. */
  method AddFiller(frags: seq<string>, book: Phrasebook, rng: Rng) returns (enhanced: seq<string>)
    requires Stocked(Plain, book)
    modifies rng`pos
    ensures (enhanced, rng.pos) == RestructureWith(frags, Plain, book, rng.draws, old(rng.pos))
  {
    enhanced := frags;
    var u := rng.Random();
    if u < FillerChance(Plain) {
      var filler := rng.Choice(book.fillers);
      enhanced := enhanced + [filler];
    } else {
      assert enhanced == frags + [];
    }
  }

  /** The loop of a decorated branch. */
  method DecorateEach(frags: seq<string>, style: Style, book: Phrasebook, rng: Rng) returns (enhanced: seq<string>)
    requires style != Plain && Stocked(style, book)
    modifies rng`pos
    ensures (enhanced, rng.pos) == RestructureWith(frags, style, book, rng.draws, old(rng.pos))
  {
    enhanced := [];
    ghost var d, p0 := rng.draws, rng.pos;
    assert [] + DecorateFrom(frags, 0, style, book, d, p0).0 == DecorateFrom(frags, 0, style, book, d, p0).0;
    for i := 0 to |frags|
      invariant DecorateFrom(frags, 0, style, book, d, p0)
        == Prepend(enhanced, DecorateFrom(frags, i, style, book, d, rng.pos))
    {
      enhanced := Advance(frags, i, style, book, rng, enhanced);
    }
    assert enhanced + [] == enhanced;
  }

  /** One pass of the loop body: decorate fragment i and append the result. */
  method Advance(frags: seq<string>, i: nat, style: Style, book: Phrasebook, rng: Rng, done: seq<string>)
    returns (done': seq<string>)
    requires style != Plain && Stocked(style, book) && i < |frags|
    modifies rng`pos
    ensures Prepend(done', DecorateFrom(frags, i + 1, style, book, rng.draws, rng.pos))
      == Prepend(done, DecorateFrom(frags, i, style, book, rng.draws, old(rng.pos)))
  {
    ghost var p := rng.pos;
    var items := DecorateFragment(frags[i], i, style, book, rng);
    DecorateStep(frags, i, style, book, rng.draws, p, done);
    done' := done + items;
  }

  /** The output so far in front of what the rest of the loop appends. */
  function Prepend(done: seq<string>, rest: (seq<string>, nat)): (seq<string>, nat) {
    (done + rest.0, rest.1)
  }

  lemma DecorateStep(frags: seq<string>, i: nat, style: Style, book: Phrasebook, d: nat -> Unit, p: nat, done: seq<string>)
    requires style != Plain && Stocked(style, book) && i < |frags|
    ensures var one := DecorateOne(frags[i], i, style, book, d, p);
      Prepend(done, DecorateFrom(frags, i, style, book, d, p))
        == Prepend(done + one.0, DecorateFrom(frags, i + 1, style, book, d, one.1))
  {
    var one := DecorateOne(frags[i], i, style, book, d, p);
    var rest := DecorateFrom(frags, i + 1, style, book, d, one.1);
    assert done + (one.0 + rest.0) == (done + one.0) + rest.0;
  }

  /** One iteration of a decorated loop: the connector draw (not for the
      first fragment), the pause draw (Suspenseful only), the append, then
      the filler draw. */
  method DecorateFragment(f: string, i: nat, style: Style, book: Phrasebook, rng: Rng) returns (items: seq<string>)
    requires style != Plain && Stocked(style, book)
    modifies rng`pos
    ensures (items, rng.pos) == DecorateOne(f, i, style, book, rng.draws, old(rng.pos))
  {
    var sentence := ConnectFragment(f, i, style, book, rng);
    sentence := PauseFragment(sentence, style, rng);
    var filler := DrawFiller(style, book, rng);
    items := [sentence] + filler;
  }

  method ConnectFragment(f: string, i: nat, style: Style, book: Phrasebook, rng: Rng) returns (sentence: string)
    requires style != Plain && Stocked(style, book)
    modifies rng`pos
    ensures (sentence, rng.pos) == Connect(f, i, style, book, rng.draws, old(rng.pos))
  {
    sentence := f;
    if i > 0 {
      var u := rng.Random();
      if u < ConnectorChance(style) {
        var connector := rng.Choice(book.connectors);
        sentence := connector + ", " + sentence;
      }
    }
  }

  method PauseFragment(s: string, style: Style, rng: Rng) returns (sentence: string)
    modifies rng`pos
    ensures (sentence, rng.pos) == Pause(s, style, rng.draws, old(rng.pos))
  {
    sentence := s;
    if style == Suspense {
      var u := rng.Random();
      if u < PauseChance && |sentence| > PauseMinLength {
        sentence := sentence + "...";
      }
    }
  }

  method DrawFiller(style: Style, book: Phrasebook, rng: Rng) returns (filler: seq<string>)
    requires Stocked(style, book)
    modifies rng`pos
    ensures (filler, rng.pos) == Fill(style, book, rng.draws, old(rng.pos))
  {
    filler := [];
    var u := rng.Random();
    if u < FillerChance(style) {
      var f := rng.Choice(book.fillers);
      filler := [f];
    }
  }
}
