/** rewrite_text of the rule-based rewriter: vocabulary substitution,
    restructuring, capitalisation, joining with ". " and the clean-up
    chain. */
module Rewriter {
  import opened Text
  import opened TextFacts
  import opened RandomSource
  import opened ToneTables
  import opened Vocabulary
  import opened Restructure
  import opened Cleanup
  import opened Wrappers

  predicate IsLower(c: char) { 'a' <= c <= 'z' }

  /** sentence[0].upper() + sentence[1:] (or sentence.upper() for one
      character): the first character loses its lower case, the rest is
      kept. */
  function Capitalise(s: string): (r: string)
    requires s != []
    ensures |r| == |s| && r[1..] == s[1..]
    ensures !IsLower(r[0]) && ToLower(r[0]) == ToLower(s[0])
  {
    [ToUpper(s[0])] + s[1..]
  }

  /** The capitalisation loop of rewrite_text over a list of sentences:
      empty ones are dropped, the others capitalised, in order. */
  function CapitaliseAll(xs: seq<string>): (r: seq<string>)
    ensures |r| <= |xs|
    ensures forall k :: 0 <= k < |r| ==> r[k] != [] && !IsLower(r[k][0])
  {
    if xs == [] then []
    else
      var init := CapitaliseAll(xs[..|xs| - 1]);
      if xs[|xs| - 1] == [] then init else init + [Capitalise(xs[|xs| - 1])]
  }

  /** When no sentence is empty, every sentence is kept, at its place,
      capitalised. */
  lemma {:induction false} CapitaliseAllKeeps(xs: seq<string>)
    requires forall k :: 0 <= k < |xs| ==> xs[k] != []
    ensures |CapitaliseAll(xs)| == |xs|
    ensures forall k :: 0 <= k < |xs| ==> CapitaliseAll(xs)[k] == Capitalise(xs[k])
  {
    if xs != [] {
      CapitaliseAllKeeps(xs[..|xs| - 1]);
    }
  }

  /** '. '.join(sentences) + '.' */
  function Assemble(caps: seq<string>): string {
    JoinWith(caps, ". ") + "."
  }

  /** The last stage of rewrite_text: capitalise the sentences, join them
      with ". ", end with a dot and clean up. */
  function Finish(sentences: seq<string>): string {
    Clean(Assemble(CapitaliseAll(sentences)))
  }

  /** Whatever the sentences, the last stage yields text that ends with a
      dot, has no two adjacent dots (so no "..." pause survives), and is
      tidy: single plain spaces, none at either end. */
  lemma FinishShape(sentences: seq<string>)
    ensures Finish(sentences) != [] && Finish(sentences)[|Finish(sentences)| - 1] == '.'
    ensures NoDoubleDot(Finish(sentences))
    ensures !Contains(Finish(sentences), "...")
    ensures Tidy(Finish(sentences))
  {
    CleanShape(Assemble(CapitaliseAll(sentences)));
    NoPauseLeft(Finish(sentences));
  }

  /** Text with no two adjacent dots holds no "...". */
  lemma NoPauseLeft(s: string)
    requires NoDoubleDot(s)
    ensures !Contains(s, "...")
  {
    NoDoubleDotNoEllipsis(s);
    if Contains(s, "...") {
      ContainsTransitive(s, "...", "..");
    }
  }

  /** Vocabulary substitution with an optional table: none leaves the
      text as it is. */
  function Substitute(text: string, vocab: Option<seq<Entry>>, d: nat -> Unit, p: nat): (string, nat)
    requires vocab.Some? ==> WellFormed(vocab.value)
  {
    match vocab
    case None => (text, p)
    case Some(table) => VocabFrom(text, table, d, p)
  }

  /** rewrite_text for a vocabulary table, a style and its phrase pools,
      against draws from position p; returns the text and the next draw
      position. */
  function RewriteWith(text: string, vocab: Option<seq<Entry>>, style: Style, book: Phrasebook, d: nat -> Unit, p: nat): (string, nat)
    requires vocab.Some? ==> WellFormed(vocab.value)
    requires Stocked(style, book)
  {
    if Strip(text) == [] then ([], p)
    else
      var t := Substitute(text, vocab, d, p);
      var r := RestructureWith(Sentences(t.0), style, book, d, t.1);
      (Finish(r.0), r.1)
  }

  /** self.rewrite_text(text, tone): the pipeline with the tone's own
      tables. */
  function RewriteSpec(text: string, tone: string, d: nat -> Unit, p: nat): (string, nat)
  {
    RewriteWith(text, VocabularyMap(tone), StyleOf(tone), PhrasebookOf(StyleOf(tone)), d, p)
  }

  /** rewrite_text returns "" exactly for blank text. */
  lemma RewriteEmptyIffBlank(text: string, vocab: Option<seq<Entry>>, style: Style, book: Phrasebook, d: nat -> Unit, p: nat)
    requires vocab.Some? ==> WellFormed(vocab.value)
    requires Stocked(style, book)
    ensures RewriteWith(text, vocab, style, book, d, p).0 == [] <==> Blank(text)
  {
    if !Blank(text) {
      var t := Substitute(text, vocab, d, p);
      FinishShape(RestructureWith(Sentences(t.0), style, book, d, t.1).0);
    }
  }

  /** For text that is not blank, whatever the tables and the draws, the
      result has the shape of FinishShape. */
  lemma RewriteShape(text: string, vocab: Option<seq<Entry>>, style: Style, book: Phrasebook, d: nat -> Unit, p: nat)
    requires vocab.Some? ==> WellFormed(vocab.value)
    requires Stocked(style, book)
    requires !Blank(text)
    ensures RewriteWith(text, vocab, style, book, d, p).0 != []
    ensures RewriteWith(text, vocab, style, book, d, p).0[|RewriteWith(text, vocab, style, book, d, p).0| - 1] == '.'
    ensures NoDoubleDot(RewriteWith(text, vocab, style, book, d, p).0)
    ensures !Contains(RewriteWith(text, vocab, style, book, d, p).0, "...")
    ensures Tidy(RewriteWith(text, vocab, style, book, d, p).0)
  {
    var t := Substitute(text, vocab, d, p);
    FinishShape(RestructureWith(Sentences(t.0), style, book, d, t.1).0);
  }

  /** Text made only of '.', '!', '?' and whitespace, with at least one
      stop: no key fires, no fragment is left, and unless the plain style
      draws its filler the result is a single dot. */
  lemma PunctuationGivesDot(text: string, vocab: Option<seq<Entry>>, style: Style, book: Phrasebook, d: nat -> Unit, p: nat)
    requires vocab.Some? ==> WellFormed(vocab.value)
    requires Stocked(style, book)
    requires !Blank(text)
    requires forall k :: 0 <= k < |text| ==> IsStop(text[k]) || IsSpace(text[k])
    requires style == Plain ==> d(p) >= FillerChance(Plain)
    ensures RewriteWith(text, vocab, style, book, d, p).0 == "."
  {
    SubstitutePunctuation(text, vocab, d, p);
    PunctuationHasNoSentence(text);
    NothingToRestructure(style, book, d, p);
    FinishNothing();
  }

  /** For every tone: an input of punctuation only becomes ".", unless the
      tone is not a decorated one and the filler is drawn. */
  lemma PunctuationOnlyTone(text: string, tone: string, d: nat -> Unit, p: nat)
    requires !Blank(text)
    requires forall k :: 0 <= k < |text| ==> IsStop(text[k]) || IsSpace(text[k])
    requires StyleOf(tone) == Plain ==> d(p) >= FillerChance(Plain)
    ensures RewriteSpec(text, tone, d, p).0 == "."
  {
    PunctuationGivesDot(text, VocabularyMap(tone), StyleOf(tone), PhrasebookOf(StyleOf(tone)), d, p);
  }

  /** Substitution leaves text made of stops and whitespace as it is and
      takes no draw. */
  lemma SubstitutePunctuation(text: string, vocab: Option<seq<Entry>>, d: nat -> Unit, p: nat)
    requires vocab.Some? ==> WellFormed(vocab.value)
    requires forall k :: 0 <= k < |text| ==> IsStop(text[k]) || IsSpace(text[k])
    ensures Substitute(text, vocab, d, p) == (text, p)
  {
    if vocab.Some? {
      NoKeyInPunctuation(text, vocab.value);
      VocabNoKey(text, vocab.value, d, p);
    }
  }

  /** Without fragments, restructuring yields nothing unless the plain
      style draws its filler. */
  lemma NothingToRestructure(style: Style, book: Phrasebook, d: nat -> Unit, p: nat)
    requires Stocked(style, book)
    requires style == Plain ==> d(p) >= FillerChance(Plain)
    ensures RestructureWith([], style, book, d, p).0 == []
  {
  }

  /** Without sentences, the last stage yields a single dot. */
  lemma FinishNothing()
    ensures Finish([]) == "."
  {
    assert Assemble(CapitaliseAll([])) == ".";
    DotIsClean();
  }

  /** No key of a vocabulary table occurs in text made of stops and
      whitespace, since every key starts with a letter. */
  lemma NoKeyInPunctuation(text: string, table: seq<Entry>)
    requires WellFormed(table)
    requires forall k :: 0 <= k < |text| ==> IsStop(text[k]) || IsSpace(text[k])
    ensures forall k :: 0 <= k < |table| ==> !Contains(text, table[k].key)
  {
    forall k | 0 <= k < |table|
      ensures !Contains(text, table[k].key)
    {
      AbsentFirstChar(text, table[k].key);
    }
  }

  /** The clean-up leaves a lone dot as it is. */
  lemma DotIsClean()
    ensures Clean(".") == "."
  {
    assert CollapseSpaces(".") == ".";
    assert Strip(".") == ".";
    assert CollapseDots(".") == ".";
  }

  /** rewrite_text, step by step. */
  method RewriteText(text: string, tone: string, rng: Rng) returns (result: string)
    modifies rng`pos
    ensures (result, rng.pos) == RewriteSpec(text, tone, rng.draws, old(rng.pos))
  {
    if Strip(text) == [] {
      return [];
    }
    var transformed := TransformVocabulary(text, tone, rng);
    var sentences := RestructureForTone(transformed, tone, rng);
    var capitalized := CapitaliseSentences(sentences);
    result := Clean(Assemble(capitalized));
    assert result == Finish(sentences);
  }

  /** The capitalisation loop: a list built by appending. */
  method CapitaliseSentences(sentences: seq<string>) returns (capitalized: seq<string>)
    ensures capitalized == CapitaliseAll(sentences)
  {
    capitalized := [];
    for i := 0 to |sentences|
      invariant capitalized == CapitaliseAll(sentences[..i])
    {
      assert sentences[..i + 1][..i] == sentences[..i];
      var sentence := sentences[i];
      if sentence != [] {
        capitalized := capitalized + [Capitalise(sentence)];
      }
    }
    assert sentences[..|sentences|] == sentences;
  }
}
