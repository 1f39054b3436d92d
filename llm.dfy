/** rewrite_with_llm and hybrid_rewrite: the language-model path with its
    lazily filled caches, the post-processing of the decoded output, and
    the dispatch on the number of whitespace-separated tokens. The model
    itself is an outcome handed in by the caller. */
module LanguageModel {
  import opened Wrappers
  import opened Text
  import opened TextFacts
  import opened RandomSource
  import opened ToneTables
  import opened Rewriter

  const ErrorMessage: string := "An error occurred during text rewriting. Please try again."
  const AssistantMarker: string := "<|assistant|>"

  /** Inputs of fewer tokens than this go to the rule-based rewriter. */
  const LlmThreshold: nat := 50

  /** What the loads and the generation do on one call: whether loading the
      tokenizer and the model succeed, and the decoded output for a prompt
      (None when tokenising, generating or decoding raises). */
  datatype Backend = Backend(tokenizerLoads: bool, modelLoads: bool, generate: string -> Option<string>)

  /** The response and the caches after one call. */
  datatype Outcome = Outcome(response: string, tokenizerLoaded: bool, modelLoaded: bool)

  /** A piece of the prompt template: fixed text or a placeholder. */
  datatype Piece = Fixed(s: string) | ToneSlot | TextSlot

  const Line: string := "\n            "

  /** The chat prompt template: each line indented by twelve spaces, the
      closing line by eight. */
  const PromptTemplate: seq<Piece> := [
    Fixed(Line + "<|system|>"),
    Fixed(Line + "You are a helpful assistant that rewrites text to a specific tone."),
    Fixed(Line + "The user will provide you with a tone and a piece of text."),
    Fixed(Line + "You must rewrite the text using descriptive language and without summarizing the original content."),
    Fixed(Line + "The tone should be "), ToneSlot, Fixed("."),
    Fixed(Line + "</s>"),
    Fixed(Line + "<|user|>"),
    Fixed(Line + "Rewrite the following text: "), TextSlot,
    Fixed(Line + "</s>"),
    Fixed(Line + "<|assistant|>"),
    Fixed("\n        ")
  ]

  /** The template with the tone and the text filled in. */
  function Render(t: seq<Piece>, text: string, tone: string): string
  {
    if t == [] then []
    else
      (match t[0]
       case Fixed(s) => s
       case ToneSlot => tone
       case TextSlot => text)
      + Render(t[1..], text, tone)
  }

  function Prompt(text: string, tone: string): string
  {
    Render(PromptTemplate, text, tone)
  }

  /** s.split(m)[-1]: what follows the last of the occurrences of m found
      left to right without overlap, or s when m does not occur. */
  function AfterLast(s: string, m: string): string
    requires m != []
    decreases |s|
  {
    if !Contains(s, m) then s
    else AfterLast(s[Find(s, m) + |m|..], m)
  }

  /** The piece after the last marker is a suffix of the text, and the
      whole text when there is no marker. */
  lemma {:induction false} AfterLastSuffix(s: string, m: string)
    requires m != []
    ensures EndsWith(s, AfterLast(s, m))
    decreases |s|
  {
    if Contains(s, m) {
      var k := Find(s, m) + |m|;
      AfterLastSuffix(s[k..], m);
      SuffixOfSuffix(s, k, AfterLast(s[k..], m));
    }
  }

  /** When there is a marker, the piece after the last one directly
      follows a marker. */
  lemma {:induction false} AfterLastFollowsMarker(s: string, m: string)
    requires m != [] && Contains(s, m)
    ensures EndsWith(s, m + AfterLast(s, m))
    decreases |s|
  {
    var i := Find(s, m);
    var t := s[i + |m|..];
    if Contains(t, m) {
      AfterLastFollowsMarker(t, m);
      SuffixOfSuffix(s, i + |m|, m + AfterLast(t, m));
    } else {
      assert s[i..] == m + t;
      SuffixOfSuffix(s, i, m + t);
    }
  }

  /** The piece after the last marker holds no marker. */
  lemma {:induction false} AfterLastNoMarker(s: string, m: string)
    requires m != []
    ensures !Contains(AfterLast(s, m), m)
    decreases |s|
  {
    if Contains(s, m) {
      AfterLastNoMarker(s[Find(s, m) + |m|..], m);
    }
  }

  lemma SuffixOfSuffix(s: string, k: nat, x: string)
    requires k <= |s| && EndsWith(s[k..], x)
    ensures EndsWith(s, x)
  {
    assert s[|s| - |x|..] == s[k..][|s| - k - |x|..];
  }

  /** rewritten_text.split("<|assistant|>")[-1].strip() */
  function Response(decoded: string): string {
    Strip(AfterLast(decoded, AssistantMarker))
  }

  /** The response has no whitespace at either end, holds no marker, is
      part of the decoded text, and is the whole decoded text stripped when
      the marker is absent. */
  lemma ResponseShape(decoded: string)
    ensures NoEdgeSpace(Response(decoded))
    ensures !Contains(Response(decoded), AssistantMarker)
    ensures Contains(decoded, Response(decoded))
    ensures !Contains(decoded, AssistantMarker) ==> Response(decoded) == Strip(decoded)
    ensures Contains(decoded, AssistantMarker) ==> EndsWith(decoded, AssistantMarker + AfterLast(decoded, AssistantMarker))
  {
    if Contains(decoded, AssistantMarker) {
      AfterLastFollowsMarker(decoded, AssistantMarker);
    }
    StripAfterLastNoMarker(decoded, AssistantMarker);
    StripAfterLastInText(decoded, AssistantMarker);
  }

  /** The stripped piece after the last marker holds no marker. */
  lemma StripAfterLastNoMarker(s: string, m: string)
    requires m != []
    ensures !Contains(Strip(AfterLast(s, m)), m)
  {
    var a := AfterLast(s, m);
    AfterLastNoMarker(s, m);
    StripContained(a);
    if Contains(Strip(a), m) {
      ContainsTransitive(a, Strip(a), m);
    }
  }

  /** The stripped piece after the last marker is part of the text. */
  lemma StripAfterLastInText(s: string, m: string)
    requires m != []
    ensures Contains(s, Strip(AfterLast(s, m)))
  {
    var a := AfterLast(s, m);
    AfterLastSuffix(s, m);
    SuffixContained(s, a);
    StripContained(a);
    ContainsTransitive(s, a, Strip(a));
  }

  /** A suffix is a piece of the text. */
  lemma SuffixContained(s: string, x: string)
    requires EndsWith(s, x)
    ensures Contains(s, x)
  {
    assert s[|s| - |x|..|s|] == x;
    ContainsAt(s, x, |s| - |x|);
  }

  /** A stripped text is a piece of the text. */
  lemma StripContained(s: string)
    ensures Contains(s, Strip(s))
  {
    var t := TrimStart(s);
    var r := Strip(s);
    assert r == t[..|r|];
    InnerSlice(s, |s| - |t|, |s|, 0, |r|);
    ContainsAt(s, r, |s| - |t|);
  }

  /** rewrite_with_llm on caches (tok, model) for a call whose prompt is
      `prompt`, as a value: the response and the caches afterwards. */
  function LlmWith(text: string, prompt: string, tok: bool, model: bool, env: Backend): Outcome
  {
    if Strip(text) == [] then Outcome([], tok, model)
    else if !tok && !env.tokenizerLoads then Outcome(ErrorMessage, false, model)
    else if !tok && !env.modelLoads then Outcome(ErrorMessage, true, model)
    else if !(model || !tok) then Outcome(ErrorMessage, true, false)
    else match env.generate(prompt)
      case None => Outcome(ErrorMessage, true, true)
      case Some(decoded) => Outcome(Response(decoded), true, true)
  }

  /** rewrite_with_llm(text, tone) on caches (tok, model). */
  function LlmSpec(text: string, tone: string, tok: bool, model: bool, env: Backend): Outcome
  {
    LlmWith(text, Prompt(text, tone), tok, model, env)
  }

  /** Blank text gives "" and leaves the caches alone. */
  lemma LlmBlank(text: string, prompt: string, tok: bool, model: bool, env: Backend)
    requires Blank(text)
    ensures LlmWith(text, prompt, tok, model, env) == Outcome([], tok, model)
  {
  }

  /** Once the tokenizer is cached the loads are never attempted again:
      their outcomes do not matter and the caches keep their state. */
  lemma NoReload(text: string, prompt: string, model: bool, env: Backend, tokenizerLoads: bool, modelLoads: bool)
    ensures LlmWith(text, prompt, true, model, env)
         == LlmWith(text, prompt, true, model, env.(tokenizerLoads := tokenizerLoads, modelLoads := modelLoads))
    ensures LlmWith(text, prompt, true, model, env).tokenizerLoaded
    ensures LlmWith(text, prompt, true, model, env).modelLoaded == model
  {
  }

  /** A failed model load is final: with the tokenizer cached and the model
      missing, every later call on text that is not blank returns the error
      message, whatever the backend does. */
  lemma FailedModelLoadIsFinal(text: string, prompt: string, env: Backend)
    requires !Blank(text)
    ensures LlmWith(text, prompt, true, false, env) == Outcome(ErrorMessage, true, false)
  {
  }

  /** Every answer is "", the error message, or the post-processed output
      of the backend for the prompt. */
  lemma LlmAnswers(text: string, prompt: string, tok: bool, model: bool, env: Backend)
    ensures || LlmWith(text, prompt, tok, model, env).response == []
            || LlmWith(text, prompt, tok, model, env).response == ErrorMessage
            || (&& env.generate(prompt).Some?
                && LlmWith(text, prompt, tok, model, env).response == Response(env.generate(prompt).value))
  {
  }

  /** A call on text that is not blank returns the error message when
      loading fails, the model is missing from a cache that holds the
      tokenizer, or generation raises. */
  lemma LlmFails(text: string, prompt: string, tok: bool, model: bool, env: Backend)
    requires !Blank(text)
    requires || (!tok && !(env.tokenizerLoads && env.modelLoads))
             || (tok && !model)
             || env.generate(prompt).None?
    ensures LlmWith(text, prompt, tok, model, env).response == ErrorMessage
  {
  }

  /** A call on text that is not blank with a working backend returns the
      post-processed output and leaves both caches loaded. */
  lemma LlmGenerates(text: string, prompt: string, tok: bool, model: bool, env: Backend, decoded: string)
    requires !Blank(text)
    requires (tok && model) || (!tok && env.tokenizerLoads && env.modelLoads)
    requires env.generate(prompt) == Some(decoded)
    ensures LlmWith(text, prompt, tok, model, env) == Outcome(Response(decoded), true, true)
  {
  }

  /** The model is cached only once the tokenizer is, and a cached
      tokenizer stays cached: calls keep that so. */
  lemma LlmKeepsOrder(text: string, prompt: string, tok: bool, model: bool, env: Backend)
    requires model ==> tok
    ensures LlmWith(text, prompt, tok, model, env).modelLoaded ==> LlmWith(text, prompt, tok, model, env).tokenizerLoaded
    ensures tok ==> LlmWith(text, prompt, tok, model, env).tokenizerLoaded
  {
  }

  /** The global caches MISTRAL_TOKENIZER and MISTRAL_MODEL, as whether each
      holds a loaded object. */
  class MistralCache {
    var tokenizerLoaded: bool
    var modelLoaded: bool

    /** The model is never cached without the tokenizer. */
    predicate Valid()
      reads this
    {
      modelLoaded ==> tokenizerLoaded
    }

    constructor ()
      ensures Valid() && !tokenizerLoaded && !modelLoaded
    {
      tokenizerLoaded := false;
      modelLoaded := false;
    }
  }

  /** rewrite_with_llm: the loads happen only while the tokenizer cache is
      empty, the tokenizer is cached before the model is loaded, and any
      failure gives the error message. */
  method RewriteWithLlm(text: string, tone: string, cache: MistralCache, env: Backend) returns (response: string)
    requires cache.Valid()
    modifies cache
    ensures cache.Valid()
    ensures LlmSpec(text, tone, old(cache.tokenizerLoaded), old(cache.modelLoaded), env)
         == Outcome(response, cache.tokenizerLoaded, cache.modelLoaded)
  {
    if Strip(text) == [] {
      return [];
    }
    if !cache.tokenizerLoaded {
      if !env.tokenizerLoads {
        return ErrorMessage;
      }
      cache.tokenizerLoaded := true;
      if !env.modelLoads {
        return ErrorMessage;
      }
      cache.modelLoaded := true;
    }
    var prompt := Prompt(text, tone);
    if !cache.modelLoaded {
      // MISTRAL_MODEL is still None: calling generate on it raises.
      return ErrorMessage;
    }
    var decoded := env.generate(prompt);
    if decoded.None? {
      return ErrorMessage;
    }
    response := Response(decoded.value);
  }

  /** hybrid_rewrite: fewer than 50 tokens go to the rule-based rewriter,
      which consumes draws and leaves the caches alone; the rest go to the
      language model, which consumes no draw. */
  method HybridRewrite(text: string, tone: string, rng: Rng, cache: MistralCache, env: Backend) returns (out: string)
    requires cache.Valid()
    modifies rng`pos, cache
    ensures cache.Valid()
    ensures |Words(text)| < LlmThreshold ==>
      && (out, rng.pos) == RewriteSpec(text, tone, rng.draws, old(rng.pos))
      && unchanged(cache)
    ensures |Words(text)| >= LlmThreshold ==>
      && LlmSpec(text, tone, old(cache.tokenizerLoaded), old(cache.modelLoaded), env)
         == Outcome(out, cache.tokenizerLoaded, cache.modelLoaded)
      && rng.pos == old(rng.pos)
  {
    var wordCount := |Words(text)|;
    if wordCount < LlmThreshold {
      out := RewriteText(text, tone, rng);
    } else {
      out := RewriteWithLlm(text, tone, cache, env);
    }
  }

  /** Blank text has no token, so it takes the rule-based path, where it
      gives ""; the language-model path would give "" as well. */
  lemma BlankOnBothPaths(text: string, tone: string, d: nat -> Unit, p: nat, tok: bool, model: bool, env: Backend)
    requires Blank(text)
    ensures |Words(text)| < LlmThreshold
    ensures RewriteSpec(text, tone, d, p).0 == []
    ensures LlmSpec(text, tone, tok, model, env).response == []
  {
    WordsShape(text);
    RewriteEmptyIffBlank(text, VocabularyMap(tone), StyleOf(tone), PhrasebookOf(StyleOf(tone)), d, p);
  }
}
