# EchoVerse text core in Dafny

This project models the text-handling core of EchoVerse. EchoVerse rewrites a
passage in a chosen tone ("Suspenseful", "Inspiring", "Neutral") and then
reads it aloud. The model covers two parts and proves properties of both.

- **The tone rewriter** (`rewriter.py`), in four pieces:
  - `ToneBasedTextRewriter`, which runs three stages:
    - vocabulary substitution from ordered per-tone tables;
    - sentence restructuring with connectors, dramatic pauses and filler
      sentences;
    - capitalisation, joining with `". "`, and the regular-expression
      clean-up chain.
  - `hybrid_rewrite`, which routes a text by its whitespace-token count.
  - The lazy-load cache of `rewrite_with_llm`.
  - The post-processing of the language model's answer.
- **The speech front end** (`tts.py`), in four pieces:
  - `preprocess_text`;
  - the validation, truncation and three-tier fallback of `synthesize`
    (neural, then offline engine, then silence);
  - the voice and rate chosen for the offline engine;
  - the `.mp3` suffix contract of `_normalize_to_mp3`.

Randomness is an explicit oracle: a stream `draws: nat -> Unit` of reals in
[0, 1) and a position in it.
- `random.random()` is the next draw.
- `random.choice(xs)` is `xs[floor(u * |xs|)]` for the next draw `u`.

Every specification function takes the stream and a start position and
returns its result together with the next position. The functions consume
draws in exactly the order the Python code does:
- One choice per vocabulary key that fires.
- For Suspenseful, per fragment:
  - a connector draw, except on the first fragment, because `i > 0 and ...`
    short-circuits;
  - an ellipsis draw, always consumed, because it is the left operand of
    `and`;
  - a filler draw, plus a choice draw when the filler fires.
- For Inspiring, the same without the ellipsis draw.
- For Neutral and every unknown tone, one draw at the end.

Code that mutates state in the source is written imperatively:
- the vocabulary loop and the restructuring loops are methods with loops
  that draw from an `Rng` object;
- the capitalisation loop is a method with a loop over the sentence list;
- the Mistral caches are a `MistralCache` class;
- the offline engine is an `Engine` class whose voice and rate the fallback
  sets.

Each method is proved equal to its specification function. The properties
are proved about those functions.

Some behaviours of the source are proved as they are written, because they
are easy to miss:
- The trigger test of a vocabulary key is case-sensitive, while the
  substitution itself ignores case and needs word boundaries
  (`Vocabulary.TriggerIsCaseSensitive`).
- The `"..."` pause that restructuring adds never reaches the output,
  because dot runs are collapsed afterwards (`Rewriter.RewriteShape`).
- An input made only of punctuation becomes `"."`, unless the Neutral
  filler is drawn (`Rewriter.PunctuationOnlyTone`).
- A failed Mistral model load is never retried, because the tokenizer is
  cached first (`LanguageModel.FailedModelLoadIsFinal`).
- The voice labels the user interface passes ("Voice A - Warm & Natural"
  and the others) contain neither "VoiceA" nor "VoiceB". The offline engine
  therefore always keeps its default voice
  (`Synthesis.InterfaceLabelsKeepDefault`).
- The truncation marker appended past 6000 characters is the four
  characters `' '`, U+00E2, U+20AC, U+00A6. That is an ellipsis whose
  UTF-8 bytes were read as Windows-1252. The model keeps the marker exactly
  as the code writes it.

Some behaviours of the code worth stating:
- `synthesize` can raise `RuntimeError` when the silent export fails.
- The offline rate is truncated with `int()`, and a falsy engine rate
  becomes 180.
- `hybrid_rewrite` also sends blank text to the rule-based rewriter.

Files:

| file | module | models |
|---|---|---|
| wrappers.dfy | Wrappers | `Option` |
| text.dfy | Text | ASCII `\s`, `\w`, `strip`, `split`, `join`, `upper`, `in`, `str.replace` |
| text_facts.dfy | TextFacts | lemmas about those string operations |
| random_source.dfy | RandomSource | `random.random`, `random.choice`, the `Rng` oracle |
| tone_tables.dfy | ToneTables | the vocabulary maps, connectors, fillers and probabilities |
| vocabulary.dfy | Vocabulary | `transform_vocabulary` and `re.sub(r'\bkey\b', ..., flags=re.IGNORECASE)` |
| restructure.dfy | Restructure | `restructure_for_tone` |
| cleanup.dfy | Cleanup | the three `re.sub` clean-up steps of `rewrite_text` |
| rewriter.dfy | Rewriter | `rewrite_text` |
| llm.dfy | LanguageModel | `rewrite_with_llm`, `hybrid_rewrite` |
| preprocess.dfy | Preprocess | `preprocess_text` |
| synthesis.dfy | Synthesis | `synthesize`, `_fallback_pyttsx3_to_mp3`, `_normalize_to_mp3` |

## Model

| member | source | states |
|---|---|---|
| Text.ToUpper | rewriter.py:151 | an ASCII lower-case letter becomes its upper-case form; every other character is kept |
| Text.Strip | rewriter.py:92 | the result has no whitespace at either end, and is empty exactly when the input is blank |
| Text.TrimStart | rewriter.py:92 | definition of `str.lstrip()`: a suffix of the input that is empty exactly for blank input and otherwise starts with a non-space; `Text.TrimStartDropsBlank` states that what it drops is whitespace |
| Text.TrimEnd | rewriter.py:92 | definition of `str.rstrip()`: a prefix of the input that is empty exactly for blank input and otherwise ends with a non-space; `Text.TrimEndDropsBlank` states that what it drops is whitespace |
| Text.CollapseSpaces | rewriter.py:157 | `re.sub(r'\s+', ' ', s)`: single-spaced, empty only for empty input, and each end is a space exactly when the input's end was whitespace |
| Text.StripContent | rewriter.py:92 | `str.strip()` removes whitespace at the ends and nothing else: the input is a blank head, the result, then a blank tail |
| TextFacts.CollapseSpacesWords | rewriter.py:157 | `re.sub(r'\s+', ' ', s)` keeps the words of the text: the same non-whitespace runs in the same order |
| TextFacts.WordsTrimStart | rewriter.py:157 | dropping leading whitespace keeps the words |
| TextFacts.WordsConsChar | rewriter.py:157 | a non-space character before text is a word of its own when the text is empty or starts with whitespace, and otherwise starts the text's first word |
| Text.Words | tts.py:54 | definition of `str.split()` without a separator, the maximal whitespace-free runs; see `TextFacts.WordsShape`, `TextFacts.WordsOfJoin`, `TextFacts.CollapseSpacesWords` |
| Text.Squash | tts.py:54 | definition of `' '.join(s.split())`; see `TextFacts.SquashTidy`, `TextFacts.SquashIdempotent`, `TextFacts.SquashKeepsAbsent` |
| Text.ReplaceAll | tts.py:50-53 | definition of `str.replace`, leftmost non-overlapping occurrences; see `TextFacts.ReplaceAbsent`, `TextFacts.ReplaceLeavesNo`, `TextFacts.ReplaceKeepsDigitFree` |
| TextFacts.WordsShape | rewriter.py:226 | `text.split()` gives non-empty whitespace-free words that occur in the text, and gives none exactly for blank text |
| TextFacts.WordsOfJoin | tts.py:54 | splitting a space-joined list of words gives that list back |
| TextFacts.JoinTidy | tts.py:54 | joining words with single spaces gives single-spaced text with no whitespace at either end |
| TextFacts.SquashTidy | tts.py:54 | `' '.join(s.split())` is single-spaced with no whitespace at either end |
| TextFacts.SquashIdempotent | tts.py:54 | applying `' '.join(s.split())` twice equals applying it once |
| TextFacts.SquashKeepsAbsent | tts.py:54 | re-spacing creates no occurrence of a whitespace-free pattern |
| TextFacts.SquashKeepsDigitFree | tts.py:54 | re-spacing creates no digit |
| TextFacts.ReplaceAbsent | tts.py:50-53 | `str.replace` of a pattern that does not occur returns the text unchanged |
| TextFacts.ReplaceLeavesNo | tts.py:50-53 | after `s.replace(p, r)`, a pattern `q` occurs nowhere, provided `q` is `p` or absent from `s` and `r` cannot create `q` by itself or across a seam |
| TextFacts.ReplaceKeepsDigitFree | tts.py:50-53 | replacing with a digit-free string keeps a digit-free text digit-free |
| RandomSource.Pick | rewriter.py:84 | the index drawn for a list of n elements is below n, and is the floor of u·n |
| RandomSource.ChoiceOf | rewriter.py:84 | `random.choice` returns an element of the list |
| RandomSource.Rng.Random | rewriter.py:100 | `random.random()` returns the next draw and advances the stream by one |
| RandomSource.Rng.Choice | rewriter.py:84 | `random.choice` returns the element picked by the next draw and advances the stream by one |
| ToneTables.StyleOf | rewriter.py:94-129 | the restructuring branch is Suspenseful or Inspiring exactly for those tone strings, and Neutral for every other string |
| ToneTables.VocabularyMap | rewriter.py:16-48 | a vocabulary table exists exactly for "Suspenseful" and "Inspiring", and each such table is well formed |
| ToneTables.SuspensefulWellFormed | rewriter.py:17-31 | every Suspenseful key starts with a lower-case letter and has a non-empty list of replacements |
| ToneTables.InspiringWellFormed | rewriter.py:32-47 | every Inspiring key starts with a lower-case letter and has a non-empty list of replacements |
| ToneTables.PhrasebookOf | rewriter.py:50-72 | every style has fillers, and the decorated styles have connectors |
| Vocabulary.MatchAt | rewriter.py:85 | definition of a `\bkey\b` match under `re.IGNORECASE` at one index; see `Vocabulary.InsideWordNoMatch`, `Vocabulary.SubFromFirstMatch` |
| Vocabulary.SubFrom | rewriter.py:85-86 | definition of `re.sub`'s left-to-right scan; see `Vocabulary.SubFromNoMatch`, `Vocabulary.SubFromFirstMatch` |
| Vocabulary.Sub | rewriter.py:85-86 | definition: the scan from the start; see `Vocabulary.SubNoMatch` |
| Vocabulary.SubFromNoMatch | rewriter.py:85-86 | where `\bkey\b` matches nowhere, re.sub keeps the text |
| Vocabulary.SubFromFirstMatch | rewriter.py:85-86 | re.sub copies the text up to the leftmost case-insensitive whole-word match, writes the replacement, and resumes after the match |
| Vocabulary.SubNoMatch | rewriter.py:85-86 | with no whole-word match anywhere, the substitution returns the text |
| Vocabulary.InsideWordNoMatch | rewriter.py:85 | a key occurring inside a longer word is never a match |
| Vocabulary.VocabFrom | rewriter.py:82-86 | the table is applied key by key, in order, on the running result; each key consumes at most one draw |
| Vocabulary.Transform | rewriter.py:76-77 | a tone with no vocabulary table returns the text unchanged and consumes no draw |
| Vocabulary.VocabNoKey | rewriter.py:82-86 | when no key occurs case-sensitively, the text is returned unchanged and no draw is consumed |
| Vocabulary.TriggerIsCaseSensitive | rewriter.py:83 | "Said it" does not fire the key "said", so it is returned unchanged |
| Vocabulary.TransformVocabulary | rewriter.py:74-88 | the method's result and stream position equal the specification `Transform` |
| Vocabulary.ApplyTable | rewriter.py:79-88 | the loop over the table gives the result and stream position of `VocabFrom` |
| Restructure.NextStop | rewriter.py:92 | finds the next `.`, `!` or `?`, with no stop before it |
| Restructure.SkipStops | rewriter.py:92 | skips a maximal run of stops |
| Restructure.SplitFrom | rewriter.py:92 | definition of `re.split(r'[.!?]+', text)`; see `Restructure.SplitFromRebuilds` |
| Restructure.SplitFromRebuilds | rewriter.py:92 | `re.split` drops exactly the separators: the pieces are stop-free, the runs between them are non-empty runs of stops, there is one more piece than runs, and putting the runs back between the pieces rebuilds the text |
| Restructure.KeepStripped | rewriter.py:92 | definition of `[s.strip() for s in pieces if s.strip()]`; see `Restructure.KeepStrippedPieces` |
| Restructure.NonBlankFrom | rewriter.py:92 | the indices of the non-blank pieces: all of them, each once, in increasing order |
| Restructure.KeepStrippedPieces | rewriter.py:92 | the comprehension yields, in order, `strip()` of each non-blank piece and nothing else |
| Restructure.Sentences | rewriter.py:92 | definition of the fragment list; see `Restructure.SentencesFromPieces`, `Restructure.SentencesShape` |
| Restructure.SentencesFromPieces | rewriter.py:92 | the fragments are the stripped non-blank pieces of the split, in order |
| Restructure.SplitFromNoStop | rewriter.py:92 | no piece of `re.split(r'[.!?]+', text)` holds a stop; what the pieces are is stated by `Restructure.SplitFromRebuilds` |
| Restructure.StripNoStop | rewriter.py:92 | stripping keeps a stop-free piece stop-free |
| Restructure.KeepStrippedShape | rewriter.py:92 | keeping the stripped non-blank pieces gives non-empty, stop-free fragments with no whitespace at either end |
| Restructure.SentencesShape | rewriter.py:92 | every sentence fragment is non-empty, stop-free and stripped; where the fragments come from is stated by `Restructure.SentencesFromPieces` |
| Restructure.SplitFromPunctuation | rewriter.py:92 | text made of stops and whitespace splits into blank pieces only |
| Restructure.KeepStrippedBlank | rewriter.py:92 | blank pieces leave no fragment |
| Restructure.PunctuationHasNoSentence | rewriter.py:92 | text made of stops and whitespace has no sentence fragment |
| Restructure.Connect | rewriter.py:100-101 | definition of the connector draw, skipped for the first fragment; see `Restructure.ConnectFragment`, `Restructure.DecorateOneShape` |
| Restructure.Pause | rewriter.py:104-105 | definition of the pause draw, always consumed; see `Restructure.PauseFragment`, `Restructure.DecorateOneShape` |
| Restructure.Fill | rewriter.py:110-111 | definition of the filler draw and choice; see `Restructure.DrawFiller`, `Restructure.AddFiller` |
| Restructure.DecorateOne | rewriter.py:99-111 | definition of one loop iteration; see `Restructure.DecorateOneShape`, `Restructure.DecorateFragment` |
| Restructure.DecorateFrom | rewriter.py:99-126 | definition of the decorated loops; see `Restructure.DecorateShaped`, `Restructure.DecorateStep`, `Restructure.DecorateEach` |
| Restructure.RestructureWith | rewriter.py:94-132 | definition of the branch on the style; see `Restructure.RestructureShape`, `Restructure.Decorate` |
| Restructure.RestructureSpec | rewriter.py:90-134 | definition of `restructure_for_tone`; see `Restructure.RestructureForTone`, `Restructure.RestructureShape` |
| Restructure.DecorateOneShape | rewriter.py:99-111 | one fragment becomes one or two entries: the fragment (with a connector only after the first fragment, and a Suspenseful `"..."` only past length 20), then at most one filler from the style's pool |
| Restructure.DecorateShaped | rewriter.py:99-126 | the decorated list keeps every fragment, in order, each turned into its allowed variant and followed by at most one filler |
| Restructure.ShapedLength | rewriter.py:99-126 | a decorated list of n fragments has between n and 2n entries |
| Restructure.RestructureShape | rewriter.py:90-134 | Suspenseful and Inspiring give n to 2n entries of the allowed shape; Neutral and unknown tones give the fragments themselves, plus at most one filler of their pool at the end |
| Restructure.RestructureForTone | rewriter.py:90-134 | the method's list and stream position equal the specification `RestructureSpec` |
| Restructure.Decorate | rewriter.py:94-132 | the branch on the style gives the list and stream position of `RestructureWith` |
| Restructure.AddFiller | rewriter.py:128-132 | the Neutral branch draws once and appends at most one filler |
| Restructure.DecorateEach | rewriter.py:97-126 | the per-fragment loop gives the list and stream position of `RestructureWith` |
| Restructure.Advance | rewriter.py:99-111 | one loop iteration preserves the loop invariant against `DecorateFrom` |
| Restructure.DecorateStep | rewriter.py:99-111 | decorating from fragment i is decorating fragment i, then the rest from the next draw |
| Restructure.DecorateFragment | rewriter.py:100-111 | the body of one iteration equals `DecorateOne` |
| Restructure.ConnectFragment | rewriter.py:100-101 | the connector step (skipped on the first fragment) equals `Connect` |
| Restructure.PauseFragment | rewriter.py:104-105 | the pause step (its draw taken first) equals `Pause` |
| Restructure.DrawFiller | rewriter.py:110-111 | the filler step equals `Fill` |
| Cleanup.SkipDots | rewriter.py:158 | skips a maximal run of dots |
| Cleanup.CollapseDotsFrom | rewriter.py:158 | definition of `re.sub(r'\.+', '.', s)`; see `Cleanup.CollapseDotsFromShape`, `Cleanup.CollapseDotsFromContent` |
| Cleanup.CollapseDotsFromContent | rewriter.py:158 | only dots are removed: the other characters, whitespace included, are kept in order |
| Cleanup.CollapseDotsFromShape | rewriter.py:158 | `re.sub(r'\.+', '.', s)` keeps the end characters and single spacing and leaves no two adjacent dots |
| Cleanup.DotSpaceDotFromEnds | rewriter.py:159 | `re.sub(r'\.\s*\.', '.', s)` keeps the first and last characters and gives the empty text only for the empty text |
| Cleanup.DotSpaceDotFromShape | rewriter.py:159 | the same substitution keeps single spacing and leaves no two adjacent dots |
| Cleanup.DotSpaceDotFrom | rewriter.py:159 | definition of `re.sub(r'\.\s*\.', '.', s)`; see `Cleanup.DotSpaceDotFromEnds`, `Cleanup.DotSpaceDotFromShape`, `Cleanup.DotSpaceDotFromContent` |
| Cleanup.DotSpaceDotFromContent | rewriter.py:159 | only dots and whitespace are removed: every other character is kept in order |
| Cleanup.CollapseSpacesContent | rewriter.py:157 | `re.sub(r'\s+', ' ')` changes only whitespace: every character that is neither a dot nor whitespace is kept in order |
| Cleanup.StripKeepsContent | rewriter.py:157 | `strip()` removes only whitespace: every character that is neither a dot nor whitespace is kept in order |
| Cleanup.StripDotted | rewriter.py:157 | stripping single-spaced text that ends with a dot still ends with a dot and is still single-spaced |
| Cleanup.WhitespaceStepsDotted | rewriter.py:157 | the whitespace steps leave non-empty single-spaced text that starts with a non-space and ends with a dot |
| Cleanup.CollapseDotsKeeps | rewriter.py:158 | the dot-collapsing step keeps that shape and removes adjacent dots |
| Cleanup.DotSpaceDotKeeps | rewriter.py:159 | the dot-spacing step keeps that shape |
| Cleanup.DotStepsKeep | rewriter.py:158-159 | the two dot steps keep that shape and leave no adjacent dots |
| Cleanup.CleanShape | rewriter.py:157-159 | cleaning text that ends with a dot gives non-empty tidy text that ends with a dot and has no two adjacent dots, and keeps in order every character of the input that is neither a dot nor whitespace |
| Cleanup.Clean | rewriter.py:157-159 | definition of the clean-up chain; see `Cleanup.CleanShape`, `Cleanup.CleanKeepsContent` |
| Cleanup.CleanKeepsContent | rewriter.py:157-159 | the clean-up removes only dots and whitespace: every other character of the input survives, in order, and none is added |
| Cleanup.NoDoubleDotNoEllipsis | rewriter.py:158 | text with no two adjacent dots holds no `".."` |
| Rewriter.Capitalise | rewriter.py:151 | the first character is no longer lower-case and is the same letter; the length and the rest are kept |
| Rewriter.CapitaliseAll | rewriter.py:148-152 | the capitalised list has no more entries than the input, and each is non-empty with a non-lower-case first character |
| Rewriter.CapitaliseAllKeeps | rewriter.py:148-152 | when no sentence is empty, every sentence is kept at its place, capitalised |
| Rewriter.CapitaliseSentences | rewriter.py:148-152 | the loop builds exactly `CapitaliseAll` of the sentences |
| Rewriter.FinishShape | rewriter.py:148-159 | for any sentences, the last stage gives non-empty tidy text that ends with a dot, has no two adjacent dots and holds no `"..."` |
| Rewriter.NoPauseLeft | rewriter.py:158 | no two adjacent dots means no `"..."` pause survives |
| Rewriter.Substitute | rewriter.py:76-86 | definition of the vocabulary stage with an optional table; see `Rewriter.SubstitutePunctuation`, `Vocabulary.TransformVocabulary` |
| Rewriter.Assemble | rewriter.py:154 | definition of `'. '.join(sentences) + '.'`; see `Rewriter.FinishShape` |
| Rewriter.Finish | rewriter.py:148-159 | definition of the last stage; see `Rewriter.FinishShape`, `Rewriter.FinishNothing` |
| Rewriter.RewriteWith | rewriter.py:136-161 | definition of `rewrite_text` for given tables; see `Rewriter.RewriteShape`, `Rewriter.RewriteEmptyIffBlank`, `Rewriter.PunctuationGivesDot` |
| Rewriter.RewriteSpec | rewriter.py:136-161 | definition of `rewrite_text` with the tone's own tables; see `Rewriter.RewriteText`, `Rewriter.PunctuationOnlyTone` |
| Rewriter.RewriteEmptyIffBlank | rewriter.py:136-161 | for every table, style and draw stream, the result is "" exactly when the input is blank |
| Rewriter.RewriteShape | rewriter.py:136-161 | for non-blank input, the result is non-empty, ends with a dot, has no two adjacent dots, holds no `"..."`, and is tidy |
| Rewriter.PunctuationGivesDot | rewriter.py:136-161 | non-blank input made of stops and whitespace gives `"."`, unless the Neutral filler is drawn |
| Rewriter.PunctuationOnlyTone | rewriter.py:136-161 | the same for every tone string, with the tone's own tables |
| Rewriter.SubstitutePunctuation | rewriter.py:82-86 | substitution leaves punctuation-only text unchanged and consumes no draw |
| Rewriter.NothingToRestructure | rewriter.py:128-132 | without fragments, restructuring gives no entry unless the Neutral filler is drawn |
| Rewriter.FinishNothing | rewriter.py:154-159 | with no sentences, the last stage gives `"."` |
| Rewriter.NoKeyInPunctuation | rewriter.py:83 | no vocabulary key occurs in punctuation-only text |
| Rewriter.DotIsClean | rewriter.py:157-159 | the clean-up leaves `"."` as it is |
| Rewriter.RewriteText | rewriter.py:136-161 | the method's result and stream position equal `RewriteSpec` for the tone |
| LanguageModel.AfterLastSuffix | rewriter.py:212 | `split(marker)[-1]` is a suffix of the decoded text |
| LanguageModel.AfterLastFollowsMarker | rewriter.py:212 | when the marker occurs, the text ends with the marker followed by the extracted part |
| LanguageModel.AfterLastNoMarker | rewriter.py:212 | the extracted part holds no marker |
| LanguageModel.StripAfterLastNoMarker | rewriter.py:212 | the stripped extracted part holds no marker |
| LanguageModel.StripAfterLastInText | rewriter.py:212 | the stripped extracted part occurs in the decoded text |
| LanguageModel.Prompt | rewriter.py:185-196 | definition of the f-string prompt with `{tone}` and `{text}` filled in; used by `LanguageModel.LlmSpec` |
| LanguageModel.AfterLast | rewriter.py:212 | definition of `s.split(m)[-1]`; see `LanguageModel.AfterLastSuffix`, `LanguageModel.AfterLastFollowsMarker`, `LanguageModel.AfterLastNoMarker` |
| LanguageModel.Response | rewriter.py:211-212 | definition of the post-processing; see `LanguageModel.ResponseShape` |
| LanguageModel.ResponseShape | rewriter.py:211-214 | the response is stripped, holds no assistant marker, and occurs in the decoded text; without the marker it is the whole decoded text stripped; with the marker the decoded text ends with the marker followed by the extracted part |
| LanguageModel.LlmBlank | rewriter.py:170-171 | blank text gives "" and leaves the caches untouched |
| LanguageModel.NoReload | rewriter.py:174-183 | once the tokenizer is cached, loading is never attempted again, whatever the loaders would do |
| LanguageModel.FailedModelLoadIsFinal | rewriter.py:174-183 | with the tokenizer cached and no model, every non-blank call returns the error message and the model stays unloaded |
| LanguageModel.LlmAnswers | rewriter.py:211-218 | the answer is "", the fixed error message, or the post-processed generation |
| LanguageModel.LlmFails | rewriter.py:173-218 | text that is not blank gets the fixed error message when a load fails, when the cache holds the tokenizer but no model, or when generation raises |
| LanguageModel.LlmGenerates | rewriter.py:174-214 | text that is not blank, with both caches loaded or both loads succeeding and generation giving `d`, gets `d` post-processed, and both caches end up loaded |
| LanguageModel.LlmKeepsOrder | rewriter.py:174-183 | the model is never cached without the tokenizer, and a cached tokenizer stays cached |
| LanguageModel.LlmWith | rewriter.py:166-218 | definition of `rewrite_with_llm` on cache states; see `LanguageModel.LlmAnswers`, `LanguageModel.LlmFails`, `LanguageModel.LlmGenerates`, `LanguageModel.NoReload` |
| LanguageModel.LlmSpec | rewriter.py:166-218 | definition with the prompt of the tone; see `LanguageModel.RewriteWithLlm` |
| LanguageModel.MistralCache.constructor | rewriter.py:9-10 | both caches start empty |
| LanguageModel.RewriteWithLlm | rewriter.py:166-218 | the method's answer and new cache state equal `LlmSpec`, and the cache invariant is kept |
| LanguageModel.HybridRewrite | rewriter.py:222-235 | fewer than 50 whitespace tokens: the rule-based result, with the cache unchanged; otherwise the LLM result, with the stream unchanged |
| LanguageModel.BlankOnBothPaths | rewriter.py:226-231 | blank text has fewer than 50 tokens, and both rewriters return "" for it |
| Preprocess.SkipDigits | tts.py:49 | finds the end of the maximal digit run |
| Preprocess.Decimal | tts.py:49 | the decimal numeral of a number is a non-empty run of digits |
| Preprocess.Value | tts.py:49 | definition of `int()` on a digit run; see `Preprocess.ValueOfDecimal` |
| Preprocess.SpellNumbersFrom | tts.py:49 | definition of the digit-run substitution; see `Preprocess.SpellNumeral`, `Preprocess.SpellNumbersFromDigitFree`, `Preprocess.SpellNumbersFromKeeps` |
| Preprocess.ValueOfDecimal | tts.py:49 | `int()` of a number's decimal numeral is the number |
| Preprocess.SpellNumeral | tts.py:49 | a numeral alone becomes `num2words` of its value |
| Preprocess.SpellNumbersFromDigitFree | tts.py:49 | with digit-free spellings, the digit substitution leaves no digit |
| Preprocess.SpellNumbersFromKeeps | tts.py:49 | text without digits passes the digit substitution unchanged |
| Preprocess.ExpandDigitFree | tts.py:50-53 | the four literal replacements create no digit |
| Preprocess.StreetStep | tts.py:50 | after the first replacement, no "St." remains |
| Preprocess.MisterStep | tts.py:51 | after the second replacement, neither "St." nor "Mr." remains |
| Preprocess.DoctorStep | tts.py:52 | after the third replacement, none of "St.", "Mr.", "Dr." remains |
| Preprocess.AndStep | tts.py:53 | after the fourth replacement, none of "St.", "Mr.", "Dr.", "&" remains |
| Preprocess.Expand | tts.py:50-53 | definition of the four ordered replacements; see `Preprocess.ExpandLeavesNone`, `Preprocess.ExpandKeeps`, `Preprocess.ExpandDigitFree` |
| Preprocess.ExpandLeavesNone | tts.py:50-53 | the four replacements, in order, leave none of "St.", "Mr.", "Dr.", "&" |
| Preprocess.ExpandKeeps | tts.py:50-53 | text holding none of the four patterns passes the replacements unchanged |
| Preprocess.PreprocessText | tts.py:45-55 | definition of `preprocess_text`; see `Preprocess.PreprocessIdempotent`, `Preprocess.PreprocessTidy`, `Preprocess.PreprocessLeavesNone`, `Preprocess.PreprocessDigitFree` |
| Preprocess.PreprocessDigitFree | tts.py:45-55 | when `num2words` spells without digits, the output holds no digit |
| Preprocess.PreprocessLeavesNone | tts.py:45-55 | the output holds none of "St.", "Mr.", "Dr.", "&" |
| Preprocess.PreprocessTidy | tts.py:54 | the output is single-spaced with no whitespace at either end |
| Preprocess.PreprocessIdempotent | tts.py:45-55 | preprocessing its own output changes nothing |
| Synthesis.LastDot | tts.py:40 | the position of the last dot of a name, or -1 |
| Synthesis.Suffix | tts.py:40 | definition of `PurePath.suffix`; see `Synthesis.WithSuffixShape` |
| Synthesis.WithSuffix | tts.py:40 | definition of `PurePath.with_suffix`, None for an empty name; see `Synthesis.WithSuffixShape`, `Synthesis.WithSuffixKeeps` |
| Synthesis.WithSuffixShape | tts.py:40 | `with_suffix` on a non-empty name gives the new suffix and keeps the stem |
| Synthesis.WithSuffixKeeps | tts.py:40 | a name that already has the suffix is unchanged |
| Synthesis.OutputNameIsMp3 | tts.py:137 | "echoverse_tts.mp3" has the suffix ".mp3", so normalising to the final path writes that same path |
| Synthesis.NormalizeToMp3 | tts.py:36-42 | the output is mono at 16 kHz under a name with suffix ".mp3", and it fails exactly for an empty name |
| Synthesis.Cleaned | tts.py:127 | definition of `(text or "").strip()`; see `Synthesis.ValueErrorIffBlank` |
| Synthesis.Truncate | tts.py:130-131 | text of at most 6000 characters passes unchanged; longer text keeps its first 6000 characters followed by the marker |
| Synthesis.TruncateIdempotent | tts.py:130-131 | truncating twice is truncating once |
| Synthesis.ChooseVoice | tts.py:91-94 | voices[0] exactly for a label containing "VoiceA" with a voice available; voices[1] exactly otherwise for one containing "VoiceB" with two voices; the engine's default voice exactly when neither applies; a chosen index always exists |
| Synthesis.InterfaceLabelsKeepDefault | tts.py:91-94 | the four labels of the voice menu (app.py:388) all keep the engine's default voice |
| Synthesis.WarmKeepsDefault | tts.py:91-94 | "Voice A - Warm & Natural" keeps the default voice |
| Synthesis.BoldKeepsDefault | tts.py:91-94 | "Voice B - Bold & Dramatic" keeps the default voice |
| Synthesis.CalmKeepsDefault | tts.py:91-94 | "Voice C - Calm & Soothing" keeps the default voice |
| Synthesis.EnergeticKeepsDefault | tts.py:91-94 | "Voice D - Energetic & Upbeat" keeps the default voice |
| Synthesis.Trunc | tts.py:97 | `int()` truncates toward zero |
| Synthesis.ClampFactor | tts.py:97 | the clamped factor lies in [0.6, 1.6], and equals the factor inside that range |
| Synthesis.BaseRate | tts.py:96 | definition of `engine.getProperty("rate") or 180`; see `Synthesis.OfflineRateBounds` |
| Synthesis.OfflineRate | tts.py:96-97 | definition of the rate set on the engine; see `Synthesis.OfflineRateBounds`, `Synthesis.OfflineRateUnclamped` |
| Synthesis.OfflineRateBounds | tts.py:96-97 | for a positive base rate, the offline rate lies between `int(base*0.6)` and `int(base*1.6)` |
| Synthesis.OfflineRateUnclamped | tts.py:97 | a factor in [0.6, 1.6] is used as given |
| Synthesis.Engine.constructor | tts.py:88 | a fresh engine has its default voice and its reported rate |
| Synthesis.FallbackSpec | tts.py:83-115 | definition of what the fallback returns; see `Synthesis.FallbackToMp3` |
| Synthesis.FallbackToMp3 | tts.py:83-115 | returns the final path exactly when there is an engine that saves the text; sets the chosen voice (or keeps the old one) and the clamped rate computed from the old rate |
| Synthesis.ValueErrorIffBlank | tts.py:127-129 | `ValueError` is raised exactly when the text, with None read as "", is blank |
| Synthesis.Spoken | tts.py:127-133 | definition of the text the tiers are given; see `Synthesis.TierOrder` |
| Synthesis.SynthesizeSpec | tts.py:118-159 | definition of `synthesize`; see `Synthesis.TierOrder`, `Synthesis.ValueErrorIffBlank`, `Synthesis.Synthesize` |
| Synthesis.TierOrder | tts.py:135-159 | every returned path is `outputs/echoverse_tts.mp3`; the offline tier only after the neural tier failed; the silent tier only after the fallback returned None; `RuntimeError` exactly when all of these failed and the silent export raised |
| Synthesis.Synthesize | tts.py:118-159 | the method's result equals `SynthesizeSpec`; the engine is untouched unless the fallback runs, and then gets the chosen voice and the clamped rate |

## Left out

- Unicode: `\s`, `\w`, `str.split`, `str.strip` and `upper` are modelled on ASCII only. `IsSpace` is `\t`–`\r`, `\x1c`–`\x1f` and the space.
- `random.choice` draws its index as `floor(u * n)` from one uniform draw. CPython draws it with `_randbelow` from random bits. The order and number of draws are kept; the mapping from draws to indices is not CPython's.
- Probabilities are thresholds compared against draws. Nothing is stated about likelihoods.
- Model loading and inference (transformers, torch, Mistral, VITS) are not modelled. The Mistral loaders are two booleans. Generation is a function from the prompt to an optional decoded string (None stands for an exception). The neural speech tier is a function from the text to a `NeuralResult`.
- LanguageModel.LlmWith: a model that produces different output for the same prompt on different calls is not captured, because generation is a function of the prompt. The sampling parameters are not modelled.
- The caches of `synthesize_hf` are not modelled, since its whole outcome is an input.
- The prompt template is stored with `\n` line endings, which is what Python makes of the source's CRLF line endings inside a triple-quoted string.
- `num2words` is a parameter `spell: nat -> string`. Where digit-freedom matters it is required to return digit-free text. English number reading is not implemented.
- The worked example "Dr. Smith on St. Paul" → "Doctor Smith on Street Paul" is not proved as a concrete computation. The general lemmas (`Preprocess.PreprocessLeavesNone`, `Preprocess.PreprocessTidy`) state what it illustrates.
- Audio is not modelled: pydub, scipy, pyttsx3 speech, loudness normalisation, silence generation and export. `_normalize_to_mp3` keeps only the channels, the frame rate and the file name. Saving with the offline engine is one boolean function of the text (`Engine.saves`).
- Filesystem effects are left out: `mkdir`, temporary directories and files, `os.remove`, `is_file`. The `is_file` outcome is a field of `NeuralResult`.
- `Path.with_suffix` is modelled on the last path component, after CPython 3.13 and earlier: a suffix starts at the last dot when that dot is neither first nor last.
- Logging and `print` are left out.
- The user interface (`app.py`) is left out. Only its voice labels appear, in `Synthesis.InterfaceLabelsKeepDefault`.
- Rewriter.CapitaliseAll: upper-casing is stated on the list of sentences before the clean-up. On the cleaned string only the shape (tidy, ends with a dot, no adjacent dots) is proved.
- Rewriter.RewriteShape, Rewriter.RewriteEmptyIffBlank and Rewriter.PunctuationGivesDot are stated for any well-formed tables (`RewriteWith`). `Rewriter.PunctuationOnlyTone` and `RewriteSpec` give the tone-level form.
- Preprocess.Value: a digit run's value is exact and total. In the source, `int()` raises `ValueError` on a run longer than 4300 digits (the default limit of CPython 3.11 and later), and `num2words` raises `OverflowError` past its largest number. Both happen at tts.py:49, outside every `try`. The model has no outcome for them.
- Synthesis.ValueErrorIffBlank: states `ValueError` exactly for blank text, on the model above. In the source, non-blank text with a digit run the conversion rejects (for example 5000 ones, which survive the 6000-character cut) also raises `ValueError` or `OverflowError` before any tier runs.
- Synthesis.OfflineRate: the product of the base rate and the factor is exact. Python multiplies floats, so `int()` of the product can be one lower than in the model (`int(100 * 1.15)` is 114, the model gives 115). `Synthesis.OfflineRateBounds` and `Synthesis.OfflineRateUnclamped` are stated on exact arithmetic. The clamping of the factor and the truncation toward zero are modelled as written.
- Synthesis.FallbackToMp3: an exception between choosing the voice and saving is one outcome, "saving fails". The model sets the voice and the rate before any failure. In the source, an exception at tts.py:90-97 (reading the voices, setting the voice, reading or setting the rate) leaves the voice, the rate or both unset. The engine is local to the call, so nothing outside it observes the difference.
