/** The fixed tables of the rule-based rewriter: per-tone vocabulary maps in
    their insertion order, the filler sentences ("sentence enhancers") and
    the sentence connectors. */
module ToneTables {
  import opened Wrappers

  /** One key of a vocabulary map and the replacements drawn for it. */
  datatype Entry = Entry(key: string, choices: seq<string>)

  /** How restructuring treats a tone: the two decorated tones, and every
      other tone string, which falls through to the neutral branch. */
  datatype Style = Suspense | Inspire | Plain

  function StyleOf(tone: string): (s: Style)
    ensures s == Suspense <==> tone == "Suspenseful"
    ensures s == Inspire <==> tone == "Inspiring"
  {
    if tone == "Suspenseful" then Suspense
    else if tone == "Inspiring" then Inspire
    else Plain
  }

  const SuspensefulVocabulary: seq<Entry> := [
    Entry("said", ["whispered", "murmured", "declared ominously", "breathed"]),
    Entry("walked", ["crept", "stalked", "moved stealthily", "prowled"]),
    Entry("looked", ["peered", "gazed intently", "scrutinized", "observed carefully"]),
    Entry("found", ["discovered", "uncovered", "stumbled upon", "revealed"]),
    Entry("big", ["enormous", "massive", "towering", "immense"]),
    Entry("small", ["tiny", "minuscule", "barely visible", "microscopic"]),
    Entry("dark", ["pitch-black", "shadowy", "ominous", "forbidding"]),
    Entry("quiet", ["eerily silent", "deathly quiet", "hushed", "soundless"]),
    Entry("started", ["began mysteriously", "commenced ominously", "initiated"]),
    Entry("happened", ["unfolded", "materialized", "emerged", "manifested"]),
    Entry("problem", ["mystery", "enigma", "dark secret", "hidden truth"]),
    Entry("important", ["crucial", "vital", "critical", "pivotal"]),
    Entry("quickly", ["swiftly", "in a flash", "instantaneously", "like lightning"])
  ]

  const InspiringVocabulary: seq<Entry> := [
    Entry("said", ["proclaimed", "declared with passion", "shared enthusiastically", "announced boldly"]),
    Entry("walked", ["strode confidently", "marched forward", "stepped with purpose", "advanced courageously"]),
    Entry("looked", ["envisioned", "gazed with hope", "focused intently", "observed with clarity"]),
    Entry("found", ["achieved", "accomplished", "realized", "attained"]),
    Entry("big", ["magnificent", "extraordinary", "remarkable", "outstanding"]),
    Entry("small", ["humble yet significant", "precious", "valuable", "meaningful"]),
    Entry("difficult", ["challenging yet rewarding", "growth-inspiring", "character-building"]),
    Entry("good", ["exceptional", "remarkable", "outstanding", "extraordinary"]),
    Entry("bad", ["challenging", "learning opportunity", "growth catalyst", "stepping stone"]),
    Entry("try", ["commit to", "dedicate yourself to", "embrace", "pursue with passion"]),
    Entry("work", ["dedicate yourself", "pour your heart into", "commit passionately"]),
    Entry("help", ["empower", "uplift", "inspire", "transform"]),
    Entry("success", ["triumph", "breakthrough", "achievement", "victory"]),
    Entry("change", ["transformation", "evolution", "breakthrough", "metamorphosis"])
  ]

  const SuspensefulFillers: seq<string> := [
    "The air grew thick with mystery.",
    "Something lurked in the shadows.",
    "An eerie silence filled the space.",
    "Time seemed to slow to a crawl.",
    "The darkness held secrets untold."
  ]

  const InspiringFillers: seq<string> := [
    "This moment sparked infinite possibilities.",
    "Every challenge became a stepping stone to greatness.",
    "The journey toward excellence had begun.",
    "Dreams transformed into unstoppable reality.",
    "Success was no longer a distant hope, but an approaching certainty."
  ]

  const NeutralFillers: seq<string> := [
    "The analysis revealed important insights.",
    "Further examination showed significant results.",
    "The data supported comprehensive conclusions.",
    "Multiple factors contributed to the outcome.",
    "The findings demonstrated clear patterns."
  ]

  const SuspensefulConnectors: seq<string> :=
    ["suddenly", "without warning", "in that moment", "unexpectedly", "then"]

  const InspiringConnectors: seq<string> :=
    ["furthermore", "beyond that", "even more remarkably", "with unwavering determination"]

  /** Every key starts with a lower-case letter and has at least one
      replacement. */
  predicate WellFormed(table: seq<Entry>) {
    forall k :: 0 <= k < |table| ==>
      table[k].key != [] && 'a' <= table[k].key[0] <= 'z' && table[k].choices != []
  }

  /** self.vocabulary_maps.get(tone): only the two decorated tones have one. */
  function VocabularyMap(tone: string): (m: Option<seq<Entry>>)
    ensures m.Some? <==> StyleOf(tone) != Plain
    ensures m.Some? ==> WellFormed(m.value)
  {
    if tone == "Suspenseful" then SuspensefulWellFormed(); Some(SuspensefulVocabulary)
    else if tone == "Inspiring" then InspiringWellFormed(); Some(InspiringVocabulary)
    else None
  }

  lemma SuspensefulWellFormed()
    ensures WellFormed(SuspensefulVocabulary)
  {
    var t := SuspensefulVocabulary;
    forall k | 0 <= k < |t| ensures t[k].key != [] && 'a' <= t[k].key[0] <= 'z' && t[k].choices != [] {
    }
  }

  lemma InspiringWellFormed()
    ensures WellFormed(InspiringVocabulary)
  {
    var t := InspiringVocabulary;
    forall k | 0 <= k < |t| ensures t[k].key != [] && 'a' <= t[k].key[0] <= 'z' && t[k].choices != [] {
    }
  }

  /** The phrases restructuring draws from for one style: its connectors
      and its filler sentences. */
  datatype Phrasebook = Phrasebook(connectors: seq<string>, fillers: seq<string>)

  /** Every style has fillers to choose from; the decorated styles also
      have connectors. */
  predicate Stocked(style: Style, book: Phrasebook) {
    book.fillers != [] && (style != Plain ==> book.connectors != [])
  }

  /** The pools of each style; every tone that is neither Suspenseful nor
      Inspiring uses the Neutral fillers and has no connectors. */
  function PhrasebookOf(style: Style): (b: Phrasebook)
    ensures Stocked(style, b)
  {
    match style
    case Suspense => Phrasebook(SuspensefulConnectors, SuspensefulFillers)
    case Inspire => Phrasebook(InspiringConnectors, InspiringFillers)
    case Plain => Phrasebook([], NeutralFillers)
  }

  /** The chance thresholds a draw is compared against. */
  function ConnectorChance(style: Style): real
    requires style != Plain
  {
    if style == Suspense then 0.4 else 0.3
  }

  function FillerChance(style: Style): real {
    match style
    case Suspense => 0.25
    case Inspire => 0.3
    case Plain => 0.2
  }

  const PauseChance: real := 0.3
  const PauseMinLength: nat := 20
}
