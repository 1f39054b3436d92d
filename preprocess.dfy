/** preprocess_text of the speech front end: digit runs are spelled out,
    four abbreviations are expanded in order, and whitespace is collapsed.
    num2words is the parameter `spell`. */
module Preprocess {
  import opened Text
  import opened TextFacts

  /** The first index at or after i that holds no digit, or |s|. */
  function SkipDigits(s: string, i: nat): (j: nat)
    requires i <= |s|
    ensures i <= j <= |s|
    ensures forall k :: i <= k < j ==> IsDigit(s[k])
    ensures j < |s| ==> !IsDigit(s[j])
    decreases |s| - i
  {
    if i < |s| && IsDigit(s[i]) then SkipDigits(s, i + 1) else i
  }

  predicate AllDigits(ds: string) {
    forall k :: 0 <= k < |ds| ==> IsDigit(ds[k])
  }

  /** int(ds) for a string of decimal digits. */
  function Value(ds: string): nat
    requires AllDigits(ds)
  {
    if ds == [] then 0
    else 10 * Value(ds[..|ds| - 1]) + (ds[|ds| - 1] as int - '0' as int)
  }

  /** The decimal numeral of n, without leading zeros. */
  function Decimal(n: nat): (ds: string)
    ensures ds != [] && AllDigits(ds)
  {
    if n < 10 then [('0' as int + n) as char]
    else Decimal(n / 10) + [('0' as int + n % 10) as char]
  }

  /** Reading the numeral of n back gives n. */
  lemma {:induction false} ValueOfDecimal(n: nat)
    ensures Value(Decimal(n)) == n
  {
    var ds := Decimal(n);
    if n >= 10 {
      ValueOfDecimal(n / 10);
      assert ds[..|ds| - 1] == Decimal(n / 10);
    }
  }

  /** re.sub(r'(\d+)', lambda m: num2words(int(m.group(1))), s[i..]):
      every maximal digit run becomes the spelling of its value. */
  function SpellNumbersFrom(s: string, spell: nat -> string, i: nat): string
    requires i <= |s|
    decreases |s| - i
  {
    if i == |s| then []
    else if IsDigit(s[i]) then
      var j := SkipDigits(s, i);
      spell(Value(s[i..j])) + SpellNumbersFrom(s, spell, j)
    else [s[i]] + SpellNumbersFrom(s, spell, i + 1)
  }

  function SpellNumbers(s: string, spell: nat -> string): string {
    SpellNumbersFrom(s, spell, 0)
  }

  /** When the spellings hold no digit, neither does the result. */
  lemma {:induction false} SpellNumbersFromDigitFree(s: string, spell: nat -> string, i: nat)
    requires i <= |s|
    requires forall n :: DigitFree(spell(n))
    ensures DigitFree(SpellNumbersFrom(s, spell, i))
    decreases |s| - i
  {
    if i < |s| {
      if IsDigit(s[i]) {
        SpellNumbersFromDigitFree(s, spell, SkipDigits(s, i));
      } else {
        SpellNumbersFromDigitFree(s, spell, i + 1);
      }
    }
  }

  /** Text without digits is left as it is. */
  lemma {:induction false} SpellNumbersFromKeeps(s: string, spell: nat -> string, i: nat)
    requires i <= |s| && DigitFree(s)
    ensures SpellNumbersFrom(s, spell, i) == s[i..]
    decreases |s| - i
  {
    if i < |s| {
      SpellNumbersFromKeeps(s, spell, i + 1);
      assert s[i..] == [s[i]] + s[i + 1..];
    }
  }

  /** A numeral is one run: it becomes the spelling of its number. */
  lemma SpellNumeral(n: nat, spell: nat -> string)
    ensures SpellNumbers(Decimal(n), spell) == spell(n)
  {
    var ds := Decimal(n);
    ValueOfDecimal(n);
    assert SkipDigits(ds, 0) == |ds|;
    assert ds[0..|ds|] == ds;
    assert SpellNumbersFrom(ds, spell, 0) == spell(n) + [];
  }

  /** The four ordered replacements of preprocess_text. */
  function Expand(s: string): string {
    ReplaceAll(ReplaceAll(ReplaceAll(ReplaceAll(s, "St.", "Street"), "Mr.", "Mister"), "Dr.", "Doctor"), "&", " and ")
  }

  /** preprocess_text(text) for the spelling function `spell`. */
  function PreprocessText(text: string, spell: nat -> string): string {
    Squash(Expand(SpellNumbers(text, spell)))
  }

  /** When num2words spells without digits, the result holds no digit. */
  lemma PreprocessDigitFree(text: string, spell: nat -> string)
    requires forall n :: DigitFree(spell(n))
    ensures DigitFree(PreprocessText(text, spell))
  {
    var s0 := SpellNumbers(text, spell);
    SpellNumbersFromDigitFree(text, spell, 0);
    ExpandDigitFree(s0);
    SquashKeepsDigitFree(Expand(s0));
  }

  lemma ExpandDigitFree(s: string)
    requires DigitFree(s)
    ensures DigitFree(Expand(s))
  {
    var s1 := ReplaceAll(s, "St.", "Street");
    var s2 := ReplaceAll(s1, "Mr.", "Mister");
    var s3 := ReplaceAll(s2, "Dr.", "Doctor");
    ReplaceKeepsDigitFree(s, "St.", "Street");
    ReplaceKeepsDigitFree(s1, "Mr.", "Mister");
    ReplaceKeepsDigitFree(s2, "Dr.", "Doctor");
    ReplaceKeepsDigitFree(s3, "&", " and ");
  }

  /** No "St.", "Mr.", "Dr." or "&" is left after the replacements. */
  lemma ExpandLeavesNone(s: string)
    ensures !Contains(Expand(s), "St.")
    ensures !Contains(Expand(s), "Mr.")
    ensures !Contains(Expand(s), "Dr.")
    ensures !Contains(Expand(s), "&")
  {
    var s1 := ReplaceAll(s, "St.", "Street");
    var s2 := ReplaceAll(s1, "Mr.", "Mister");
    var s3 := ReplaceAll(s2, "Dr.", "Doctor");
    StreetStep(s);
    MisterStep(s1);
    DoctorStep(s2);
    AndStep(s3);
  }

  /** A replacement whose first character differs from every later
      character of q, and which does not start with q, cannot begin with
      a suffix of q. */
  lemma HeadOverlapFree(r: string, q: string)
    requires r != [] && !StartsWith(r, q)
    requires forall k :: 0 < k < |q| ==> q[k] != r[0]
    ensures NoHeadOverlap(r, q)
  {
    forall k | 0 < k < |q|
      ensures !StartsWith(r, q[k..])
    {
      assert q[k..][0] == q[k];
    }
  }

  /** A replacement none of whose last |q| - 1 characters is q's first
      cannot end with a proper prefix of q. */
  lemma TailOverlapFree(r: string, q: string)
    requires |r| >= |q|
    requires forall j :: |r| - |q| < j < |r| ==> r[j] != q[0]
    ensures NoTailOverlap(r, q)
  {
    forall k | 0 < k < |q|
      ensures !EndsWith(r, q[..k])
    {
      assert r[|r| - k..][0] == r[|r| - k] && q[..k][0] == q[0];
    }
  }

  /** What ReplaceLeavesNo asks of a replacement r and a pattern q, from
      character checks on the two literals: r and q differ at index w. */
  lemma Harmless(r: string, q: string, w: nat)
    requires q != [] && |r| >= |q| && w < |q| && r[w] != q[w]
    requires forall k :: 0 < k < |r| ==> r[k] != q[0]
    requires forall k :: 0 < k < |q| ==> q[k] != r[0]
    ensures !Contains(r, q) && NoHeadOverlap(r, q) && NoTailOverlap(r, q)
  {
    AbsentPastHead(r, q, w);
    HeadOverlapFree(r, q);
    TailOverlapFree(r, q);
  }

  lemma StreetStep(s: string)
    ensures !Contains(ReplaceAll(s, "St.", "Street"), "St.")
  {
    Harmless("Street", "St.", 2);
    ReplaceLeavesNo(s, "St.", "Street", "St.");
  }

  lemma MisterStep(s: string)
    requires !Contains(s, "St.")
    ensures !Contains(ReplaceAll(s, "Mr.", "Mister"), "St.")
    ensures !Contains(ReplaceAll(s, "Mr.", "Mister"), "Mr.")
  {
    Harmless("Mister", "St.", 0);
    Harmless("Mister", "Mr.", 1);
    ReplaceLeavesNo(s, "Mr.", "Mister", "St.");
    ReplaceLeavesNo(s, "Mr.", "Mister", "Mr.");
  }

  lemma DoctorStep(s: string)
    requires !Contains(s, "St.") && !Contains(s, "Mr.")
    ensures !Contains(ReplaceAll(s, "Dr.", "Doctor"), "St.")
    ensures !Contains(ReplaceAll(s, "Dr.", "Doctor"), "Mr.")
    ensures !Contains(ReplaceAll(s, "Dr.", "Doctor"), "Dr.")
  {
    Harmless("Doctor", "St.", 0);
    Harmless("Doctor", "Mr.", 0);
    Harmless("Doctor", "Dr.", 1);
    ReplaceLeavesNo(s, "Dr.", "Doctor", "St.");
    ReplaceLeavesNo(s, "Dr.", "Doctor", "Mr.");
    ReplaceLeavesNo(s, "Dr.", "Doctor", "Dr.");
  }

  lemma AndStep(s: string)
    requires !Contains(s, "St.") && !Contains(s, "Mr.") && !Contains(s, "Dr.")
    ensures !Contains(ReplaceAll(s, "&", " and "), "St.")
    ensures !Contains(ReplaceAll(s, "&", " and "), "Mr.")
    ensures !Contains(ReplaceAll(s, "&", " and "), "Dr.")
    ensures !Contains(ReplaceAll(s, "&", " and "), "&")
  {
    Harmless(" and ", "St.", 0);
    Harmless(" and ", "Mr.", 0);
    Harmless(" and ", "Dr.", 0);
    Harmless(" and ", "&", 0);
    ReplaceLeavesNo(s, "&", " and ", "St.");
    ReplaceLeavesNo(s, "&", " and ", "Mr.");
    ReplaceLeavesNo(s, "&", " and ", "Dr.");
    ReplaceLeavesNo(s, "&", " and ", "&");
  }

  /** None of the four abbreviations is left in the output. */
  lemma PreprocessLeavesNone(text: string, spell: nat -> string)
    ensures !Contains(PreprocessText(text, spell), "St.")
    ensures !Contains(PreprocessText(text, spell), "Mr.")
    ensures !Contains(PreprocessText(text, spell), "Dr.")
    ensures !Contains(PreprocessText(text, spell), "&")
  {
    var e := Expand(SpellNumbers(text, spell));
    ExpandLeavesNone(SpellNumbers(text, spell));
    SquashKeepsAbsent(e, "St.");
    SquashKeepsAbsent(e, "Mr.");
    SquashKeepsAbsent(e, "Dr.");
    SquashKeepsAbsent(e, "&");
  }

  /** The output is tidy: single plain spaces, none at either end. */
  lemma PreprocessTidy(text: string, spell: nat -> string)
    ensures Tidy(PreprocessText(text, spell))
  {
    SquashTidy(Expand(SpellNumbers(text, spell)));
  }

  /** The replacements change nothing where no pattern occurs. */
  lemma ExpandKeeps(s: string)
    requires !Contains(s, "St.") && !Contains(s, "Mr.") && !Contains(s, "Dr.") && !Contains(s, "&")
    ensures Expand(s) == s
  {
    ReplaceAbsent(s, "St.", "Street");
    ReplaceAbsent(s, "Mr.", "Mister");
    ReplaceAbsent(s, "Dr.", "Doctor");
    ReplaceAbsent(s, "&", " and ");
  }

  /** When num2words spells without digits, preprocessing its own output
      changes nothing. */
  lemma PreprocessIdempotent(text: string, spell: nat -> string)
    requires forall n :: DigitFree(spell(n))
    ensures PreprocessText(PreprocessText(text, spell), spell) == PreprocessText(text, spell)
  {
    var out := PreprocessText(text, spell);
    PreprocessDigitFree(text, spell);
    SpellNumbersFromKeeps(out, spell, 0);
    assert out[0..] == out;
    PreprocessLeavesNone(text, spell);
    ExpandKeeps(out);
    SquashIdempotent(Expand(SpellNumbers(text, spell)));
  }
}
