/**
 * Deriving a challenge variant from a seed
 * (backend/src/main/java/com/javachallenge/ai/ChallengeGenerationService.java).
 * The language-model call is not modelled: its response is an arbitrary
 * string handed to `ParseAndSave`, which keeps at most its first 500
 * UTF-16 code units as the story and takes everything else from the seed.
 */
module ChallengeGeneration {
  import opened Wrappers
  import opened Text
  import opened Entities

  /** Java `Arrays.toString(int[])`: "null", or the items between brackets separated by ", ". */
  function ItemsText(items: Option<seq<int>>): (r: string)
    ensures '\n' !in r
  {
    match items
    case None => "null"
    case Some(xs) => "[" + JoinItems(xs) + "]"
  }

  function JoinItems(xs: seq<int>): (r: string)
    ensures '\n' !in r
  {
    if |xs| == 0 then ""
    else
      var first := IntToDecimal(xs[0]);
      assert '\n' !in first by { DecimalHasNoNewline(xs[0]); }
      if |xs| == 1 then first else first + ", " + JoinItems(xs[1..])
  }

  lemma DecimalHasNoNewline(i: int)
    ensures '\n' !in IntToDecimal(i)
  {
    var d := NatToDecimal(if i < 0 then -i else i);
    assert AllDigits(d);
  }

  /** The fixed labels of the prompt's header lines. */
  datatype PromptLabels = PromptLabels(intro: string, title: string, theme: string, items: string,
                                       requested: string, legacy: string)

  // Each long label is written as two literals so that the verifier can see
  // it holds no newline; joined, they are the source's literal.
  const IntroLabel := "Generate a Java challenge " + "variant based on this seed:"
  const ItemsLabel := "EFFECTIVE JAVA ITEMS VIOLATED: "
  const RequestedLabel := "NEW THEME REQUESTED: "
  const LegacyLabel := "SEED LEGACY CODE (preserve " + "same violations, change domain):"
  const TitleLabel := "SEED TITLE: "
  const ThemeLabel := "SEED THEME: "
  const Labels := PromptLabels(IntroLabel, TitleLabel, ThemeLabel, ItemsLabel, RequestedLabel, LegacyLabel)

  predicate LabelsAreLines(l: PromptLabels) {
    '\n' !in l.intro && '\n' !in l.title && '\n' !in l.theme && '\n' !in l.items
    && '\n' !in l.requested && '\n' !in l.legacy
  }

  // The two long labels are checked in lemmas of their own, one proof each.
  lemma IntroIsLine()
    ensures '\n' !in IntroLabel
  {
  }

  lemma LegacyIsLine()
    ensures '\n' !in LegacyLabel
  {
  }

  /** Each fixed label is a single line of the prompt. */
  lemma LabelsHaveNoNewline()
    ensures LabelsAreLines(Labels)
  {
    IntroIsLine();
    LegacyIsLine();
  }

  /** The header lines with the labels `l`. */
  function HeaderWith(l: PromptLabels, seed: ChallengeSeed, newTheme: string): seq<string> {
    [ l.intro,
      "",
      l.title + seed.title,
      l.theme + seed.title,
      l.items + ItemsText(seed.effectiveJavaItems),
      l.requested + newTheme,
      "",
      l.legacy ]
  }

  /** The lines of the prompt before the seed's legacy code. */
  function PromptHeader(seed: ChallengeSeed, newTheme: string): seq<string> {
    HeaderWith(Labels, seed, newTheme)
  }

  /** `buildPrompt`: the header lines, then the legacy code ("null" when absent) and a final newline. */
  function BuildPrompt(seed: ChallengeSeed, newTheme: string): string {
    JoinLines(PromptHeader(seed, newTheme)) + "\n" + JavaStr(seed.legacyCode) + "\n"
  }

  lemma NoNewlineIn(prefix: string, value: string)
    requires '\n' !in prefix && '\n' !in value
    ensures '\n' !in prefix + value
  {
  }

  /** Header line `k` holds no newline when neither the labels, the title nor the theme do. */
  lemma HeaderLineIsLine(l: PromptLabels, seed: ChallengeSeed, newTheme: string, k: int)
    requires LabelsAreLines(l) && '\n' !in seed.title && '\n' !in newTheme
    requires 0 <= k < 8
    ensures '\n' !in HeaderWith(l, seed, newTheme)[k]
  {
    if k == 2 {
      NoNewlineIn(l.title, seed.title);
    } else if k == 3 {
      NoNewlineIn(l.theme, seed.title);
    } else if k == 4 {
      NoNewlineIn(l.items, ItemsText(seed.effectiveJavaItems));
    } else if k == 5 {
      NoNewlineIn(l.requested, newTheme);
    }
  }

  lemma HeaderLinesAreLines(seed: ChallengeSeed, newTheme: string)
    requires '\n' !in seed.title && '\n' !in newTheme
    ensures forall k :: 0 <= k < |PromptHeader(seed, newTheme)| ==> '\n' !in PromptHeader(seed, newTheme)[k]
  {
    LabelsHaveNoNewline();
    forall k | 0 <= k < |PromptHeader(seed, newTheme)| ensures '\n' !in PromptHeader(seed, newTheme)[k] {
      HeaderLineIsLine(Labels, seed, newTheme, k);
    }
  }

  /**
   * Read line by line, the prompt carries the seed's title in both the title
   * and the theme slot (the seed's own theme is never sent) and the requested
   * theme in its own slot.
   */
  lemma PromptSlots(seed: ChallengeSeed, newTheme: string)
    requires '\n' !in seed.title && '\n' !in newTheme
    ensures |SplitLines(BuildPrompt(seed, newTheme))| >= 8
    ensures SplitLines(BuildPrompt(seed, newTheme))[..8] == PromptHeader(seed, newTheme)
    ensures SplitLines(BuildPrompt(seed, newTheme))[2] == "SEED TITLE: " + seed.title
    ensures SplitLines(BuildPrompt(seed, newTheme))[3] == "SEED THEME: " + seed.title
    ensures SplitLines(BuildPrompt(seed, newTheme))[5] == "NEW THEME REQUESTED: " + newTheme
  {
    var h := PromptHeader(seed, newTheme);
    HeaderLinesAreLines(seed, newTheme);
    SplitJoinedLines(h, JavaStr(seed.legacyCode) + "\n");
    assert BuildPrompt(seed, newTheme) == JoinLines(h) + "\n" + (JavaStr(seed.legacyCode) + "\n");
  }

  const StoryLimit := 500

  /** The story kept from a response: its first 500 UTF-16 code units. */
  function Story(response: string): (r: string)
    ensures r <= response && JavaLength(r) <= StoryLimit
    ensures JavaLength(response) <= StoryLimit ==> r == response
    ensures JavaLength(response) > StoryLimit ==>
              && |r| < |response|
              && (|| JavaLength(r) == StoryLimit
                  || (JavaLength(r) == StoryLimit - 1 && Utf16Units(response[|r|]) == 2))
  {
    if JavaLength(response) > StoryLimit then
      var r := JavaPrefix(response, StoryLimit);
      assert r != response;
      assert r == response[..|r|];
      r
    else response
  }

  /** A response written within the Basic Multilingual Plane is cut at exactly 500 characters. */
  lemma StoryOfBmpText(response: string)
    requires forall k :: 0 <= k < |response| ==> Utf16Units(response[k]) == 1
    ensures |response| <= StoryLimit ==> Story(response) == response
    ensures |response| > StoryLimit ==> Story(response) == response[..StoryLimit]
  {
    var r := Story(response);
    BmpJavaLength(response);
    assert r == response[..|r|];
    assert forall k :: 0 <= k < |r| ==> r[k] == response[k];
    BmpJavaLength(r);
  }

  /** `parseAndSave`: the variant as saved under the new id `id`. */
  function ParseAndSave(response: string, seed: ChallengeSeed, theme: string, id: nat): (c: Challenge)
    ensures c.id == id && c.seed == Some(seed.id) && c.aiGenerated
    ensures c.title == "AI Variant: " + theme && c.theme == theme
    ensures c.story == Some(Story(response))
    ensures c.topicId == seed.topicId && c.difficulty == seed.difficulty
    ensures c.hiddenTestsJson == seed.hiddenTestsJson && c.checkstyleRulesJson == seed.checkstyleRulesJson
    ensures c.legacyCode == seed.legacyCode && c.requirementsMd == seed.requirementsMd
    ensures c.testSuiteCode == seed.testSuiteCode
    ensures c.challengeType == "refactor"
  {
    Challenge(
      id, Some(seed.id), seed.topicId, "AI Variant: " + theme, theme, seed.difficulty,
      Some(Story(response)), seed.legacyCode, seed.requirementsMd, seed.testSuiteCode,
      seed.hiddenTestsJson, seed.checkstyleRulesJson, true, "refactor")
  }

  /**
   * Two variants of one seed differ only in what the theme and the response
   * decide: id, title, theme and story.
   */
  lemma VariantsShareSeedContent(r1: string, r2: string, seed: ChallengeSeed, t1: string, t2: string, id: nat)
    ensures ParseAndSave(r1, seed, t1, id).(title := "", theme := "", story := None)
         == ParseAndSave(r2, seed, t2, id).(title := "", theme := "", story := None)
  {
  }

  /** The title names the theme after a fixed prefix, so the theme can be read back from it. */
  lemma TitleNamesTheme(response: string, seed: ChallengeSeed, theme: string, id: nat)
    ensures var t := ParseAndSave(response, seed, theme, id).title;
      StartsWith(t, "AI Variant: ") && t[|"AI Variant: "|..] == theme
  {
  }
}
