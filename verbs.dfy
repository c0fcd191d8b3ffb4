/**
 * The leading-verb normalisation of the bullet rewriter: the word each
 * generated bullet adds to the set of verbs later entries are asked to avoid.
 */
module Verbs {
  import opened Wrappers
  import opened Text

  /**
   * The first whitespace-separated word of `bullet`, with '.' and ',' stripped
   * from both ends and then capitalized; `None` when the bullet has no word.
   */
  function LeadingVerb(bullet: string): Option<string> {
    match FirstToken(bullet)
    case None => None
    case Some(word) => Some(Capitalize(StripDotsCommas(word)))
  }

  /** The verb of one bullet as a set: empty when the bullet has no word. */
  function VerbSet(bullet: string): set<string> {
    match LeadingVerb(bullet)
    case Some(v) => {v}
    case None => {}
  }

  /** The verbs a list of bullets contributes: the leading verb of each bullet that has one. */
  function VerbsOf(bullets: seq<string>): set<string> {
    set k | 0 <= k < |bullets| && LeadingVerb(bullets[k]).Some? :: LeadingVerb(bullets[k]).value
  }

  /** A bullet contributes no verb exactly when it is empty or only whitespace. */
  lemma NoVerbIffBlank(bullet: string)
    ensures LeadingVerb(bullet).None? <==> AllSpace(bullet)
  {
    FirstTokenSpec(bullet);
  }

  /**
   * A bullet's verb is its first word, stripped of leading and trailing dots
   * and commas, then capitalized: same length as the stripped word, its first
   * letter in upper case and the others in lower case.
   */
  lemma LeadingVerbShape(bullet: string)
    requires !AllSpace(bullet)
    ensures LeadingVerb(bullet).Some?
    ensures var v := LeadingVerb(bullet).value;
      && |v| <= |FirstToken(bullet).value|
      && NoSpace(v)
      && (v == [] || (!IsDotOrComma(v[0]) && !IsDotOrComma(v[|v| - 1])))
  {
    FirstTokenSpec(bullet);
    var word := FirstToken(bullet).value;
    var stripped := StripDotsCommas(word);
    var v := Capitalize(stripped);
    StripNoSpace(word);
    CapitalizeSpec(stripped);
    StripDotsCommasSpec(word);
    forall k | 0 <= k < |v| ensures !IsSpace(v[k]) {
      CaseKeepsClass(stripped[k]);
    }
    if v != [] {
      CaseKeepsClass(stripped[0]);
      CaseKeepsClass(stripped[|stripped| - 1]);
    }
  }

  /** Stripping dots and commas from a word leaves a word. */
  lemma StripNoSpace(word: string)
    requires NoSpace(word)
    ensures NoSpace(StripDotsCommas(word))
  {
    StripDotsCommasSpec(word);
    var stripped := StripDotsCommas(word);
    var i :| 0 <= i <= |word| - |stripped| && AllDotsCommas(word[..i])
      && word[i..i + |stripped|] == stripped && AllDotsCommas(word[i + |stripped|..]);
    forall k | 0 <= k < |stripped| ensures !IsSpace(stripped[k]) {
      assert stripped[k] == word[i + k];
    }
  }

  /** Appending one bullet adds its verb, if it has one, and nothing else. */
  lemma VerbsOfSnoc(bullets: seq<string>, b: string)
    ensures VerbsOf(bullets + [b]) == VerbsOf(bullets) + VerbSet(b)
  {
    var all := bullets + [b];
    forall v | v in VerbsOf(all) ensures v in VerbsOf(bullets) + VerbSet(b) {
      var k :| 0 <= k < |all| && LeadingVerb(all[k]).Some? && LeadingVerb(all[k]).value == v;
      if k < |bullets| {
        assert all[k] == bullets[k];
      }
    }
    forall v | v in VerbsOf(bullets) ensures v in VerbsOf(all) {
      var k :| 0 <= k < |bullets| && LeadingVerb(bullets[k]).Some? && LeadingVerb(bullets[k]).value == v;
      assert all[k] == bullets[k];
    }
    if LeadingVerb(b).Some? {
      assert all[|bullets|] == b;
    }
  }

  /** Taking one more bullet of a list adds that bullet's verb. */
  lemma VerbsOfStep(bullets: seq<string>, j: nat)
    requires j < |bullets|
    ensures VerbsOf(bullets[..j + 1]) == VerbsOf(bullets[..j]) + VerbSet(bullets[j])
  {
    assert bullets[..j + 1] == bullets[..j] + [bullets[j]];
    VerbsOfSnoc(bullets[..j], bullets[j]);
  }

  /** A first word made only of dots and commas contributes the empty string. */
  lemma DotsGiveEmptyVerb()
    ensures LeadingVerb("...") == Some("")
    ensures LeadingVerb(", and more") == Some("")
  {
    assert ", and more" == "," + [' '] + "and more";
    FirstTokenOfWord(",", ' ', "and more");
    FirstTokenOfWholeWord("...");
  }

  /** A verb, read again as a bullet of its own, yields itself: normalisation is idempotent. */
  lemma LeadingVerbIsNormal(bullet: string, v: string)
    requires LeadingVerb(bullet) == Some(v) && v != []
    ensures LeadingVerb(v) == Some(v)
  {
    NoVerbIffBlank(bullet);
    LeadingVerbShape(bullet);
    FirstTokenOfWholeWord(v);
    StripDotsCommasKeeps(v);
    var stripped := StripDotsCommas(FirstToken(bullet).value);
    CapitalizeIdempotent(stripped);
  }
}
