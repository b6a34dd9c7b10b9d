/** Rules as the parser makes them meet what the proofs assume of an input method. */
module BambooMethods {
  import opened BambooChars
  import opened BambooFlattener
  import opened BambooKeys
  import opened BambooShape

  // A tone rule: no letter to look for, no letter to make.
  function ToneRule(key: char, tone: Effect): Rule {
    Rule(key, tone, ToneTransformation, NUL, NUL, [])
  }

  // A mark rule on one letter.
  function MarkRule(key: char, mark: Effect, on: char, result: char): Rule {
    Rule(key, mark, MarkTransformation, on, result, [])
  }

  function LetterRule(key: char, letter: char, appended: seq<Rule>): Rule {
    Rule(key, MARK_NONE, Appending, letter, letter, appended)
  }

  // A rule that makes the letters of its definition, the first for the key and the others behind it.
  function LettersRule(key: char, letters: string): Rule
    requires letters != ""
  {
    LetterRule(key, letters[0],
      seq(|letters| - 1, i requires 0 <= i < |letters| - 1 => LetterRule(key, letters[i + 1], [])))
  }

  // Letters of the Latin alphabet with tones and marks; a capital one needs a key that is its own upper case.
  predicate LatinLetters(cs: Charset, key: char, letters: string) {
    && letters != ""
    && (forall i :: 0 <= i < |letters| ==> IsAlpha(BaseLetter(cs, cs.lower(letters[i]))))
    && (cs.isUpper(letters[0]) ==> cs.upper(key) == key)
  }

  ghost predicate IsParsedRule(cs: Charset, r: Rule) {
    || (exists t: Effect :: r == ToneRule(r.key, t))
    || (exists m: Effect, on, to :: m < 5 && r == MarkRule(r.key, m, on, to))
    || (exists letters :: LatinLetters(cs, r.key, letters) && r == LettersRule(r.key, letters))
  }

  ghost predicate IsParsed(cs: Charset, im: InputMethod) {
    && (forall k :: k in im.keys ==> cs.lower(k) == k && k != NUL)
    && forall r :: r in im.rules ==> r.key in im.keys && IsParsedRule(cs, r)
  }

  // Methods of tone, mark and letter rules; without the last, they have no Appending rules.
  lemma ParsedMethodsAreGood(cs: Charset, im: InputMethod)
    requires IsParsed(cs, im)
    ensures GoodMethod(cs, im)
    ensures (forall r :: r in im.rules ==> r.effectType != Appending) ==> NoAppending(im)
  {
    hide BaseLetter, CharsetData.Good;
    NoZeroVowel(cs);
    forall r | r in im.rules ensures GoodRule(cs, im.keys, r) {
      if t: Effect :| r == ToneRule(r.key, t) {
      } else if m: Effect, on, to :| m < 5 && r == MarkRule(r.key, m, on, to) {
      } else {
        var letters :| LatinLetters(cs, r.key, letters) && r == LettersRule(r.key, letters);
        forall a | a in r.appendedRules ensures GoodAppended(cs, a) {
          var i :| 0 <= i < |r.appendedRules| && r.appendedRules[i] == a;
        }
      }
    }
  }

  lemma NoZeroVowel(cs: Charset)
    ensures !IsVowel(cs, NUL)
  {
  }
}
