/** The simplified Porter stemmer. A word is a sequence of bytes, written as characters. */
module Stemmer {

  import opened Strings

  // ---- letters ----

  predicate IsVowel(c: char) {
    c in "aeiou"
  }

  predicate HasVowel(word: string) {
    exists i | 0 <= i < |word| :: IsVowel(word[i])
  }

  predicate DoubleConsonant(word: string) {
    |word| >= 2 && word[|word| - 1] == word[|word| - 2] && !IsVowel(word[|word| - 1])
  }

  /** Consonant, vowel, consonant at the end, the last not w, x or y. */
  predicate Cvc(word: string) {
    var last := |word| - 1;
    && |word| >= 3
    && !IsVowel(word[last - 2]) && IsVowel(word[last - 1]) && !IsVowel(word[last])
    && word[last] !in "wxy"
  }

  /** The number of places where a vowel is followed by a consonant. */
  function Boundaries(word: string): nat {
    if |word| < 2 then 0
    else Boundaries(word[..|word| - 1]) + if IsVowel(word[|word| - 2]) && !IsVowel(word[|word| - 1]) then 1 else 0
  }

  /** The first `i` letters of a word have `m` boundaries. */
  ghost predicate Counted(word: string, i: nat, m: nat) {
    i <= |word| && m == Boundaries(word[..i])
  }

  ghost predicate EndsIn(word: string, i: nat, vowel: bool) {
    0 < i <= |word| ==> IsVowel(word[i - 1]) == vowel
  }

  lemma CountedPush(word: string, i: nat, m: nat, after: bool)
    requires i < |word| && Counted(word, i, m) && EndsIn(word, i, after)
    ensures Counted(word, i + 1, if i > 0 && after && !IsVowel(word[i]) then m + 1 else m)
    ensures EndsIn(word, i + 1, IsVowel(word[i]))
  {
    assert word[..i + 1][..i] == word[..i];
  }

  /** Runs of vowels and of consonants are counted in turn. */
  method Measure(word: string) returns (m: nat)
    ensures m == Boundaries(word)
  {
    m := 0;
    var i := 0;
    while i < |word| && !IsVowel(word[i])
      invariant Counted(word, i, 0) && EndsIn(word, i, false)
    {
      CountedPush(word, i, 0, false);
      i := i + 1;
    }
    while i < |word|
      invariant Counted(word, i, m) && EndsIn(word, i, false)
      invariant i < |word| ==> IsVowel(word[i])
    {
      var start := i;
      while i < |word| && IsVowel(word[i])
        invariant start <= i && Counted(word, i, m) && EndsIn(word, i, i > start)
      {
        CountedPush(word, i, m, i > start);
        i := i + 1;
      }
      if i >= |word| {
        break;
      }
      start := i;
      while i < |word| && !IsVowel(word[i])
        invariant start <= i && Counted(word, i, if i == start then m else m + 1) && EndsIn(word, i, i == start)
      {
        CountedPush(word, i, if i == start then m else m + 1, i == start);
        i := i + 1;
      }
      m := m + 1;
    }
    assert word[..|word|] == word;
  }

  method ContainsVowel(word: string) returns (r: bool)
    ensures r <==> HasVowel(word)
  {
    for i := 0 to |word|
      invariant forall k | 0 <= k < i :: !IsVowel(word[k])
    {
      if IsVowel(word[i]) {
        return true;
      }
    }
    return false;
  }

  // ---- the steps ----

  function Cut(word: string, n: nat): (r: string)
    requires n <= |word|
    ensures |r| == |word| - n
  {
    word[..|word| - n]
  }

  /** Plural forms. */
  function Step1a(w: string): (r: string)
    ensures |r| <= |w| && (|w| >= 2 ==> r != "")
  {
    if HasSuffix(w, "sses") || HasSuffix(w, "ies") then Cut(w, 2)
    else if HasSuffix(w, "ss") then w
    else if HasSuffix(w, "s") then Cut(w, 1)
    else w
  }

  /** What is done once "ed" or "ing" is off. */
  function Tidied(w: string): (r: string)
    ensures |r| <= |w| + 1 && (w != "" ==> r != "")
  {
    if HasSuffix(w, "at") || HasSuffix(w, "bl") || HasSuffix(w, "iz") then w + "e"
    else if DoubleConsonant(w) && !HasSuffix(w, "l") && !HasSuffix(w, "s") && !HasSuffix(w, "z") then Cut(w, 1)
    else if Boundaries(w) == 1 && Cvc(w) then w + "e"
    else w
  }

  /** Past participles and progressive forms. */
  function Step1b(w: string): (r: string)
    ensures |r| <= |w| && (w != "" ==> r != "")
  {
    if HasSuffix(w, "eed") then (if Boundaries(Cut(w, 3)) > 0 then Cut(w, 1) else w)
    else if HasSuffix(w, "ed") then (if HasVowel(Cut(w, 2)) then Tidied(Cut(w, 2)) else w)
    else if HasSuffix(w, "ing") then (if HasVowel(Cut(w, 3)) then Tidied(Cut(w, 3)) else w)
    else w
  }

  lemma VowelStays(word: string, n: nat)
    requires HasVowel(word) && n < |word| && !IsVowel(word[n]) && n == |word| - 1
    ensures HasVowel(word[..n])
  {
    var i :| 0 <= i < |word| && IsVowel(word[i]);
    assert word[..n][i] == word[i];
  }

  lemma VowelRemains(a: string, b: string)
    requires HasVowel(a) && a <= b
    ensures HasVowel(b)
  {
    var i :| 0 <= i < |a| && IsVowel(a[i]);
    assert b[i] == a[i];
  }

  /** A beginning of a word, or a beginning followed by "e". */
  predicate IsBeginning(r: string, word: string) {
    r <= word || (r != "" && r[|r| - 1] == 'e' && r[..|r| - 1] <= word)
  }

  lemma TidiedKeeps(stem: string, word: string)
    requires HasVowel(stem) && stem <= word
    ensures HasVowel(Tidied(stem)) && IsBeginning(Tidied(stem), word)
  {
    var r := Tidied(stem);
    if |r| > |stem| {
      assert r[..|r| - 1] == stem;
      VowelRemains(stem, r);
    } else if |r| < |stem| {
      VowelStays(stem, |stem| - 1);
    }
  }

  /** What comes off is an ending: the result is a beginning of the word, or one followed by "e", and whenever anything
      came off it still has a vowel. */
  lemma ParticipleKeepsStem(word: string)
    ensures IsBeginning(Step1b(word), word)
    ensures Step1b(word) != word ==> HasVowel(Step1b(word))
  {
    if HasSuffix(word, "eed") {
      assert word[|word| - 3..][0] == 'e';
      assert Cut(word, 1)[|word| - 3] == 'e';
    } else if HasSuffix(word, "ed") && HasVowel(Cut(word, 2)) {
      TidiedKeeps(Cut(word, 2), word);
    } else if HasSuffix(word, "ing") && HasVowel(Cut(word, 3)) {
      TidiedKeeps(Cut(word, 3), word);
    }
  }

  function Step1c(w: string): (r: string)
    ensures |r| == |w|
  {
    if HasSuffix(w, "y") && HasVowel(Cut(w, 1)) then Cut(w, 1) + "i" else w
  }

  datatype Rule = Rule(suffix: string, replacement: string)

  const Step2Rules := [
    Rule("ational", "ate"), Rule("tional", "tion"), Rule("enci", "ence"), Rule("anci", "ance"), Rule("izer", "ize"),
    Rule("abli", "able"), Rule("alli", "al"), Rule("entli", "ent"), Rule("eli", "e"), Rule("ousli", "ous"),
    Rule("ization", "ize"), Rule("ation", "ate"), Rule("ator", "ate"), Rule("alism", "al"), Rule("iveness", "ive"),
    Rule("fulness", "ful"), Rule("ousness", "ous"), Rule("aliti", "al"), Rule("iviti", "ive"), Rule("biliti", "ble")]

  const Step3Rules := [
    Rule("icate", "ic"), Rule("ative", ""), Rule("alize", "al"), Rule("iciti", "ic"), Rule("ical", "ic"),
    Rule("ful", ""), Rule("ness", "")]

  const Step4Suffixes := [
    "al", "ance", "ence", "er", "ic", "able", "ible", "ant", "ement", "ment", "ent", "ion", "ou", "ism", "ate", "iti",
    "ous", "ive", "ize"]

  /** No rule lengthens a word. */
  ghost predicate Shrinking(rules: seq<Rule>) {
    forall i | 0 <= i < |rules| :: |rules[i].replacement| <= |rules[i].suffix|
  }

  /** The first rule whose suffix fits decides: it applies when what is left has a boundary. */
  function Replaced(rules: seq<Rule>, w: string): string {
    if rules == [] then w
    else if HasSuffix(w, rules[0].suffix) then
      var stem := Cut(w, |rules[0].suffix|);
      if Boundaries(stem) > 0 then stem + rules[0].replacement else w
    else Replaced(rules[1..], w)
  }

  lemma {:induction false} ReplacedShrinks(rules: seq<Rule>, w: string)
    requires Shrinking(rules)
    ensures |Replaced(rules, w)| <= |w| && (w != "" ==> Replaced(rules, w) != "")
  {
    if rules != [] && !HasSuffix(w, rules[0].suffix) {
      ReplacedShrinks(rules[1..], w);
    }
  }

  /** When step 4 takes a suffix off. */
  predicate Drops(stem: string, suffix: string) {
    Boundaries(stem) > 1 && (suffix == "ion" ==> stem != "" && stem[|stem| - 1] in "st")
  }

  /** The first suffix that fits decides. */
  function Dropped(suffixes: seq<string>, w: string): (r: string)
    ensures |r| <= |w| && (w != "" ==> r != "")
  {
    if suffixes == [] then w
    else if HasSuffix(w, suffixes[0]) then
      var stem := Cut(w, |suffixes[0]|);
      if Drops(stem, suffixes[0]) then stem else w
    else Dropped(suffixes[1..], w)
  }

  function Step5a(w: string): (r: string)
    ensures |r| <= |w| && (w != "" ==> r != "")
  {
    if HasSuffix(w, "e") then
      var stem := Cut(w, 1);
      if Boundaries(stem) > 1 || (Boundaries(stem) == 1 && !Cvc(stem)) then stem else w
    else w
  }

  function Step5b(w: string): (r: string)
    ensures |r| <= |w| && (w != "" ==> r != "")
  {
    if DoubleConsonant(w) && HasSuffix(w, "ll") && Boundaries(w) > 1 then Cut(w, 1) else w
  }

  function Stem(word: string): string {
    if |word| <= 2 then word
    else
      var w := Step1c(Step1b(Step1a(word)));
      Step5b(Step5a(Dropped(Step4Suffixes, Replaced(Step3Rules, Replaced(Step2Rules, w)))))
  }

  lemma RulesShrink()
    ensures Shrinking(Step2Rules) && Shrinking(Step3Rules)
  {
  }

  /** A stem is no longer than its word, and empty only if the word is. */
  lemma StemIsShort(word: string)
    ensures |Stem(word)| <= |word| && (word != "" ==> Stem(word) != "")
  {
    if |word| > 2 {
      var w := Step1c(Step1b(Step1a(word)));
      RulesShrink();
      ReplacedShrinks(Step2Rules, w);
      ReplacedShrinks(Step3Rules, Replaced(Step2Rules, w));
    }
  }

  // ---- the stemmer ----

  method ReplaceSuffix(rules: seq<Rule>, word: string) returns (w: string)
    ensures w == Replaced(rules, word)
  {
    w := word;
    for i := 0 to |rules|
      invariant w == word && Replaced(rules, word) == Replaced(rules[i..], word)
    {
      if HasSuffix(w, rules[i].suffix) {
        var stem := Cut(w, |rules[i].suffix|);
        var m := Measure(stem);
        if m > 0 {
          w := stem + rules[i].replacement;
        }
        return;
      }
    }
  }

  method DropSuffix(suffixes: seq<string>, word: string) returns (w: string)
    ensures w == Dropped(suffixes, word)
  {
    w := word;
    for i := 0 to |suffixes|
      invariant w == word && Dropped(suffixes, word) == Dropped(suffixes[i..], word)
    {
      var s := suffixes[i];
      if HasSuffix(w, s) {
        var stem := Cut(w, |s|);
        var m := Measure(stem);
        if s == "ion" {
          if |stem| > 0 && (stem[|stem| - 1] == 's' || stem[|stem| - 1] == 't') {
            if m > 1 {
              w := stem;
            }
          }
        } else if m > 1 {
          w := stem;
        }
        return;
      }
    }
  }

  /** Takes a participle ending off, leaving a beginning of the word that has a vowel, or the word itself. */
  method StripParticiple(word: string) returns (w: string)
    ensures w == Step1b(word)
    ensures IsBeginning(w, word) && |w| <= |word| && (w != word ==> HasVowel(w))
  {
    ParticipleKeepsStem(word);
    w := word;
    var extra := false;
    if HasSuffix(w, "eed") {
      var m := Measure(Cut(w, 3));
      if m > 0 {
        w := Cut(w, 1);
      }
    } else if HasSuffix(w, "ed") {
      extra := ContainsVowel(Cut(w, 2));
      if extra {
        w := Cut(w, 2);
      }
    } else if HasSuffix(w, "ing") {
      extra := ContainsVowel(Cut(w, 3));
      if extra {
        w := Cut(w, 3);
      }
    }
    if extra {
      w := Tidy(w);
    }
  }

  method Tidy(word: string) returns (w: string)
    ensures w == Tidied(word)
  {
    w := word;
    if HasSuffix(w, "at") || HasSuffix(w, "bl") || HasSuffix(w, "iz") {
      w := w + "e";
    } else if DoubleConsonant(w) && !HasSuffix(w, "l") && !HasSuffix(w, "s") && !HasSuffix(w, "z") {
      w := Cut(w, 1);
    } else {
      var m := Measure(w);
      if m == 1 && Cvc(w) {
        w := w + "e";
      }
    }
  }

  method StripFinal(word: string) returns (w: string)
    ensures w == Step5b(Step5a(word))
  {
    w := word;
    if HasSuffix(w, "e") {
      var stem := Cut(w, 1);
      var m := Measure(stem);
      if m > 1 {
        w := stem;
      } else if m == 1 && !Cvc(stem) {
        w := stem;
      }
    }
    var m := Measure(w);
    if DoubleConsonant(w) && HasSuffix(w, "ll") && m > 1 {
      w := Cut(w, 1);
    }
  }

  /** The stemmer: never out of range, and a stem neither longer than its word nor empty. */
  method PorterStem(word: string) returns (w: string)
    ensures w == Stem(word)
    ensures |w| <= |word| && (word != "" ==> w != "")
  {
    StemIsShort(word);
    if |word| <= 2 {
      return word;
    }
    w := Step1a(word);
    w := StripParticiple(w);
    if HasSuffix(w, "y") {
      var voiced := ContainsVowel(Cut(w, 1));
      if voiced {
        w := Cut(w, 1) + "i";
      }
    }
    w := ReplaceSuffix(Step2Rules, w);
    w := ReplaceSuffix(Step3Rules, w);
    w := DropSuffix(Step4Suffixes, w);
    w := StripFinal(w);
  }
}
