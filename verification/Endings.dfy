/** What the stemmer makes of each ending, stated on words that are put together from a beginning and an ending. */
module Endings {

  import opened Stemmer
  import opened Strings

  // ---- endings and letters ----

  lemma SuffixLetters(w: string, t: string)
    ensures HasSuffix(w, t) <==> |t| <= |w| && forall i | 0 <= i < |t| :: w[|w| - |t| + i] == t[i]
  {
    if |t| <= |w| && forall i | 0 <= i < |t| :: w[|w| - |t| + i] == t[i] {
      assert w[|w| - |t|..] == t;
    }
    if HasSuffix(w, t) {
      forall i | 0 <= i < |t| ensures w[|w| - |t| + i] == t[i] {
        assert w[|w| - |t|..][i] == t[i];
      }
    }
  }

  /** One letter that differs is enough. */
  lemma OtherEnding(w: string, t: string, i: nat)
    requires i < |t| && (|t| <= |w| ==> w[|w| - |t| + i] != t[i])
    ensures !HasSuffix(w, t)
  {
    SuffixLetters(w, t);
  }

  lemma Ending(b: string, t: string)
    ensures HasSuffix(b + t, t) && Cut(b + t, |t|) == b
  {
    SuffixLetters(b + t, t);
    assert (b + t)[..|b|] == b;
  }

  /** A doubled letter is a double consonant unless it is a vowel, and two different letters never are. */
  lemma Doubled(b: string, c: char, d: char)
    ensures DoubleConsonant(b + [c, d]) <==> c == d && c !in "aeiou"
  {
  }

  /** Three letters at the end: a vowel between consonants, the last of them not w, x or y. */
  lemma ShortSyllable(b: string, x: char, y: char, z: char)
    ensures Cvc(b + [x, y, z]) <==> x !in "aeiou" && y in "aeiou" && z !in "aeiou" && z !in "wxy"
  {
  }

  // ---- plurals ----

  /** "-sses" becomes "-ss" and "-ies" becomes "-i". */
  lemma LongPlurals(b: string)
    ensures Step1a(b + "sses") == b + "ss" && Step1a(b + "ies") == b + "i"
  {
    Ending(b, "sses");
    Ending(b, "ies");
    assert (b + "sses")[..|b| + 2] == b + "ss";
    assert (b + "ies")[..|b| + 1] == b + "i";
  }

  /** "-ss" stays. */
  lemma DoubleS(b: string)
    ensures Step1a(b + "ss") == b + "ss"
  {
    var w := b + "ss";
    Ending(b, "ss");
    OtherEnding(w, "sses", 2);
    OtherEnding(w, "ies", 1);
  }

  /** A word without an "s" at the end stays. */
  lemma NoPlural(b: string)
    requires !HasSuffix(b, "s")
    ensures Step1a(b) == b
  {
    SuffixLetters(b, "s");
    OtherEnding(b, "sses", 3);
    OtherEnding(b, "ies", 2);
    OtherEnding(b, "ss", 1);
  }

  lemma OneLetterMore(b: string, t: string, c: char)
    ensures HasSuffix(b + [c], t + [c]) <==> HasSuffix(b, t)
  {
    if |t| <= |b| {
      var end := b[|b| - |t|..];
      assert (b + [c])[|b| - |t|..] == end + [c];
      assert (end + [c])[..|t|] == end && (t + [c])[..|t|] == t;
    }
  }

  /** Any other "-s" comes off. */
  lemma PlainPlural(b: string)
    requires !HasSuffix(b, "s") && !HasSuffix(b, "ie") && !HasSuffix(b, "sse")
    ensures Step1a(b + "s") == b
  {
    Ending(b, "s");
    OneLetterMore(b, "s", 's');
    OneLetterMore(b, "ie", 's');
    OneLetterMore(b, "sse", 's');
    assert "s" + "s" == "ss" && "ie" + "s" == "ies" && "sse" + "s" == "sses";
  }

  // ---- participles ----

  /** "-eed" becomes "-ee" behind a boundary. */
  lemma Eed(b: string)
    ensures Step1b(b + "eed") == if Boundaries(b) > 0 then b + "ee" else b + "eed"
  {
    Ending(b, "eed");
    assert (b + "eed")[..|b| + 2] == b + "ee";
  }

  /** Any other "-ed", and "-ing", come off behind a vowel, and the rest is tidied. */
  lemma EdAndIng(b: string)
    ensures !HasSuffix(b, "e") ==> Step1b(b + "ed") == if HasVowel(b) then Tidied(b) else b + "ed"
    ensures Step1b(b + "ing") == if HasVowel(b) then Tidied(b) else b + "ing"
  {
    Ending(b, "ed");
    Ending(b, "ing");
    SuffixLetters(b, "e");
    SuffixLetters(b + "ed", "eed");
    OtherEnding(b + "ing", "eed", 2);
    OtherEnding(b + "ing", "ed", 1);
  }

  /** Tidying puts an "e" back behind "at", "bl" and "iz". */
  lemma TidiedWithE(b: string)
    ensures Tidied(b + "at") == b + "ate" && Tidied(b + "bl") == b + "ble" && Tidied(b + "iz") == b + "ize"
  {
    Ending(b, "at");
    Ending(b, "bl");
    Ending(b, "iz");
    assert b + "at" + "e" == b + "ate" && b + "bl" + "e" == b + "ble" && b + "iz" + "e" == b + "ize";
  }

  /** It drops one of two equal consonants, other than l, s and z. */
  lemma TidiedDouble(b: string, c: char)
    ensures c !in "aeioulsz" ==> Tidied(b + [c, c]) == b + [c]
    ensures c in "lsz" ==> Tidied(b + [c, c]) == b + [c, c]
  {
    var w := b + [c, c];
    SuffixLetters(w, "at");
    SuffixLetters(w, "bl");
    SuffixLetters(w, "iz");
    SuffixLetters(w, "l");
    SuffixLetters(w, "s");
    SuffixLetters(w, "z");
    assert w[..|b| + 1] == b + [c];
    assert !Cvc(w);
  }

  /** And it puts an "e" behind a short syllable, if that is the only boundary. */
  lemma TidiedShort(b: string, x: char, y: char, z: char)
    requires x !in "aeiou" && y in "aeiou" && z !in "aeiou" && z !in "wxy" && [y, z] != "at" && [y, z] != "iz"
    ensures Tidied(b + [x, y, z]) == if Boundaries(b + [x, y, z]) == 1 then b + [x, y, z] + "e" else b + [x, y, z]
  {
    var w := b + [x, y, z];
    ShortSyllable(b, x, y, z);
    SuffixLetters(w, "at");
    SuffixLetters(w, "bl");
    SuffixLetters(w, "iz");
    if y == 'a' { assert [y, z] == "at" <==> z == 't'; }
    if y == 'i' { assert [y, z] == "iz" <==> z == 'z'; }
  }

  /** A final "y" becomes "i" behind a vowel. */
  lemma FinalY(b: string)
    ensures Step1c(b + "y") == if HasVowel(b) then b + "i" else b + "y"
    ensures !HasSuffix(b, "y") ==> Step1c(b) == b
  {
    Ending(b, "y");
  }

  // ---- tables ----

  /** The first rule whose suffix fits decides: the suffix is replaced behind a boundary, and stays otherwise. */
  lemma {:induction false} FirstRule(rules: seq<Rule>, i: nat, b: string)
    requires i < |rules|
    requires forall k | 0 <= k < i :: !HasSuffix(b + rules[i].suffix, rules[k].suffix)
    ensures Replaced(rules, b + rules[i].suffix)
         == if Boundaries(b) > 0 then b + rules[i].replacement else b + rules[i].suffix
  {
    if i == 0 {
      Ending(b, rules[0].suffix);
    } else {
      FirstRule(rules[1..], i - 1, b);
    }
  }

  lemma {:induction false} NoRule(rules: seq<Rule>, w: string)
    requires forall k | 0 <= k < |rules| :: !HasSuffix(w, rules[k].suffix)
    ensures Replaced(rules, w) == w
  {
    if rules != [] { NoRule(rules[1..], w); }
  }

  /** The first suffix that fits decides: it comes off behind two boundaries, and "ion" only behind s or t. */
  lemma {:induction false} FirstSuffix(suffixes: seq<string>, i: nat, b: string)
    requires i < |suffixes|
    requires forall k | 0 <= k < i :: !HasSuffix(b + suffixes[i], suffixes[k])
    ensures Dropped(suffixes, b + suffixes[i])
         == if Boundaries(b) > 1 && (suffixes[i] == "ion" ==> HasSuffix(b, "s") || HasSuffix(b, "t")) then b
            else b + suffixes[i]
  {
    if i == 0 {
      Ending(b, suffixes[0]);
      SuffixLetters(b, "s");
      SuffixLetters(b, "t");
    } else {
      FirstSuffix(suffixes[1..], i - 1, b);
    }
  }

  lemma {:induction false} NoSuffix(suffixes: seq<string>, w: string)
    requires forall k | 0 <= k < |suffixes| :: !HasSuffix(w, suffixes[k])
    ensures Dropped(suffixes, w) == w
  {
    if suffixes != [] { NoSuffix(suffixes[1..], w); }
  }

  // ---- the end ----

  /** A final "e" comes off behind two boundaries, or behind one unless a short syllable comes before it. */
  lemma FinalE(b: string)
    ensures Step5a(b + "e") == if Boundaries(b) > 1 || (Boundaries(b) == 1 && !Cvc(b)) then b else b + "e"
    ensures !HasSuffix(b, "e") ==> Step5a(b) == b
  {
    Ending(b, "e");
  }

  /** A final "ll" loses one l behind two boundaries. */
  lemma FinalLl(b: string)
    ensures Step5b(b + "ll") == if Boundaries(b + "ll") > 1 then b + "l" else b + "ll"
    ensures !HasSuffix(b, "ll") ==> Step5b(b) == b
  {
    Ending(b, "ll");
    Doubled(b, 'l', 'l');
    assert b + ['l', 'l'] == b + "ll";
    assert (b + "ll")[..|b| + 1] == b + "l";
  }
}
