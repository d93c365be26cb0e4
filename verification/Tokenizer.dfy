/** Turning text into terms. What counts as a letter or digit, and the bytes of a lower-cased rune, are parameters. */
module Tokenizer {

  import opened Postings
  import opened Sequences
  import Stemmer

  /** The bytes a rune is written as, in lower case; there is at least one. */
  type Folding = f: char -> string | forall c :: f(c) != "" ghost witness c => "a"

  const StopWords: set<string> := {
    "a", "an", "and", "are", "as", "at", "be", "by", "for", "from", "has", "he", "in", "is", "it", "its", "of", "on",
    "that", "the", "to", "was", "were", "will", "with"}

  predicate IsTerm(word: string) {
    word !in StopWords && |word| > 1
  }

  function Folded(fold: Folding, s: seq<char>): (r: string)
    ensures s != [] ==> r != ""
  {
    if s == [] then "" else Folded(fold, s[..|s| - 1]) + fold(s[|s| - 1])
  }

  /** The length of the run of letters and digits at the start of a text. */
  function Run(isWord: char -> bool, text: seq<char>): (n: nat)
    ensures n <= |text|
  {
    if text == [] || !isWord(text[0]) then 0 else 1 + Run(isWord, text[1..])
  }

  /** The words of a text: its maximal runs of letters and digits, in lower case. */
  function Words(isWord: char -> bool, fold: Folding, text: seq<char>): seq<string>
    decreases |text|
  {
    if text == [] then []
    else if !isWord(text[0]) then Words(isWord, fold, text[1..])
    else
      var n := Run(isWord, text);
      [Folded(fold, text[..n])] + Words(isWord, fold, text[n..])
  }

  /** The tokens of some words: the stems of those that are terms, numbered from zero. */
  function TokensOf(words: seq<string>): seq<Token> {
    if words == [] then []
    else
      var before, word := TokensOf(words[..|words| - 1]), words[|words| - 1];
      if IsTerm(word) then before + [Token(Stemmer.Stem(word), |before|)] else before
  }

  lemma {:induction false} RunIs(isWord: char -> bool, text: seq<char>, n: nat)
    requires n <= |text| && (forall k | 0 <= k < n :: isWord(text[k])) && (n < |text| ==> !isWord(text[n]))
    ensures Run(isWord, text) == n
  {
    if n > 0 {
      RunIs(isWord, text[1..], n - 1);
    }
  }

  lemma WordsOfRun(isWord: char -> bool, fold: Folding, text: seq<char>, n: nat)
    requires 0 < n <= |text| && (forall k | 0 <= k < n :: isWord(text[k])) && (n < |text| ==> !isWord(text[n]))
    ensures Words(isWord, fold, text) == [Folded(fold, text[..n])] + Words(isWord, fold, text[n..])
  {
    RunIs(isWord, text, n);
  }

  lemma TokensPush(words: seq<string>, word: string)
    ensures TokensOf(words + [word])
         == TokensOf(words) + if IsTerm(word) then [Token(Stemmer.Stem(word), |TokensOf(words)|)] else []
  {
    assert (words + [word])[..|words|] == words;
  }

  /** Every term is a stem, which is not empty, and tokens are numbered in order. */
  lemma {:induction false} TokensAreTerms(words: seq<string>)
    ensures forall i | 0 <= i < |TokensOf(words)| :: TokensOf(words)[i].term != "" && TokensOf(words)[i].position == i
  {
    if words != [] {
      TokensAreTerms(words[..|words| - 1]);
      Stemmer.StemIsShort(words[|words| - 1]);
    }
  }

  method AddWord(tokens: seq<Token>, word: string, ghost words: seq<string>) returns (r: seq<Token>)
    requires tokens == TokensOf(words)
    ensures r == TokensOf(words + [word])
  {
    TokensPush(words, word);
    if word !in StopWords && |word| > 1 {
      var stemmed := Stemmer.PorterStem(word);
      return tokens + [Token(stemmed, |tokens|)];
    }
    return tokens;
  }

  /** Where a pass over the text stands: some words are done, and `buf` is the open one, since `start`. */
  ghost predicate At(isWord: char -> bool, fold: Folding, text: seq<char>, start: nat, i: nat, words: seq<string>,
                     buf: string)
  {
    && start <= i <= |text|
    && buf == Folded(fold, text[start..i])
    && (forall k | start <= k < i :: isWord(text[k]))
    && words + Words(isWord, fold, text[start..]) == Words(isWord, fold, text)
  }

  lemma WordGrows(isWord: char -> bool, fold: Folding, text: seq<char>, start: nat, i: nat, words: seq<string>,
                  buf: string)
    requires At(isWord, fold, text, start, i, words, buf) && i < |text| && isWord(text[i])
    ensures At(isWord, fold, text, start, i + 1, words, buf + fold(text[i]))
  {
    assert text[start..i + 1][..i - start] == text[start..i];
  }

  lemma WordEnds(isWord: char -> bool, fold: Folding, text: seq<char>, start: nat, i: nat, words: seq<string>,
                 buf: string)
    requires At(isWord, fold, text, start, i, words, buf) && buf != "" && (i < |text| ==> !isWord(text[i]))
    ensures At(isWord, fold, text, i, i, words + [buf], "")
  {
    RunEnds(isWord, fold, text, start, i);
    Regroup(words, [buf], Words(isWord, fold, text[i..]));
    assert text[i..i] == [];
  }

  lemma RunEnds(isWord: char -> bool, fold: Folding, text: seq<char>, start: nat, i: nat)
    requires start < i <= |text| && (forall k | start <= k < i :: isWord(text[k])) && (i < |text| ==> !isWord(text[i]))
    ensures Words(isWord, fold, text[start..]) == [Folded(fold, text[start..i])] + Words(isWord, fold, text[i..])
  {
    var rest, n := text[start..], i - start;
    assert rest[..n] == text[start..i] && rest[n..] == text[i..];
    WordsOfRun(isWord, fold, rest, n);
  }

  lemma GapGrows(isWord: char -> bool, fold: Folding, text: seq<char>, start: nat, i: nat, words: seq<string>)
    requires At(isWord, fold, text, start, i, words, "") && i < |text| && !isWord(text[i])
    ensures At(isWord, fold, text, i + 1, i + 1, words, "")
  {
    assert start == i;
    assert text[i..][1..] == text[i + 1..];
  }

  lemma PassEnds(isWord: char -> bool, fold: Folding, text: seq<char>, start: nat, words: seq<string>)
    requires At(isWord, fold, text, start, |text|, words, "")
    ensures words == Words(isWord, fold, text)
  {
    assert text[start..] == [];
  }

  lemma PassStarts(isWord: char -> bool, fold: Folding, text: seq<char>)
    ensures At(isWord, fold, text, 0, 0, [], "")
  {
    assert text[0..] == text;
  }

  /** One pass over the text, collecting a word at a time. */
  method Tokenize(isWord: char -> bool, fold: Folding, text: seq<char>) returns (tokens: seq<Token>)
    ensures tokens == TokensOf(Words(isWord, fold, text))
    ensures forall i | 0 <= i < |tokens| :: tokens[i].term != "" && tokens[i].position == i
  {
    tokens := [];
    var buf := "";
    ghost var start, words := 0, [];
    PassStarts(isWord, fold, text);
    for i := 0 to |text|
      invariant At(isWord, fold, text, start, i, words, buf)
      invariant tokens == TokensOf(words)
    {
      if isWord(text[i]) {
        WordGrows(isWord, fold, text, start, i, words, buf);
        buf := buf + fold(text[i]);
      } else {
        if |buf| > 0 {
          WordEnds(isWord, fold, text, start, i, words, buf);
          tokens := AddWord(tokens, buf, words);
          start, words, buf := i, words + [buf], "";
        }
        GapGrows(isWord, fold, text, start, i, words);
        start := i + 1;
      }
    }
    if |buf| > 0 {
      WordEnds(isWord, fold, text, start, |text|, words, buf);
      tokens := AddWord(tokens, buf, words);
      start, words := |text|, words + [buf];
    }
    PassEnds(isWord, fold, text, start, words);
    TokensAreTerms(words);
  }
}
