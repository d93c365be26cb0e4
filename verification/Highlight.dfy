/** Highlighting query terms in a text. Terms are looked for in the lower-case form of the text, and the text is cut at
    the offsets found there. How text is lower-cased is a parameter: other than for ASCII, its length may change. */
module Highlight {

  import opened Options
  import opened Postings
  import opened Sequences
  import Tokenizer

  predicate IsAscii(s: string) {
    forall i | 0 <= i < |s| :: s[i] < 128 as char
  }

  predicate OccursAt(s: string, term: string, i: int) {
    0 <= i && i + |term| <= |s| && s[i..i + |term|] == term
  }

  /** The first place from `at` on where a term occurs, or -1. */
  function IndexFrom(s: string, term: string, at: nat): (i: int)
    ensures i == -1 || (at <= i && OccursAt(s, term, i))
    decreases |s| - at
  {
    if at + |term| > |s| then -1 else if s[at..at + |term|] == term then at else IndexFrom(s, term, at + 1)
  }

  /** No occurrence comes before the first. */
  lemma {:induction false} IndexIsFirst(s: string, term: string, at: nat, k: int)
    requires at <= k && OccursAt(s, term, k)
    ensures at <= IndexFrom(s, term, at) <= k
    decreases |s| - at
  {
    if s[at..at + |term|] != term {
      IndexIsFirst(s, term, at + 1, k);
    }
  }

  /** What goes before and after a match. */
  datatype Tags = Tags(open: string, close: string)

  const Emphasis := Tags("<em>", "</em>")

  function Wrapped(tags: Tags, s: string): string {
    tags.open + s + tags.close
  }

  function Before(head: string, rest: Option<string>): Option<string> {
    if rest.Some? then Some(head + rest.value) else None
  }

  /** The rest of a text with the occurrences of a term in its lower-case form, leftmost first and without overlap,
      wrapped in tags; nothing when an occurrence ends behind the text, where cutting it panics. */
  function MarkedFrom(tags: Tags, text: string, lower: string, term: string, at: nat): Option<string>
    requires term != "" && at <= |text|
    decreases |text| - at
  {
    var i := IndexFrom(lower, term, at);
    if i < 0 then Some(text[at..])
    else if i + |term| > |text| then None
    else Before(text[at..i] + Wrapped(tags, text[i..i + |term|]), MarkedFrom(tags, text, lower, term, i + |term|))
  }

  function Marked(tags: Tags, text: string, lower: string, term: string): Option<string>
    requires term != ""
  {
    MarkedFrom(tags, text, lower, term, 0)
  }

  /** Terms to look for; the tokenizer yields no others. */
  predicate NonEmpty(tokens: seq<Token>) {
    forall i | 0 <= i < |tokens| :: tokens[i].term != ""
  }

  /** A text marked for each term in turn; later terms also see the tags of earlier ones. */
  function Highlighted(tags: Tags, lowering: string -> string, text: string, tokens: seq<Token>): Option<string>
    requires NonEmpty(tokens)
  {
    if tokens == [] then Some(text)
    else
      var before := Highlighted(tags, lowering, text, tokens[..|tokens| - 1]);
      if before.None? then None
      else Marked(tags, before.value, lowering(before.value), tokens[|tokens| - 1].term)
  }

  // ---- when every cut is inside the text ----

  /** Where the search through a lower-case form ends: behind the last occurrence it takes. */
  function SearchEnd(lower: string, term: string, at: nat): (end: nat)
    requires term != ""
    ensures end >= at
    decreases if at <= |lower| then |lower| - at else 0
  {
    var i := IndexFrom(lower, term, at);
    if i < 0 then at else SearchEnd(lower, term, i + |term|)
  }

  lemma {:induction false} MarkedFromExactlyWithin(tags: Tags, text: string, lower: string, term: string, at: nat)
    requires term != "" && at <= |text|
    ensures MarkedFrom(tags, text, lower, term, at).Some? <==> SearchEnd(lower, term, at) <= |text|
    decreases |text| - at
  {
    var i := IndexFrom(lower, term, at);
    if i >= 0 && i + |term| <= |text| {
      MarkedFromExactlyWithin(tags, text, lower, term, i + |term|);
    }
  }

  /** Marking a term panics exactly when the last occurrence taken in the lower-case form ends behind the text. */
  lemma MarkedExactlyWithin(tags: Tags, text: string, lower: string, term: string)
    requires term != ""
    ensures Marked(tags, text, lower, term).Some? <==> SearchEnd(lower, term, 0) <= |text|
  {
    MarkedFromExactlyWithin(tags, text, lower, term, 0);
  }

  lemma {:induction false} SearchEndsInside(lower: string, term: string, at: nat)
    requires term != "" && at <= |lower|
    ensures SearchEnd(lower, term, at) <= |lower|
    decreases |lower| - at
  {
    var i := IndexFrom(lower, term, at);
    if i >= 0 {
      SearchEndsInside(lower, term, i + |term|);
    }
  }

  /** A text can be marked for every term exactly when lower-casing did not make it longer. */
  lemma SafeForAllTermsExactlyWhenNotLonger(tags: Tags, text: string, lower: string)
    ensures (forall term | term != "" :: Marked(tags, text, lower, term).Some?) <==> |lower| <= |text|
  {
    if |lower| <= |text| {
      forall term | term != "" ensures Marked(tags, text, lower, term).Some? {
        SearchEndsInside(lower, term, 0);
        MarkedExactlyWithin(tags, text, lower, term);
      }
    } else {
      WholeTextAsTerm(lower);
      MarkedExactlyWithin(tags, text, lower, lower);
    }
  }

  lemma WholeTextAsTerm(lower: string)
    requires lower != ""
    ensures SearchEnd(lower, lower, 0) == |lower|
  {
    assert lower[0..|lower|] == lower;
    assert IndexFrom(lower, lower, |lower|) == -1;
  }

  /** The bytes of U+023A, and of U+2C65, its lower case, which are one more. */
  const CapitalAWithStroke := "\U{c8}\U{ba}"
  const SmallAWithStroke := "\U{e2}\U{b1}\U{a5}"

  /** Looking for that letter in itself panics. */
  lemma LongerLowerCasePanics(tags: Tags)
    ensures Marked(tags, CapitalAWithStroke, SmallAWithStroke, SmallAWithStroke) == None
  {
    WholeTextAsTerm(SmallAWithStroke);
    MarkedExactlyWithin(tags, CapitalAWithStroke, SmallAWithStroke, SmallAWithStroke);
  }

  // ---- subsequences ----

  ghost predicate Subsequence(a: string, b: string) {
    a == "" || (b != "" && ((a[0] == b[0] && Subsequence(a[1..], b[1..])) || Subsequence(a, b[1..])))
  }

  lemma {:induction false} SubsequenceSelf(a: string)
    ensures Subsequence(a, a)
  {
    if a != "" {
      SubsequenceSelf(a[1..]);
    }
  }

  lemma {:induction false} SubsequenceSkip(x: string, a: string, b: string)
    requires Subsequence(a, b)
    ensures Subsequence(a, x + b)
  {
    if x == "" {
      assert x + b == b;
    } else {
      SubsequenceSkip(x[1..], a, b);
      assert (x + b)[1..] == x[1..] + b;
    }
  }

  lemma {:induction false} SubsequenceTake(x: string, a: string, b: string)
    requires Subsequence(a, b)
    ensures Subsequence(x + a, x + b)
  {
    if x == "" {
      assert x + a == a && x + b == b;
    } else {
      SubsequenceTake(x[1..], a, b);
      assert (x + a)[1..] == x[1..] + a && (x + b)[1..] == x[1..] + b;
    }
  }

  lemma {:induction false} SubsequenceTransitive(a: string, b: string, c: string)
    requires Subsequence(a, b) && Subsequence(b, c)
    ensures Subsequence(a, c)
    decreases |c|
  {
    if a != "" {
      if b[0] == c[0] && Subsequence(b[1..], c[1..]) {
        if a[0] == b[0] && Subsequence(a[1..], b[1..]) {
          SubsequenceTransitive(a[1..], b[1..], c[1..]);
        } else {
          SubsequenceTransitive(a, b[1..], c[1..]);
        }
      } else {
        SubsequenceTransitive(a, b, c[1..]);
      }
    }
  }

  // ---- what marking keeps ----

  lemma WrapInserts(tags: Tags, s: string, tail: string, later: string)
    requires Subsequence(tail, later)
    ensures Subsequence(s + tail, Wrapped(tags, s) + later)
  {
    SubsequenceSkip(tags.close, tail, later);
    SubsequenceTake(s, tail, tags.close + later);
    SubsequenceSkip(tags.open, s + tail, s + (tags.close + later));
    assert tags.open + (s + (tags.close + later)) == Wrapped(tags, s) + later;
  }

  lemma SplitInThree(text: string, at: nat, i: nat, j: nat)
    requires at <= i <= j <= |text|
    ensures text[at..] == text[at..i] + (text[i..j] + text[j..])
  {
  }

  lemma {:induction false} MarkedKeepsText(tags: Tags, text: string, lower: string, term: string, at: nat)
    requires term != "" && at <= |text| && MarkedFrom(tags, text, lower, term, at).Some?
    ensures Subsequence(text[at..], MarkedFrom(tags, text, lower, term, at).value)
    decreases |text| - at
  {
    var i := IndexFrom(lower, term, at);
    if i < 0 {
      SubsequenceSelf(text[at..]);
    } else {
      var j := i + |term|;
      MarkedKeepsText(tags, text, lower, term, j);
      MarkInserts(tags, text, at, i, j, MarkedFrom(tags, text, lower, term, j).value);
    }
  }

  lemma MarkInserts(tags: Tags, text: string, at: nat, i: nat, j: nat, later: string)
    requires at <= i <= j <= |text| && Subsequence(text[j..], later)
    ensures Subsequence(text[at..], text[at..i] + Wrapped(tags, text[i..j]) + later)
  {
    Regroup(text[at..i], Wrapped(tags, text[i..j]), later);
    WrapInserts(tags, text[i..j], text[j..], later);
    SubsequenceTake(text[at..i], text[i..j] + text[j..], Wrapped(tags, text[i..j]) + later);
    SplitInThree(text, at, i, j);
  }

  lemma {:induction false} MarkedGrows(tags: Tags, text: string, lower: string, term: string, at: nat)
    requires term != "" && at <= |text| && MarkedFrom(tags, text, lower, term, at).Some?
    ensures |MarkedFrom(tags, text, lower, term, at).value|
            >= |text| - at + if IndexFrom(lower, term, at) < 0 then 0 else |tags.open|
    decreases |text| - at
  {
    var i := IndexFrom(lower, term, at);
    if i >= 0 {
      MarkedGrows(tags, text, lower, term, i + |term|);
    }
  }

  /** Marking only inserts: the text is a subsequence of the result, and is the result exactly when the term does not
      occur in the lower-case form. */
  lemma MarkedInserts(tags: Tags, text: string, lower: string, term: string)
    requires term != "" && Marked(tags, text, lower, term).Some?
    ensures Subsequence(text, Marked(tags, text, lower, term).value)
    ensures tags.open != "" ==> (Marked(tags, text, lower, term).value == text <==> IndexFrom(lower, term, 0) < 0)
  {
    assert text[0..] == text;
    MarkedKeepsText(tags, text, lower, term, 0);
    MarkedGrows(tags, text, lower, term, 0);
  }

  lemma AsciiAppend(a: string, b: string)
    requires IsAscii(a) && IsAscii(b)
    ensures IsAscii(a + b)
  {
  }

  lemma AsciiSlice(s: string, i: nat, j: nat)
    requires IsAscii(s) && i <= j <= |s|
    ensures IsAscii(s[i..j])
  {
  }

  lemma AsciiWrapped(tags: Tags, head: string, s: string, later: string)
    requires IsAscii(tags.open) && IsAscii(tags.close) && IsAscii(head) && IsAscii(s) && IsAscii(later)
    ensures IsAscii(head + Wrapped(tags, s) + later)
  {
    AsciiAppend(tags.open, s);
    AsciiAppend(tags.open + s, tags.close);
    AsciiAppend(head, Wrapped(tags, s));
    AsciiAppend(head + Wrapped(tags, s), later);
  }

  lemma {:induction false} MarkedIsAscii(tags: Tags, text: string, lower: string, term: string, at: nat)
    requires term != "" && at <= |text| && MarkedFrom(tags, text, lower, term, at).Some?
    requires IsAscii(text) && IsAscii(tags.open) && IsAscii(tags.close)
    ensures IsAscii(MarkedFrom(tags, text, lower, term, at).value)
    decreases |text| - at
  {
    var i := IndexFrom(lower, term, at);
    if i >= 0 {
      var j := i + |term|;
      MarkedIsAscii(tags, text, lower, term, j);
      AsciiSlice(text, at, i);
      AsciiSlice(text, i, j);
      AsciiWrapped(tags, text[at..i], text[i..j], MarkedFrom(tags, text, lower, term, j).value);
    } else {
      AsciiSlice(text, at, |text|);
    }
  }

  /** Whatever the terms and the lower-casing, the original text is a subsequence of the highlighted one. */
  lemma {:induction false} HighlightedInserts(tags: Tags, lowering: string -> string, text: string, tokens: seq<Token>)
    requires NonEmpty(tokens) && Highlighted(tags, lowering, text, tokens).Some?
    ensures Subsequence(text, Highlighted(tags, lowering, text, tokens).value)
  {
    if tokens == [] {
      SubsequenceSelf(text);
    } else {
      var front, term := tokens[..|tokens| - 1], tokens[|tokens| - 1].term;
      HighlightedInserts(tags, lowering, text, front);
      var before := Highlighted(tags, lowering, text, front).value;
      MarkedInserts(tags, before, lowering(before), term);
      SubsequenceTransitive(text, before, Highlighted(tags, lowering, text, tokens).value);
    }
  }

  /** Lower-casing an ASCII text does not make it longer. */
  ghost predicate KeepsAscii(lowering: string -> string) {
    forall s | IsAscii(s) :: |lowering(s)| <= |s|
  }

  /** An ASCII text is highlighted without a panic, whatever the terms. */
  lemma {:induction false} AsciiIsSafe(tags: Tags, lowering: string -> string, text: string, tokens: seq<Token>)
    requires NonEmpty(tokens) && KeepsAscii(lowering)
    requires IsAscii(text) && IsAscii(tags.open) && IsAscii(tags.close)
    ensures Highlighted(tags, lowering, text, tokens).Some? && IsAscii(Highlighted(tags, lowering, text, tokens).value)
  {
    if tokens != [] {
      var front, term := tokens[..|tokens| - 1], tokens[|tokens| - 1].term;
      AsciiIsSafe(tags, lowering, text, front);
      var before := Highlighted(tags, lowering, text, front).value;
      SafeForAllTermsExactlyWhenNotLonger(tags, before, lowering(before));
      assert Marked(tags, before, lowering(before), term).Some?;
      MarkedIsAscii(tags, before, lowering(before), term, 0);
    }
  }

  /** An empty term is found at once wherever the search stands, so the search would stand still. */
  lemma EmptyTermStandsStill(s: string, at: nat)
    requires at <= |s|
    ensures IndexFrom(s, "", at) == at
  {
    assert s[at..at] == "";
  }

  /** What is written so far, continued from `at`, is the whole answer. */
  ghost predicate WrittenSoFar(whole: Option<string>, tags: Tags, text: string, lower: string, term: string, at: nat,
                               r: string)
  {
    term != "" && at <= |text| && Before(r, MarkedFrom(tags, text, lower, term, at)) == whole
  }

  lemma RegroupWrapped(tags: Tags, r: string, head: string, s: string, rest: Option<string>)
    ensures Before(r, Before(head + Wrapped(tags, s), rest)) == Before(r + head + tags.open + s + tags.close, rest)
  {
    if rest.Some? {
      assert r + (head + Wrapped(tags, s) + rest.value) == r + head + tags.open + s + tags.close + rest.value;
    }
  }

  lemma WriteProgress(whole: Option<string>, tags: Tags, text: string, lower: string, term: string, at: nat, r: string,
                      i: int)
    requires WrittenSoFar(whole, tags, text, lower, term, at, r) && i == IndexFrom(lower, term, at)
    ensures i < 0 ==> whole == Some(r + text[at..])
    ensures i >= 0 && i + |term| > |text| ==> whole == None
    ensures i >= 0 && i + |term| <= |text| ==>
              WrittenSoFar(whole, tags, text, lower, term, i + |term|,
                           r + text[at..i] + tags.open + text[i..i + |term|] + tags.close)
  {
    if i >= 0 && i + |term| <= |text| {
      var j := i + |term|;
      RegroupWrapped(tags, r, text[at..i], text[i..j], MarkedFrom(tags, text, lower, term, j));
    }
  }

  lemma NothingWritten(tags: Tags, text: string, lower: string, term: string)
    requires term != ""
    ensures WrittenSoFar(Marked(tags, text, lower, term), tags, text, lower, term, 0, "")
  {
    var whole := Marked(tags, text, lower, term);
    if whole.Some? { assert "" + whole.value == whole.value; }
  }

  /** The search for one term: it moves past each match, so it ends, or it panics. */
  method MarkTerm(tags: Tags, text: string, lower: string, term: string) returns (r: Option<string>)
    requires term != ""
    ensures r == Marked(tags, text, lower, term)
  {
    NothingWritten(tags, text, lower, term);
    r := Write(tags, text, lower, term, Marked(tags, text, lower, term));
  }

  method Write(tags: Tags, text: string, lower: string, term: string, ghost whole: Option<string>)
    returns (r: Option<string>)
    requires WrittenSoFar(whole, tags, text, lower, term, 0, "")
    ensures r == whole
  {
    var lastIdx, builder := 0, "";
    while true
      invariant WrittenSoFar(whole, tags, text, lower, term, lastIdx, builder)
      decreases |text| - lastIdx
    {
      var absIdx := IndexFrom(lower, term, lastIdx);
      WriteProgress(whole, tags, text, lower, term, lastIdx, builder, absIdx);
      if absIdx == -1 {
        return Some(builder + text[lastIdx..]);
      }
      if absIdx + |term| > |text| {
        return None;
      }
      builder := builder + text[lastIdx..absIdx] + tags.open + text[absIdx..absIdx + |term|] + tags.close;
      lastIdx := absIdx + |term|;
    }
  }

  /** The loop over the terms. */
  method HighlightTerms(lowering: string -> string, text: string, tokens: seq<Token>) returns (result: Option<string>)
    requires NonEmpty(tokens)
    ensures result == Highlighted(Emphasis, lowering, text, tokens)
    ensures result.Some? ==> Subsequence(text, result.value)
    ensures KeepsAscii(lowering) && IsAscii(text) ==> result.Some?
  {
    result := HighlightEach(lowering, text, tokens);
    if result.Some? {
      HighlightedInserts(Emphasis, lowering, text, tokens);
    } else if KeepsAscii(lowering) && IsAscii(text) {
      AsciiIsSafe(Emphasis, lowering, text, tokens);
      assert false;
    }
  }

  method HighlightEach(lowering: string -> string, text: string, tokens: seq<Token>) returns (result: Option<string>)
    requires NonEmpty(tokens)
    ensures result == Highlighted(Emphasis, lowering, text, tokens)
  {
    result := Some(text);
    for i := 0 to |tokens|
      invariant result == Highlighted(Emphasis, lowering, text, tokens[..i])
    {
      assert tokens[..i + 1][..i] == tokens[..i];
      if result.Some? {
        result := MarkTerm(Emphasis, result.value, lowering(result.value), tokens[i].term);
      }
    }
    assert tokens[..|tokens|] == tokens;
  }

  /** Highlighting the terms of any query: the tokenizer never yields an empty term, so every search ends. */
  method HighlightQuery(isWord: char -> bool, fold: Tokenizer.Folding, lowering: string -> string, query: seq<char>,
                        text: string)
    returns (tokens: seq<Token>, result: Option<string>)
    ensures tokens == Tokenizer.TokensOf(Tokenizer.Words(isWord, fold, query))
    ensures NonEmpty(tokens) && result == Highlighted(Emphasis, lowering, text, tokens)
    ensures result.Some? ==> Subsequence(text, result.value)
    ensures KeepsAscii(lowering) && IsAscii(text) ==> result.Some?
  {
    tokens := Tokenizer.Tokenize(isWord, fold, query);
    result := HighlightTerms(lowering, text, tokens);
  }
}
