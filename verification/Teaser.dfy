/**
The teaser of a documentation search result: the words of a page are weighted, the best
window of words is found with a sliding sum, and the page text under that window is returned
with the search terms emphasised.

Lower-casing and stemming are given: `low` is the lower-cased body, of the same length, and
`isTerm` says whether the stem of a word starts with the stem of a search term.
*/
module Teaser {
  import opened Text
  import opened Wrappers

  // ---------- weighting ----------

  const TERM_WEIGHT := 40
  const FIRST_WEIGHT := 8
  const WORD_WEIGHT := 2

  datatype Weighted = Weighted(word: string, weight: nat, index: nat)

  function WeightOf(word: string, first: bool, isTerm: string -> bool): nat {
    if isTerm(word) then TERM_WEIGHT else if first then FIRST_WEIGHT else WORD_WEIGHT
  }

  /** Where part `n` starts when parts follow each other from `start` with `gap` characters between. */
  function Offset(parts: seq<string>, gap: nat, start: nat, n: nat): nat
    requires n <= |parts|
  {
    if n == 0 then start else Offset(parts, gap, start, n - 1) + |parts[n - 1]| + gap
  }

  /** The weighted words among the first `n` parts of a sentence that starts at `start`. */
  function SentenceWords(words: seq<string>, start: nat, n: nat, isTerm: string -> bool): seq<Weighted>
    requires n <= |words|
  {
    if n == 0 then []
    else
      var before, word := SentenceWords(words, start, n - 1, isTerm), words[n - 1];
      if word == "" then before
      else before + [Weighted(word, WeightOf(word, before == [], isTerm), Offset(words, 1, start, n - 1))]
  }

  function WordsIn(sentence: string, start: nat, isTerm: string -> bool): seq<Weighted> {
    var words := SplitBy(sentence, " ");
    SentenceWords(words, start, |words|, isTerm)
  }

  /** The weighted words of the first `n` sentences. */
  function AllWords(sentences: seq<string>, n: nat, isTerm: string -> bool): seq<Weighted>
    requires n <= |sentences|
  {
    if n == 0 then []
    else AllWords(sentences, n - 1, isTerm) + WordsIn(sentences[n - 1], Offset(sentences, 2, 0, n - 1), isTerm)
  }

  function WordsOf(low: string, isTerm: string -> bool): seq<Weighted> {
    var sentences := SplitBy(low, ". ");
    AllWords(sentences, |sentences|, isTerm)
  }

  // ---------- every word sits where it is recorded ----------

  predicate PlacedAt(low: string, w: Weighted, lo: int, hi: int) {
    && w.word != "" && lo <= w.index && w.index + |w.word| <= hi <= |low|
    && low[w.index..w.index + |w.word|] == w.word
  }

  /** Words within bounds, at their recorded offsets, in order and separated. */
  ghost predicate Placed(low: string, ws: seq<Weighted>, lo: int, hi: int) {
    && (forall i :: 0 <= i < |ws| ==> PlacedAt(low, ws[i], lo, hi))
    && (forall i, j :: 0 <= i < j < |ws| ==> ws[i].index + |ws[i].word| < ws[j].index)
  }

  lemma PlacedConcat(low: string, a: seq<Weighted>, b: seq<Weighted>, lo: int, mid: int, from: int, hi: int)
    requires Placed(low, a, lo, mid) && Placed(low, b, from, hi) && lo <= from && mid < from && mid <= hi <= |low|
    ensures Placed(low, a + b, lo, hi)
  {
    var ws := a + b;
    forall i | 0 <= i < |ws|
      ensures PlacedAt(low, ws[i], lo, hi)
    {
      assert if i < |a| then PlacedAt(low, a[i], lo, mid) else PlacedAt(low, b[i - |a|], from, hi);
    }
    forall i, j | 0 <= i < j < |ws|
      ensures ws[i].index + |ws[i].word| < ws[j].index
    {
      if i < |a| <= j {
        assert PlacedAt(low, a[i], lo, mid) && PlacedAt(low, b[j - |a|], from, hi);
      }
    }
  }

  predicate TextAt(low: string, text: string, index: nat) {
    index + |text| <= |low| && low[index..index + |text|] == text
  }

  /** Text laid out at `index` puts its first part there and the rest after the separator. */
  lemma TextTail(low: string, parts: seq<string>, sep: string, index: nat, text: string) returns (rest: string)
    requires |parts| > 1 && text == Join(parts, sep) && TextAt(low, text, index)
    ensures rest == Join(parts[1..], sep) && |text| == |parts[0]| + |sep| + |rest|
    ensures TextAt(low, parts[0], index) && TextAt(low, rest, index + |parts[0]| + |sep|)
  {
    rest := Join(parts[1..], sep);
    var n := |parts[0]|;
    assert text == parts[0] + (sep + rest);
    assert low[index..index + n] == text[..n] == parts[0];
    assert low[index + n + |sep|..index + |text|] == text[n + |sep|..] == rest;
  }

  lemma {:induction false} OffsetTail(parts: seq<string>, gap: nat, start: nat, n: nat)
    requires n < |parts|
    ensures Offset(parts, gap, start, n + 1) == Offset(parts[1..], gap, start + |parts[0]| + gap, n)
  {
    if n > 0 {
      OffsetTail(parts, gap, start, n - 1);
    }
  }

  lemma {:induction false} OffsetGrows(parts: seq<string>, gap: nat, start: nat, n: nat, m: nat)
    requires n <= m <= |parts|
    ensures Offset(parts, gap, start, n) <= Offset(parts, gap, start, m)
  {
    if n < m {
      OffsetGrows(parts, gap, start, n, m - 1);
    }
  }

  /** Joined parts end one separator before the offset that would follow them. */
  lemma {:induction false} JoinedLength(parts: seq<string>, sep: string, start: nat)
    requires parts != []
    ensures Offset(parts, |sep|, start, |parts|) == start + |Join(parts, sep)| + |sep|
  {
    OffsetTail(parts, |sep|, start, |parts| - 1);
    if |parts| > 1 {
      JoinedLength(parts[1..], sep, start + |parts[0]| + |sep|);
    }
  }

  /** Every part of a joined text sits at its offset. */
  lemma {:induction false} PartPlaced(low: string, parts: seq<string>, sep: string, index: nat, text: string, n: nat)
    requires n < |parts| && text == Join(parts, sep) && TextAt(low, text, index)
    ensures TextAt(low, parts[n], Offset(parts, |sep|, index, n))
    decreases n
  {
    if |parts| > 1 {
      var rest := TextTail(low, parts, sep, index, text);
      if n > 0 {
        OffsetTail(parts, |sep|, index, n - 1);
        PartPlaced(low, parts[1..], sep, index + |parts[0]| + |sep|, rest, n - 1);
      }
    }
  }

  predicate WordAt(low: string, words: seq<string>, index: nat, k: nat)
    requires k < |words|
  {
    TextAt(low, words[k], Offset(words, 1, index, k))
  }

  lemma NextWordPlaced(low: string, words: seq<string>, index: nat, n: nat, isTerm: string -> bool)
    requires n < |words| && WordAt(low, words, index, n)
    ensures Placed(low, SentenceWords(words, index, n, isTerm), index, Offset(words, 1, index, n) - 1) ==>
              Placed(low, SentenceWords(words, index, n + 1, isTerm), index, Offset(words, 1, index, n + 1) - 1)
  {
    OffsetGrows(words, 1, index, 0, n);
    var before, w := SentenceWords(words, index, n, isTerm), words[n];
    WordAppended(low, before, w, WeightOf(w, before == [], isTerm), index, Offset(words, 1, index, n));
  }

  lemma {:induction false} SentencePlaced(low: string, words: seq<string>, index: nat, n: nat, isTerm: string -> bool)
    requires n <= |words| && forall k :: 0 <= k < |words| ==> WordAt(low, words, index, k)
    ensures Placed(low, SentenceWords(words, index, n, isTerm), index, Offset(words, 1, index, n) - 1)
  {
    if n > 0 {
      SentencePlaced(low, words, index, n - 1, isTerm);
      NextWordPlaced(low, words, index, n - 1, isTerm);
    }
  }

  lemma WordAppended(low: string, before: seq<Weighted>, w: string, weight: nat, index: nat, from: nat)
    requires index <= from && TextAt(low, w, from)
    ensures Placed(low, before, index, from - 1)
            ==> Placed(low, if w == "" then before else before + [Weighted(w, weight, from)], index, from + |w|)
  {
    if Placed(low, before, index, from - 1) {
      var here := if w == "" then [] else [Weighted(w, weight, from)];
      PlacedConcat(low, before, here, index, from - 1, from, from + |w|);
      assert before + [] == before;
    }
  }

  lemma SplitSentencePlaced(low: string, sentence: string, index: nat, isTerm: string -> bool)
    requires TextAt(low, sentence, index)
    ensures Placed(low, WordsIn(sentence, index, isTerm), index, index + |sentence|)
  {
    var words := SplitBy(sentence, " ");
    JoinSplit(sentence, " ");
    forall k | 0 <= k < |words|
      ensures WordAt(low, words, index, k)
    {
      PartPlaced(low, words, " ", index, sentence, k);
    }
    SentencePlaced(low, words, index, |words|, isTerm);
    JoinedLength(words, " ", index);
  }

  lemma {:induction false} SentencesPlaced(low: string, sentences: seq<string>, n: nat, isTerm: string -> bool)
    requires n <= |sentences| && sentences != [] && low == Join(sentences, ". ")
    ensures Placed(low, AllWords(sentences, n, isTerm), 0, Offset(sentences, 2, 0, n) - 2)
  {
    if n > 0 {
      SentencesPlaced(low, sentences, n - 1, isTerm);
      var from, sentence := Offset(sentences, 2, 0, n - 1), sentences[n - 1];
      assert low[0..0 + |low|] == low;
      PartPlaced(low, sentences, ". ", 0, low, n - 1);
      SplitSentencePlaced(low, sentence, from, isTerm);
      PlacedConcat(low, AllWords(sentences, n - 1, isTerm), WordsIn(sentence, from, isTerm), 0, from - 2, from,
                   from + |sentence|);
    }
  }

  /** Every word recorded by the nested split sits at its recorded offset in the text, in order and
      without touching the next. */
  lemma WordsArePlaced(low: string, isTerm: string -> bool)
    ensures Placed(low, WordsOf(low, isTerm), 0, |low|)
  {
    var sentences := SplitBy(low, ". ");
    JoinSplit(low, ". ");
    SentencesPlaced(low, sentences, |sentences|, isTerm);
    JoinedLength(sentences, ". ", 0);
  }

  ghost predicate Spaceless(ws: seq<Weighted>) {
    forall i :: 0 <= i < |ws| ==> ' ' !in ws[i].word
  }

  lemma SplitIsSpaceless(sentence: string, k: nat)
    requires k < |SplitBy(sentence, " ")|
    ensures ' ' !in SplitBy(sentence, " ")[k]
  {
    var word := SplitBy(sentence, " ")[k];
    PartsAreFree(sentence, " ", k);
    if ' ' in word {
      var i :| 0 <= i < |word| && word[i] == ' ';
      assert ContainsAt(word, " ", i);
    }
  }

  lemma {:induction false} SentenceSpaceless(sentence: string, start: nat, n: nat, isTerm: string -> bool)
    requires n <= |SplitBy(sentence, " ")|
    ensures Spaceless(SentenceWords(SplitBy(sentence, " "), start, n, isTerm))
  {
    if n > 0 {
      SentenceSpaceless(sentence, start, n - 1, isTerm);
      SplitIsSpaceless(sentence, n - 1);
    }
  }

  lemma {:induction false} SentencesSpaceless(sentences: seq<string>, n: nat, isTerm: string -> bool)
    requires n <= |sentences|
    ensures Spaceless(AllWords(sentences, n, isTerm))
  {
    if n > 0 {
      SentencesSpaceless(sentences, n - 1, isTerm);
      var sentence := sentences[n - 1];
      SentenceSpaceless(sentence, Offset(sentences, 2, 0, n - 1), |SplitBy(sentence, " ")|, isTerm);
    }
  }

  /** Recorded words contain no space. */
  lemma WordsAreSpaceless(low: string, isTerm: string -> bool)
    ensures Spaceless(WordsOf(low, isTerm))
  {
    SentencesSpaceless(SplitBy(low, ". "), |SplitBy(low, ". ")|, isTerm);
  }

  // ---------- the recorded words are all the words ----------

  /** The position belongs to a recorded word. */
  ghost predicate Covered(ws: seq<Weighted>, q: int) {
    exists i :: 0 <= i < |ws| && Holds(ws[i], q)
  }

  predicate Holds(w: Weighted, q: int) {
    w.index <= q < w.index + |w.word|
  }

  /** The position is a space, or the full stop of a sentence end. */
  predicate IsBreak(low: string, q: int)
    requires 0 <= q < |low|
  {
    low[q] == ' ' || (low[q] == '.' && q + 1 < |low| && low[q + 1] == ' ')
  }

  lemma CoveredConcat(a: seq<Weighted>, b: seq<Weighted>, q: int)
    ensures Covered(a + b, q) <==> Covered(a, q) || Covered(b, q)
  {
    if Covered(a, q) {
      var i :| 0 <= i < |a| && Holds(a[i], q);
      assert (a + b)[i] == a[i];
    }
    if Covered(b, q) {
      var i :| 0 <= i < |b| && Holds(b[i], q);
      assert (a + b)[|a| + i] == b[i];
    }
    if Covered(a + b, q) {
      var i :| 0 <= i < |a + b| && Holds((a + b)[i], q);
      assert if i < |a| then Holds(a[i], q) else Holds(b[i - |a|], q);
    }
  }

  lemma CoveredOne(w: Weighted, q: int)
    ensures Covered([w], q) <==> Holds(w, q)
  {
    assert [w][0] == w;
  }

  lemma {:induction false} WordsCover(words: seq<string>, start: nat, n: nat, isTerm: string -> bool, k: nat, q: int)
    requires k < n <= |words|
    requires Offset(words, 1, start, k) <= q < Offset(words, 1, start, k) + |words[k]|
    ensures Covered(SentenceWords(words, start, n, isTerm), q)
  {
    var before := SentenceWords(words, start, n - 1, isTerm);
    var w := Weighted(words[n - 1], WeightOf(words[n - 1], before == [], isTerm), Offset(words, 1, start, n - 1));
    CoveredConcat(before, [w], q);
    CoveredOne(w, q);
    if k < n - 1 {
      WordsCover(words, start, n - 1, isTerm, k, q);
    }
  }

  /** Every position of a joined text lies in a part or in a separator after one. */
  lemma {:induction false} PositionIn(parts: seq<string>, gap: nat, start: nat, n: nat, q: int) returns (k: nat)
    requires n <= |parts| && start <= q < Offset(parts, gap, start, n)
    ensures k < n && Offset(parts, gap, start, k) <= q < Offset(parts, gap, start, k) + |parts[k]| + gap
  {
    if q >= Offset(parts, gap, start, n - 1) {
      k := n - 1;
    } else {
      k := PositionIn(parts, gap, start, n - 1, q);
    }
  }

  lemma {:induction false} SeparatorPlaced(low: string, parts: seq<string>, sep: string, index: nat, text: string,
                                           n: nat)
    requires n + 1 < |parts| && text == Join(parts, sep) && TextAt(low, text, index)
    ensures TextAt(low, sep, Offset(parts, |sep|, index, n) + |parts[n]|)
    decreases n
  {
    var rest := TextTail(low, parts, sep, index, text);
    if n > 0 {
      OffsetTail(parts, |sep|, index, n - 1);
      SeparatorPlaced(low, parts[1..], sep, index + |parts[0]| + |sep|, rest, n - 1);
    } else {
      assert text == parts[0] + (sep + rest);
      MiddleAt(low, text, index, parts[0], sep, rest);
    }
  }

  lemma MiddleAt(low: string, text: string, index: nat, a: string, b: string, c: string)
    requires TextAt(low, text, index) && text == a + (b + c)
    ensures TextAt(low, b, index + |a|)
  {
    SliceAt(low, text, index, |a|, |a| + |b|);
    assert text[|a|..|a| + |b|] == b;
  }

  /** A slice of a text laid out at `index` is the corresponding slice of the whole. */
  lemma SliceAt(low: string, text: string, index: nat, i: nat, j: nat)
    requires TextAt(low, text, index) && i <= j <= |text|
    ensures low[index + i..index + j] == text[i..j]
  {
    var whole := low[index..index + |text|];
    assert forall k :: i <= k < j ==> whole[k] == low[index + k];
    assert low[index + i..index + j] == whole[i..j];
  }

  /** In a sentence, every position that is not a space is in a recorded word. */
  lemma SentenceCovered(low: string, sentence: string, start: nat, isTerm: string -> bool, q: int)
    requires TextAt(low, sentence, start) && start <= q < start + |sentence| && low[q] != ' '
    ensures Covered(WordsIn(sentence, start, isTerm), q)
  {
    var words := SplitBy(sentence, " ");
    JoinSplit(sentence, " ");
    JoinedLength(words, " ", start);
    var k := PositionIn(words, 1, start, |words|, q);
    if q == Offset(words, 1, start, k) + |words[k]| {
      GapIsSpace(low, words, sentence, start, k, q);
    }
    WordsCover(words, start, |words|, isTerm, k, q);
  }

  lemma NotLast(parts: seq<string>, gap: nat, start: nat, k: nat, end: int)
    requires k < |parts| && Offset(parts, gap, start, |parts|) == end + gap
    requires Offset(parts, gap, start, k) + |parts[k]| < end
    ensures k + 1 < |parts|
  {
  }

  lemma SpaceAt(low: string, q: nat)
    requires TextAt(low, " ", q)
    ensures low[q] == ' '
  {
    var sep := low[q..q + 1];
    assert sep[0] == low[q];
  }

  lemma BreakAt(low: string, end: nat, q: int)
    requires TextAt(low, ". ", end) && end <= q < end + 2
    ensures IsBreak(low, q)
  {
    var sep := low[end..end + 2];
    assert sep[0] == low[end] && sep[1] == low[end + 1];
  }

  lemma GapIsSpace(low: string, words: seq<string>, sentence: string, start: nat, k: nat, q: int)
    requires k < |words| && q == Offset(words, 1, start, k) + |words[k]| && q < start + |sentence|
    requires sentence == Join(words, " ") && TextAt(low, sentence, start)
    ensures low[q] == ' '
  {
    JoinedLength(words, " ", start);
    NotLast(words, 1, start, k, start + |sentence|);
    SeparatorPlaced(low, words, " ", start, sentence, k);
    SpaceAt(low, q);
  }

  lemma {:induction false} SentenceIn(sentences: seq<string>, n: nat, isTerm: string -> bool, k: nat, q: int)
    requires k < n <= |sentences| && Covered(WordsIn(sentences[k], Offset(sentences, 2, 0, k), isTerm), q)
    ensures Covered(AllWords(sentences, n, isTerm), q)
  {
    var from := Offset(sentences, 2, 0, n - 1);
    CoveredConcat(AllWords(sentences, n - 1, isTerm), WordsIn(sentences[n - 1], from, isTerm), q);
    if k < n - 1 {
      SentenceIn(sentences, n - 1, isTerm, k, q);
    }
  }

  lemma WholeText(low: string)
    ensures TextAt(low, low, 0)
  {
    assert low[0..0 + |low|] == low;
  }

  lemma AtSentenceEnd(low: string, sentences: seq<string>, k: nat, q: int)
    requires k < |sentences| && low == Join(sentences, ". ") && 0 <= q < |low|
    requires var end := Offset(sentences, 2, 0, k) + |sentences[k]|; end <= q < end + 2
    ensures IsBreak(low, q)
  {
    var end := Offset(sentences, 2, 0, k) + |sentences[k]|;
    JoinedLength(sentences, ". ", 0);
    NotLast(sentences, 2, 0, k, |low|);
    WholeText(low);
    SeparatorPlaced(low, sentences, ". ", 0, low, k);
    BreakAt(low, end, q);
  }

  /** Every position of the text is in a recorded word, or is a space or the full stop of a sentence end. */
  lemma EveryWordRecorded(low: string, isTerm: string -> bool, q: int)
    requires 0 <= q < |low| && !IsBreak(low, q)
    ensures Covered(WordsOf(low, isTerm), q)
  {
    var sentences := SplitBy(low, ". ");
    JoinSplit(low, ". ");
    JoinedLength(sentences, ". ", 0);
    var k := PositionIn(sentences, 2, 0, |sentences|, q);
    var from := Offset(sentences, 2, 0, k);
    if q >= from + |sentences[k]| {
      AtSentenceEnd(low, sentences, k, q);
    }
    WholeText(low);
    PartPlaced(low, sentences, ". ", 0, low, k);
    SentenceCovered(low, sentences[k], from, isTerm, q);
    SentenceIn(sentences, |sentences|, isTerm, k, q);
  }

  // ---------- weights over the text ----------

  /** A sentence ends in the text between two positions. */
  predicate SentenceEnds(low: string, from: int, to: int) {
    exists q :: EndsAt(low, q) && from <= q && q + 2 <= to
  }

  predicate EndsAt(low: string, q: int) {
    0 <= q <= |low| - 2 && low[q..q + 2] == ". "
  }

  /** The first word of the text, or the first one after a sentence end. */
  predicate IsFirst(low: string, ws: seq<Weighted>, i: nat)
    requires i < |ws|
  {
    i == 0 || SentenceEnds(low, ws[i - 1].index + |ws[i - 1].word|, ws[i].index)
  }

  /** Search terms weigh forty, first words of sentences eight and all other words two. */
  ghost predicate Weighs(low: string, ws: seq<Weighted>, isTerm: string -> bool) {
    forall i :: 0 <= i < |ws| ==>
      ws[i].weight == if isTerm(ws[i].word) then 40 else if IsFirst(low, ws, i) then 8 else 2
  }

  lemma {:induction false} SentenceWeighs(words: seq<string>, start: nat, n: nat, isTerm: string -> bool, i: nat)
    requires n <= |words| && i < |SentenceWords(words, start, n, isTerm)|
    ensures var w := SentenceWords(words, start, n, isTerm)[i];
            w.weight == if isTerm(w.word) then 40 else if i == 0 then 8 else 2
  {
    if i < |SentenceWords(words, start, n - 1, isTerm)| {
      SentenceWeighs(words, start, n - 1, isTerm, i);
    }
  }

  lemma NoEndInside(low: string, sentence: string, start: nat, from: int, to: int)
    requires TextAt(low, sentence, start) && !Contains(sentence, ". ") && start <= from && to <= start + |sentence|
    ensures !SentenceEnds(low, from, to)
  {
    if q :| EndsAt(low, q) && from <= q && q + 2 <= to {
      SliceAt(low, sentence, start, q - start, q - start + 2);
      assert ContainsAt(sentence, ". ", q - start);
    }
  }

  lemma SameFirst(low: string, before: seq<Weighted>, here: seq<Weighted>, i: nat)
    requires i < |before|
    ensures (before + here)[i] == before[i] && (IsFirst(low, before + here, i) <==> IsFirst(low, before, i))
  {
    assert i > 0 ==> (before + here)[i - 1] == before[i - 1];
  }

  /** The words of a sentence: search terms weigh forty, the first word eight and all others two. */
  ghost predicate WeighsInside(here: seq<Weighted>, isTerm: string -> bool) {
    forall i :: 0 <= i < |here| ==>
      here[i].weight == if isTerm(here[i].word) then 40 else if i == 0 then 8 else 2
  }

  /** The words of a sentence at `start`, after those of the sentences before it. */
  ghost predicate Follows(low: string, before: seq<Weighted>, here: seq<Weighted>, sentence: string, start: nat) {
    && Placed(low, before, 0, start - 2) && Placed(low, here, start, start + |sentence|)
    && TextAt(low, sentence, start) && !Contains(sentence, ". ")
    && (before != [] ==> EndsAt(low, start - 2))
  }

  lemma WeighsAppended(low: string, before: seq<Weighted>, here: seq<Weighted>, sentence: string, start: nat,
                       isTerm: string -> bool)
    ensures Weighs(low, before, isTerm) && WeighsInside(here, isTerm) && Follows(low, before, here, sentence, start) ==>
              Weighs(low, before + here, isTerm)
  {
    if Weighs(low, before, isTerm) && WeighsInside(here, isTerm) && Follows(low, before, here, sentence, start) {
      var ws := before + here;
      forall i | 0 <= i < |ws|
        ensures ws[i].weight == if isTerm(ws[i].word) then 40 else if IsFirst(low, ws, i) then 8 else 2
      {
        if i < |before| {
          SameFirst(low, before, here, i);
        } else {
          assert ws[i] == here[i - |before|];
          FirstOfSentence(low, before, here, sentence, start, i - |before|);
        }
      }
    }
  }

  lemma FirstOfSentence(low: string, before: seq<Weighted>, here: seq<Weighted>, sentence: string, start: nat, j: nat)
    requires j < |here|
    ensures Follows(low, before, here, sentence, start) ==> (IsFirst(low, before + here, |before| + j) <==> j == 0)
  {
    if Follows(low, before, here, sentence, start) {
      var ws := before + here;
      assert ws[|before| + j] == here[j] && PlacedAt(low, here[j], start, start + |sentence|);
      if j > 0 {
        assert ws[|before| + j - 1] == here[j - 1] && PlacedAt(low, here[j - 1], start, start + |sentence|);
        NoEndInside(low, sentence, start, here[j - 1].index + |here[j - 1].word|, here[j].index);
      } else if before != [] {
        assert ws[|before| - 1] == before[|before| - 1] && PlacedAt(low, before[|before| - 1], 0, start - 2);
        assert EndsAt(low, start - 2);
      }
    }
  }

  /** Where sentence `n` is and what it holds. */
  lemma SentenceAt(low: string, n: nat)
    requires n < |SplitBy(low, ". ")|
    ensures var sentences := SplitBy(low, ". ");
            TextAt(low, sentences[n], Offset(sentences, 2, 0, n)) && !Contains(sentences[n], ". ")
  {
    JoinSplit(low, ". ");
    WholeText(low);
    PartPlaced(low, SplitBy(low, ". "), ". ", 0, low, n);
    PartsAreFree(low, ". ", n);
  }

  lemma EndBefore(low: string, sentences: seq<string>, n: nat)
    requires 0 < n < |sentences| && low == Join(sentences, ". ")
    ensures EndsAt(low, Offset(sentences, 2, 0, n) - 2)
  {
    WholeText(low);
    SeparatorPlaced(low, sentences, ". ", 0, low, n - 1);
    StopBefore(low, sentences, n);
  }

  lemma StopBefore(low: string, sentences: seq<string>, n: nat)
    requires 0 < n <= |sentences| && TextAt(low, ". ", Offset(sentences, 2, 0, n - 1) + |sentences[n - 1]|)
    ensures EndsAt(low, Offset(sentences, 2, 0, n) - 2)
  {
  }

  ghost predicate FollowsAt(low: string, sentences: seq<string>, n: nat, isTerm: string -> bool)
    requires n < |sentences|
  {
    var from := Offset(sentences, 2, 0, n);
    Follows(low, AllWords(sentences, n, isTerm), WordsIn(sentences[n], from, isTerm), sentences[n], from)
  }

  lemma SentenceFollows(low: string, sentences: seq<string>, n: nat, isTerm: string -> bool)
    requires n < |sentences| && sentences == SplitBy(low, ". ")
    ensures FollowsAt(low, sentences, n, isTerm)
  {
    SentenceAt(low, n);
    JoinSplit(low, ". ");
    SentencesPlaced(low, sentences, n, isTerm);
    if n > 0 {
      EndBefore(low, sentences, n);
    }
    SplitSentencePlaced(low, sentences[n], Offset(sentences, 2, 0, n), isTerm);
  }

  lemma WeighsNext(low: string, sentences: seq<string>, n: nat, isTerm: string -> bool)
    requires n < |sentences| && FollowsAt(low, sentences, n, isTerm)
    ensures Weighs(low, AllWords(sentences, n, isTerm), isTerm) ==>
              Weighs(low, AllWords(sentences, n + 1, isTerm), isTerm)
  {
    var from, before := Offset(sentences, 2, 0, n), AllWords(sentences, n, isTerm);
    HereWeighs(sentences[n], from, isTerm);
    WeighsAppended(low, before, WordsIn(sentences[n], from, isTerm), sentences[n], from, isTerm);
  }

  lemma {:induction false} SentencesWeigh(low: string, sentences: seq<string>, n: nat, isTerm: string -> bool)
    requires n <= |sentences| && forall k :: 0 <= k < |sentences| ==> FollowsAt(low, sentences, k, isTerm)
    ensures Weighs(low, AllWords(sentences, n, isTerm), isTerm)
  {
    if n > 0 {
      SentencesWeigh(low, sentences, n - 1, isTerm);
      WeighsNext(low, sentences, n - 1, isTerm);
    }
  }

  lemma HereWeighs(sentence: string, from: nat, isTerm: string -> bool)
    ensures WeighsInside(WordsIn(sentence, from, isTerm), isTerm)
  {
    var words := SplitBy(sentence, " ");
    forall i | 0 <= i < |WordsIn(sentence, from, isTerm)|
      ensures var w := WordsIn(sentence, from, isTerm)[i];
              w.weight == if isTerm(w.word) then 40 else if i == 0 then 8 else 2
    {
      SentenceWeighs(words, from, |words|, isTerm, i);
    }
  }

  /** The weights of the recorded words, read off the text. */
  lemma WordsWeigh(low: string, isTerm: string -> bool)
    ensures Weighs(low, WordsOf(low, isTerm), isTerm)
  {
    var sentences := SplitBy(low, ". ");
    forall k | 0 <= k < |sentences|
      ensures FollowsAt(low, sentences, k, isTerm)
    {
      SentenceFollows(low, sentences, k, isTerm);
    }
    SentencesWeigh(low, sentences, |sentences|, isTerm);
  }

  // ---------- windows ----------

  function Sum(ws: seq<Weighted>): nat {
    if ws == [] then 0 else ws[0].weight + Sum(ws[1..])
  }

  lemma {:induction false} SumSnoc(ws: seq<Weighted>, w: Weighted)
    ensures Sum(ws + [w]) == Sum(ws) + w.weight
  {
    if ws == [] {
      assert [] + [w] == [w] && [w][1..] == [];
    } else {
      SumSnoc(ws[1..], w);
      assert (ws + [w])[1..] == ws[1..] + [w];
    }
  }

  function WindowSum(ws: seq<Weighted>, i: nat, size: nat): nat
    requires i + size <= |ws|
  {
    Sum(ws[i..i + size])
  }

  /** Sliding a window by one word. */
  lemma SumSlides(ws: seq<Weighted>, i: nat, size: nat)
    requires size > 0 && i + size < |ws|
    ensures WindowSum(ws, i + 1, size) == WindowSum(ws, i, size) - ws[i].weight + ws[i + size].weight
  {
    var middle := ws[i + 1..i + size];
    assert ws[i..i + size] == [ws[i]] + middle;
    assert ws[i..i + size][1..] == middle;
    assert ws[i + 1..i + 1 + size] == middle + [ws[i + size]];
    SumSnoc(middle, ws[i + size]);
  }

  /** The incremental sums equal the direct sum of every window. */
  method WindowWeights(ws: seq<Weighted>, size: nat) returns (sums: seq<int>)
    requires 0 < size <= |ws|
    ensures |sums| == |ws| - size + 1
    ensures forall i :: 0 <= i < |sums| ==> sums[i] == WindowSum(ws, i, size)
  {
    var cur := 0;
    for i := 0 to size
      invariant cur == Sum(ws[..i])
    {
      SumSnoc(ws[..i], ws[i]);
      assert ws[..i + 1] == ws[..i] + [ws[i]];
      cur := cur + ws[i].weight;
    }
    sums := [cur];
    assert ws[0..size] == ws[..size];
    for i := 0 to |ws| - size
      invariant |sums| == i + 1 && cur == sums[i]
      invariant forall j :: 0 <= j <= i ==> sums[j] == WindowSum(ws, j, size)
    {
      SumSlides(ws, i, size);
      cur := cur - ws[i].weight;
      cur := cur + ws[i + size].weight;
      sums := sums + [cur];
    }
  }

  /** The last of the windows with the largest sum. */
  ghost predicate IsBest(sums: seq<int>, k: int) {
    && 0 <= k < |sums|
    && (forall i :: 0 <= i < |sums| ==> sums[i] <= sums[k])
    && (forall i :: k < i < |sums| ==> sums[i] < sums[k])
  }

  method BestWindow(sums: seq<int>, found: bool) returns (k: nat)
    requires sums != [] && forall i :: 0 <= i < |sums| ==> sums[i] > 0
    ensures k < |sums|
    ensures found ==> IsBest(sums, k)
    ensures !found ==> k == 0
  {
    k := 0;
    if found {
      var max := 0;
      var i := |sums| - 1;
      while i >= 0
        invariant -1 <= i < |sums|
        invariant i == |sums| - 1 ==> max == 0 && k == 0
        invariant i < |sums| - 1 ==> i < k < |sums| && max == sums[k]
        invariant forall j :: i < j < |sums| ==> sums[j] <= max
        invariant forall j :: i < |sums| - 1 && k < j < |sums| ==> sums[j] < max
      {
        if sums[i] > max {
          max := sums[i];
          k := i;
        }
        i := i - 1;
      }
    }
  }

  lemma {:induction false} SumPositive(ws: seq<Weighted>)
    requires ws != [] && forall i :: 0 <= i < |ws| ==> ws[i].weight > 0
    ensures Sum(ws) > 0
  {
    if |ws| > 1 {
      SumPositive(ws[1..]);
    }
  }

  ghost predicate WellWeighted(ws: seq<Weighted>, isTerm: string -> bool) {
    forall i :: 0 <= i < |ws| ==> ws[i].weight > 0 && (ws[i].weight == TERM_WEIGHT <==> isTerm(ws[i].word))
  }

  lemma {:induction false} SentenceWeights(words: seq<string>, start: nat, n: nat, isTerm: string -> bool)
    requires n <= |words|
    ensures WellWeighted(SentenceWords(words, start, n, isTerm), isTerm)
  {
    if n > 0 {
      SentenceWeights(words, start, n - 1, isTerm);
    }
  }

  /** Every word weighs something, and exactly the search terms weigh forty. */
  lemma {:induction false} WordWeights(sentences: seq<string>, n: nat, isTerm: string -> bool)
    requires n <= |sentences|
    ensures WellWeighted(AllWords(sentences, n, isTerm), isTerm)
  {
    if n > 0 {
      WordWeights(sentences, n - 1, isTerm);
      var words := SplitBy(sentences[n - 1], " ");
      SentenceWeights(words, Offset(sentences, 2, 0, n - 1), |words|, isTerm);
    }
  }

  // ---------- the nested scan ----------

  lemma FoundEither(a: seq<Weighted>, b: seq<Weighted>, isTerm: string -> bool)
    ensures AnyTerm(a + b, isTerm) <==> AnyTerm(a, isTerm) || AnyTerm(b, isTerm)
  {
    if AnyTerm(a, isTerm) {
      var w :| w in a && isTerm(w.word);
      assert w in a + b;
    }
    if AnyTerm(b, isTerm) {
      var w :| w in b && isTerm(w.word);
      assert w in a + b;
    }
  }

  ghost predicate AnyTerm(ws: seq<Weighted>, isTerm: string -> bool) {
    exists w :: w in ws && isTerm(w.word)
  }

  /** Splits into sentences and words, keeping the running offset. */
  method WeighWords(low: string, isTerm: string -> bool) returns (ws: seq<Weighted>, found: bool)
    ensures ws == WordsOf(low, isTerm)
    ensures found <==> AnyTerm(ws, isTerm)
  {
    ws, found := WeighSentences(SplitBy(low, ". "), isTerm);
  }

  /** Where the scan stands after `i` sentences. */
  ghost predicate Scanned(sentences: seq<string>, i: nat, isTerm: string -> bool, ws: seq<Weighted>, found: bool,
                          index: nat)
  {
    && i <= |sentences|
    && index == Offset(sentences, 2, 0, i)
    && ws == AllWords(sentences, i, isTerm)
    && (found <==> AnyTerm(ws, isTerm))
  }

  lemma ScanStep(sentences: seq<string>, i: nat, isTerm: string -> bool, ws: seq<Weighted>, found: bool, index: nat,
                 here: seq<Weighted>, term: bool)
    requires i < |sentences| && Scanned(sentences, i, isTerm, ws, found, index)
    requires here == WordsIn(sentences[i], index, isTerm) && (term <==> AnyTerm(here, isTerm))
    ensures Scanned(sentences, i + 1, isTerm, ws + here, found || term, index + |sentences[i]| + 2)
  {
    FoundEither(ws, here, isTerm);
  }

  method WeighSentences(sentences: seq<string>, isTerm: string -> bool) returns (ws: seq<Weighted>, found: bool)
    ensures ws == AllWords(sentences, |sentences|, isTerm)
    ensures found <==> AnyTerm(ws, isTerm)
  {
    ws, found := [], false;
    var index: nat := 0;
    for i := 0 to |sentences|
      invariant Scanned(sentences, i, isTerm, ws, found, index)
    {
      var here, term, end := WeighSentence(sentences[i], index, isTerm);
      ScanStep(sentences, i, isTerm, ws, found, index, here, term);
      ws, found := ws + here, found || term;
      index := end + 1;
    }
  }

  method WeighSentence(sentence: string, start: nat, isTerm: string -> bool)
    returns (ws: seq<Weighted>, found: bool, end: nat)
    ensures ws == WordsIn(sentence, start, isTerm)
    ensures found <==> AnyTerm(ws, isTerm)
    ensures end == start + |sentence| + 1
  {
    var words := SplitBy(sentence, " ");
    ws, found, end := WeighSplit(words, start, isTerm);
    JoinSplit(sentence, " ");
    JoinedLength(words, " ", start);
  }

  method WeighSplit(words: seq<string>, start: nat, isTerm: string -> bool)
    returns (ws: seq<Weighted>, found: bool, index: nat)
    ensures ws == SentenceWords(words, start, |words|, isTerm)
    ensures found <==> AnyTerm(ws, isTerm)
    ensures index == Offset(words, 1, start, |words|)
  {
    ws, found := [], false;
    index := start;
    var value := FIRST_WEIGHT;
    for i := 0 to |words|
      invariant index == Offset(words, 1, start, i)
      invariant value == if ws == [] then FIRST_WEIGHT else WORD_WEIGHT
      invariant ws == SentenceWords(words, start, i, isTerm)
      invariant found <==> AnyTerm(ws, isTerm)
    {
      var word := words[i];
      if |word| > 0 {
        if isTerm(word) {
          value, found := TERM_WEIGHT, true;
        }
        var w := Weighted(word, value, index);
        FoundOne(ws, w, isTerm);
        ws := ws + [w];
        value := WORD_WEIGHT;
      }
      index := index + |word|;
      index := index + 1;
    }
  }

  lemma FoundOne(ws: seq<Weighted>, w: Weighted, isTerm: string -> bool)
    ensures AnyTerm(ws + [w], isTerm) <==> AnyTerm(ws, isTerm) || isTerm(w.word)
  {
    FoundEither(ws, [w], isTerm);
    assert w in [w];
  }

  // ---------- the teaser ----------

  /** A piece of the result: plain text, or text between emphasis tags. */
  datatype Piece = Plain(text: string) | Emphasised(text: string)

  function Show(p: Piece): string {
    if p.Plain? then p.text else "<em>" + p.text + "</em>"
  }

  /** The pieces joined up. */
  function Rendered(ps: seq<Piece>): string {
    if ps == [] then "" else Rendered(ps[..|ps| - 1]) + Show(ps[|ps| - 1])
  }

  /** The result with the tags removed. */
  function Untagged(ps: seq<Piece>): string {
    if ps == [] then "" else Untagged(ps[..|ps| - 1]) + ps[|ps| - 1].text
  }

  /** The emphasised texts, in order. */
  function Marked(ps: seq<Piece>): seq<string> {
    if ps == [] then []
    else Marked(ps[..|ps| - 1]) + if ps[|ps| - 1].Emphasised? then [ps[|ps| - 1].text] else []
  }

  /** A text with its emphasis tags removed. */
  function StripTags(text: string): string {
    if text == "" then ""
    else if "<em>" <= text then StripTags(text[4..])
    else if "</em>" <= text then StripTags(text[5..])
    else [text[0]] + StripTags(text[1..])
  }

  lemma {:induction false} StripPlain(text: string, rest: string)
    requires '<' !in text
    ensures StripTags(text + rest) == text + StripTags(rest)
  {
    if text == "" {
      assert text + rest == rest;
    } else {
      var all := text + rest;
      assert all[0] == text[0] && all[1..] == text[1..] + rest;
      StripPlain(text[1..], rest);
      assert [text[0]] + (text[1..] + StripTags(rest)) == text + StripTags(rest);
    }
  }

  lemma StripTag(tag: string, rest: string)
    requires tag == "<em>" || tag == "</em>"
    ensures StripTags(tag + rest) == StripTags(rest)
  {
    assert (tag + rest)[|tag|..] == rest;
    assert tag == "</em>" ==> (tag + rest)[1] == '/';
  }

  lemma StripPiece(p: Piece, rest: string)
    requires '<' !in p.text
    ensures StripTags(Show(p) + rest) == p.text + StripTags(rest)
  {
    if p.Emphasised? {
      assert Show(p) + rest == "<em>" + (p.text + ("</em>" + rest));
      StripTag("<em>", p.text + ("</em>" + rest));
      StripPlain(p.text, "</em>" + rest);
      StripTag("</em>", rest);
    } else {
      StripPlain(p.text, rest);
    }
  }

  lemma StrAssoc(a: string, b: string, c: string)
    ensures (a + b) + c == a + (b + c)
  {
  }

  lemma TailHolds(a: string, b: string, c: char)
    requires c !in a + b
    ensures c !in a && c !in b
  {
    assert forall x :: x in a || x in b ==> x in a + b;
  }

  /** Stripping the tags of the joined pieces leaves their texts, when these hold no tag themselves. */
  lemma {:induction false} StripRendered(ps: seq<Piece>, rest: string)
    requires '<' !in Untagged(ps)
    ensures StripTags(Rendered(ps) + rest) == Untagged(ps) + StripTags(rest)
  {
    if ps == [] {
      assert Rendered(ps) + rest == rest && Untagged(ps) + StripTags(rest) == StripTags(rest);
    } else {
      var front, p := ps[..|ps| - 1], ps[|ps| - 1];
      TailHolds(Untagged(front), p.text, '<');
      StrAssoc(Rendered(front), Show(p), rest);
      StripRendered(front, Show(p) + rest);
      StripPiece(p, rest);
      StrAssoc(Untagged(front), p.text, StripTags(rest));
    }
  }

  lemma StripJoined(pieces: seq<Piece>)
    requires '<' !in Untagged(pieces)
    ensures StripTags(Rendered(pieces)) == Untagged(pieces)
    ensures Emphases(Rendered(pieces)) == Somes(Marked(pieces))
  {
    StripRendered(pieces, "");
    EmphasesAreMarked(pieces, "");
    assert Somes(Marked(pieces)) + [] == Somes(Marked(pieces));
    assert Rendered(pieces) + "" == Rendered(pieces);
    assert Untagged(pieces) + "" == Untagged(pieces);
  }

  /** The text up to a closing tag, if there is one. */
  function UpToClose(text: string): Option<string> {
    if "</em>" <= text then Some("")
    else if text == "" then None
    else
      var rest := UpToClose(text[1..]);
      if rest.None? then None else Some([text[0]] + rest.value)
  }

  /** What a text emphasises: after each opening tag, the text up to the closing one. */
  function Emphases(text: string): seq<Option<string>> {
    if text == "" then []
    else if "<em>" <= text then [UpToClose(text[4..])] + Emphases(text[4..])
    else Emphases(text[1..])
  }

  function Somes(texts: seq<string>): seq<Option<string>> {
    if texts == [] then [] else Somes(texts[..|texts| - 1]) + [Some(texts[|texts| - 1])]
  }

  lemma {:induction false} EmphasesSkip(text: string, rest: string)
    requires '<' !in text
    ensures Emphases(text + rest) == Emphases(rest)
  {
    if text == "" {
      assert text + rest == rest;
    } else {
      assert (text + rest)[0] == text[0] && (text + rest)[1..] == text[1..] + rest;
      EmphasesSkip(text[1..], rest);
    }
  }

  lemma EmphasesSkipClose(rest: string)
    ensures Emphases("</em>" + rest) == Emphases(rest)
  {
    var all := "</em>" + rest;
    assert all[0] == '<' && all[1] == '/' && all[1..] == "/em>" + rest;
    EmphasesSkip("/em>", rest);
  }

  lemma {:induction false} ClosesAfter(text: string, rest: string)
    requires '<' !in text
    ensures UpToClose(text + ("</em>" + rest)) == Some(text)
  {
    var all := text + ("</em>" + rest);
    if text == "" {
      assert all == "</em>" + rest;
    } else {
      assert all[0] == text[0] && all[1..] == text[1..] + ("</em>" + rest);
      ClosesAfter(text[1..], rest);
      assert [text[0]] + text[1..] == text;
    }
  }

  lemma EmphasesPiece(p: Piece, rest: string)
    requires '<' !in p.text
    ensures Emphases(Show(p) + rest) == (if p.Emphasised? then [Some(p.text)] else []) + Emphases(rest)
  {
    if p.Plain? {
      EmphasesSkip(p.text, rest);
      assert [] + Emphases(rest) == Emphases(rest);
    } else {
      var inner := p.text + ("</em>" + rest);
      var all := Show(p) + rest;
      assert all == "<em>" + inner;
      assert all[4..] == inner;
      ClosesAfter(p.text, rest);
      EmphasesSkip(p.text, "</em>" + rest);
      EmphasesSkipClose(rest);
    }
  }

  lemma SomesSnoc(texts: seq<string>, t: string)
    ensures Somes(texts + [t]) == Somes(texts) + [Some(t)]
  {
    assert (texts + [t])[..|texts|] == texts;
  }

  lemma EmAssoc(a: seq<Option<string>>, b: seq<Option<string>>, c: seq<Option<string>>)
    ensures (a + b) + c == a + (b + c)
  {
  }

  lemma MarkedSomes(front: seq<Piece>, p: Piece)
    ensures Somes(Marked(front) + if p.Emphasised? then [p.text] else []) ==
            Somes(Marked(front)) + if p.Emphasised? then [Some(p.text)] else []
  {
    if p.Emphasised? {
      SomesSnoc(Marked(front), p.text);
    } else {
      assert Marked(front) + [] == Marked(front);
    }
  }

  /** The joined text emphasises exactly the marked pieces, each properly closed. */
  lemma {:induction false} EmphasesAreMarked(ps: seq<Piece>, rest: string)
    requires '<' !in Untagged(ps)
    ensures Emphases(Rendered(ps) + rest) == Somes(Marked(ps)) + Emphases(rest)
  {
    if ps == [] {
      assert Rendered(ps) + rest == rest && Somes([]) + Emphases(rest) == Emphases(rest);
    } else {
      var front, p := ps[..|ps| - 1], ps[|ps| - 1];
      TailHolds(Untagged(front), p.text, '<');
      StrAssoc(Rendered(front), Show(p), rest);
      EmphasesAreMarked(front, Show(p) + rest);
      EmphasesPiece(p, rest);
      MarkedSomes(front, p);
      EmAssoc(Somes(Marked(front)), if p.Emphasised? then [Some(p.text)] else [], Emphases(rest));
    }
  }

  lemma Snoc(ps: seq<Piece>, p: Piece)
    ensures Untagged(ps + [p]) == Untagged(ps) + p.text
    ensures Marked(ps + [p]) == Marked(ps) + if p.Emphasised? then [p.text] else []
  {
    assert (ps + [p])[..|ps|] == ps;
  }

  ghost predicate Within(body: string, ws: seq<Weighted>) {
    forall i :: 0 <= i < |ws| ==> ws[i].index + |ws[i].word| <= |body|
  }

  /** The body text under the search terms among the first `n` words. */
  ghost function TermTexts(body: string, ws: seq<Weighted>, n: nat): seq<string>
    requires Within(body, ws) && n <= |ws|
  {
    if n == 0 then []
    else
      var w := ws[n - 1];
      TermTexts(body, ws, n - 1)
      + if w.weight == TERM_WEIGHT then [body[w.index..w.index + |w.word|]] else []
  }

  /** The text under a window of words, with the search terms emphasised: without its tags it is
      one contiguous slice of the body, and what is emphasised is exactly the terms. */
  method MarkWindow(body: string, ghost low: string, ws: seq<Weighted>) returns (pieces: seq<Piece>)
    requires ws != [] && |low| == |body| && Placed(low, ws, 0, |body|)
    ensures Covers(body, ws, pieces)
  {
    WithinBody(body, low, ws);
    pieces := [];
    var index := ws[0].index;
    for i := 0 to |ws|
      invariant Marking(body, ws, i, index, pieces)
    {
      BeforeWord(body, ws, i, index, pieces);
      pieces := PushWord(body, pieces, ws[0].index, index, ws[i]);
      index := ws[i].index + |ws[i].word|;
    }
  }

  /** How far the marking is after `i` words. */
  ghost predicate Marking(body: string, ws: seq<Weighted>, i: nat, index: int, pieces: seq<Piece>) {
    && Within(body, ws) && Apart(ws) && i <= |ws| && ws != []
    && ws[0].index <= index <= |body|
    && index == (if i == 0 then ws[0].index else ws[i - 1].index + |ws[i - 1].word|)
    && Untagged(pieces) == body[ws[0].index..index]
    && Marked(pieces) == TermTexts(body, ws, i)
  }

  lemma BeforeWord(body: string, ws: seq<Weighted>, i: nat, index: int, pieces: seq<Piece>)
    requires Marking(body, ws, i, index, pieces) && i < |ws|
    ensures ws[0].index <= index <= ws[i].index && ws[i].index + |ws[i].word| <= |body|
  {
  }

  ghost predicate Apart(ws: seq<Weighted>) {
    forall i :: 0 < i < |ws| ==> ws[i - 1].index + |ws[i - 1].word| < ws[i].index
  }

  lemma WithinBody(body: string, low: string, ws: seq<Weighted>)
    requires |low| == |body| && Placed(low, ws, 0, |body|)
    ensures Within(body, ws) && Apart(ws)
  {
    assert forall i :: 0 <= i < |ws| ==> PlacedAt(low, ws[i], 0, |body|);
  }

  /** Adds the text between the previous word and this one, then the word. */
  method PushWord(body: string, before: seq<Piece>, start: nat, from: nat, w: Weighted) returns (pieces: seq<Piece>)
    requires start <= from <= w.index && w.index + |w.word| <= |body|
    requires Untagged(before) == body[start..from]
    ensures Untagged(pieces) == body[start..w.index + |w.word|]
    ensures Marked(pieces) == Marked(before)
            + if w.weight == TERM_WEIGHT then [body[w.index..w.index + |w.word|]] else []
  {
    pieces := before;
    if from < w.index {
      pieces := PushPiece(body, pieces, start, from, w.index, false);
    }
    pieces := PushPiece(body, pieces, start, w.index, w.index + |w.word|, w.weight == TERM_WEIGHT);
    NilRight(Marked(before));
  }

  lemma NilRight(a: seq<string>)
    ensures a + [] == a
  {
  }

  method PushPiece(body: string, before: seq<Piece>, start: nat, from: nat, to: nat, mark: bool)
    returns (pieces: seq<Piece>)
    requires start <= from <= to <= |body| && Untagged(before) == body[start..from]
    ensures Untagged(pieces) == body[start..to]
    ensures Marked(pieces) == if mark then Marked(before) + [body[from..to]] else Marked(before)
  {
    var text := body[from..to];
    var piece := if mark then Emphasised(text) else Plain(text);
    Snoc(before, piece);
    NilRight(Marked(before));
    Slices(body, start, from, to);
    pieces := before + [piece];
  }

  lemma Slices(s: string, a: nat, b: nat, c: nat)
    requires a <= b <= c <= |s|
    ensures s[a..b] + s[b..c] == s[a..c]
  {
  }

  lemma PlacedWindow(low: string, ws: seq<Weighted>, k: nat, size: nat)
    requires Placed(low, ws, 0, |low|) && k + size <= |ws|
    ensures Placed(low, ws[k..k + size], 0, |low|)
  {
    var window := ws[k..k + size];
    forall i | 0 <= i < |window|
      ensures PlacedAt(low, window[i], 0, |low|)
    {
      assert PlacedAt(low, ws[k + i], 0, |low|);
    }
  }

  /** What the teaser of a body with words must be: the text under the chosen window, which is the
      last one of maximal weight when a term was found and the first one when not. */
  ghost predicate IsTeaser(body: string, low: string, ws: seq<Weighted>, found: bool, size: nat, k: nat,
                           pieces: seq<Piece>, text: string)
    requires |low| == |body| && Placed(low, ws, 0, |low|) && 0 < size && k + size <= |ws|
  {
    var window := ws[k..k + size];
    && Chosen(ws, size, found, k)
    && Covers(body, window, pieces) && text == Rendered(pieces) && Reads(body, window, text)
  }

  /** Of a body that holds no tags (it is escaped), the text without its tags is the slice itself, and what
      it emphasises is the body text under the search terms of the window. */
  ghost predicate Reads(body: string, window: seq<Weighted>, text: string)
    requires window != []
    requires window[0].index <= window[|window| - 1].index + |window[|window| - 1].word| <= |body|
  {
    '<' !in body ==>
      && StripTags(text) == Under(body, window)
      && Within(body, window) && Emphases(text) == Somes(TermTexts(body, window, |window|))
  }

  /** Without its tags the result is one contiguous slice of the body, from the start of the first
      word to the end of the last, and what is emphasised is exactly the search terms. */
  ghost predicate Covers(body: string, window: seq<Weighted>, pieces: seq<Piece>)
    requires window != []
  {
    && window[0].index <= window[|window| - 1].index + |window[|window| - 1].word| <= |body|
    && Untagged(pieces) == Under(body, window)
    && Within(body, window)
    && Marked(pieces) == TermTexts(body, window, |window|)
  }

  /** The text from the first to the last word of a window. */
  function Under(body: string, window: seq<Weighted>): string
    requires window != []
    requires window[0].index <= window[|window| - 1].index + |window[|window| - 1].word| <= |body|
  {
    body[window[0].index..window[|window| - 1].index + |window[|window| - 1].word|]
  }

  ghost predicate Chosen(ws: seq<Weighted>, size: nat, found: bool, k: nat)
    requires 0 < size && k + size <= |ws|
  {
    && (!found ==> k == 0)
    && (found ==> forall i :: 0 <= i <= |ws| - size ==> WindowSum(ws, i, size) <= WindowSum(ws, k, size))
    && (found ==> forall i :: k < i <= |ws| - size ==> WindowSum(ws, i, size) < WindowSum(ws, k, size))
  }

  method ChooseWindow(low: string, isTerm: string -> bool, ws: seq<Weighted>, found: bool, size: nat) returns (k: nat)
    requires ws == WordsOf(low, isTerm) && 0 < size <= |ws|
    ensures k + size <= |ws| && Chosen(ws, size, found, k)
  {
    var sums := WindowWeights(ws, size);
    AllPositive(low, isTerm, size, sums);
    k := BestWindow(sums, found);
    assert forall i :: 0 <= i <= |ws| - size ==> WindowSum(ws, i, size) == sums[i];
  }

  method TeaserOfWords(body: string, low: string, isTerm: string -> bool, ws: seq<Weighted>, found: bool, size: nat)
    returns (text: string, ghost pieces: seq<Piece>, ghost k: nat)
    requires |low| == |body| && ws == WordsOf(low, isTerm) && 0 < size <= |ws| && Placed(low, ws, 0, |low|)
    ensures k + size <= |ws| && IsTeaser(body, low, ws, found, size, k, pieces, text)
  {
    var best := ChooseWindow(low, isTerm, ws, found, size);
    k := best;
    PlacedWindow(low, ws, best, size);
    text, pieces := WindowText(body, low, ws[best..best + size]);
  }

  method WindowText(body: string, ghost low: string, window: seq<Weighted>)
    returns (text: string, ghost pieces: seq<Piece>)
    requires window != [] && |low| == |body| && Placed(low, window, 0, |body|)
    ensures Covers(body, window, pieces) && text == Rendered(pieces) && Reads(body, window, text)
  {
    var marked := MarkWindow(body, low, window);
    text, pieces := Rendered(marked), marked;
    if '<' !in body {
      StripJoined(marked);
    }
  }

  /** The whole computation: `pieces` is what the text is joined from and `k` the chosen window. A
      body without words is its own teaser, and a window of no words has an empty one. */
  method MakeTeaser(body: string, low: string, isTerm: string -> bool, wordCount: nat)
    returns (text: string, ghost pieces: seq<Piece>, ghost ws: seq<Weighted>, ghost k: nat)
    requires |low| == |body|
    ensures ws == WordsOf(low, isTerm) && Placed(low, ws, 0, |low|)
    ensures ws == [] ==> text == body
    ensures ws != [] && wordCount == 0 ==> text == ""
    ensures var size := if |ws| < wordCount then |ws| else wordCount;
            size > 0 ==> && k + size <= |ws|
                         && IsTeaser(body, low, ws, AnyTerm(ws, isTerm), size, k, pieces, text)
  {
    WordsArePlaced(low, isTerm);
    var words, found := WeighWords(low, isTerm);
    ws, k, pieces := words, 0, [];
    if words == [] {
      return body, [], ws, 0;
    }
    var size := if |words| < wordCount then |words| else wordCount;
    if size == 0 {
      return "", [], ws, 0;
    }
    text, pieces, k := TeaserOfWords(body, low, isTerm, words, found, size);
  }

  lemma AllPositive(low: string, isTerm: string -> bool, size: nat, sums: seq<int>)
    requires var ws := WordsOf(low, isTerm);
             && 0 < size <= |ws| && |sums| == |ws| - size + 1
             && forall i :: 0 <= i < |sums| ==> sums[i] == WindowSum(ws, i, size)
    ensures forall i :: 0 <= i < |sums| ==> sums[i] > 0
  {
    var ws := WordsOf(low, isTerm);
    var sentences := SplitBy(low, ". ");
    WordWeights(sentences, |sentences|, isTerm);
    forall i | 0 <= i < |sums|
      ensures sums[i] > 0
    {
      var window := ws[i..i + size];
      assert forall j :: 0 <= j < |window| ==> window[j] == ws[i + j];
      SumPositive(window);
    }
  }
}
