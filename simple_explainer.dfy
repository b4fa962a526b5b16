/**
  The perturbation explainer: it scores the text with each word, and each run of
  up to `ngram` consecutive word ids, removed; ranks the removals by how much they
  lowered the target class's score; and reports the top snippets.
*/
module SimpleExplainer {
  import opened Common
  import opened IndexedText

  /** Classifier output for one text: (score of class 0, score of class 1). */
  type ScorePair = (real, real)

  /** The class whose score is explained. */
  type Label = l: nat | l < 2

  /** An n-gram limit the constructor accepts. */
  type NgramSize = n: nat | n >= 1 witness 1

  /** The configuration the constructor stores. */
  datatype Explainer = Explainer(ngram: NgramSize, threshold: real)

  /** The constructor; a failed `ngram >= 1` assertion gives None. */
  function NewExplainer(ngram: int, threshold: real): (r: Option<Explainer>)
    ensures r.Some? <==> ngram >= 1
    ensures r.Some? ==> r.value.ngram == ngram && r.value.threshold == threshold
  {
    if ngram >= 1 then Some(Explainer(ngram, threshold)) else None
  }

  function Prob(p: ScorePair, target: Label): real
  {
    if target == 0 then p.0 else p.1
  }

  // ---------------------------------------------------------------------------
  // The flat order of perturbations

  /** How many (n+1)-grams a text of `numWords` words has. */
  function BlockSize(numWords: nat, n: nat): nat
  {
    if n < numWords then numWords - n else 0
  }

  /** How many perturbations the n-gram sizes 1 .. g give together. */
  function Total(numWords: nat, g: nat): nat
  {
    if g == 0 then 0 else Total(numWords, g - 1) + BlockSize(numWords, g - 1)
  }

  /** The word ids start, start + 1, ..., start + len - 1. */
  function Span(start: nat, len: nat): (r: seq<nat>)
    ensures |r| == len
    ensures forall k :: 0 <= k < len ==> r[k] == start + k
  {
    seq(len, k => start + k)
  }

  /** The (size)-grams starting at word ids 0 .. count - 1. */
  function Grams(count: nat, size: nat): (r: seq<seq<nat>>)
    ensures |r| == count
    ensures forall i :: 0 <= i < count ==> r[i] == Span(i, size)
  {
    seq(count, i requires 0 <= i < count => Span(i, size))
  }

  /** The word ids each perturbation removes, in the order the samples are built:
      first every unigram, then every bigram, and so on up to g-grams. */
  function Perturbations(numWords: nat, g: nat): (r: seq<seq<nat>>)
    ensures |r| == Total(numWords, g)
  {
    if g == 0 then []
    else Perturbations(numWords, g - 1) + Grams(BlockSize(numWords, g - 1), g)
  }

  lemma {:induction false} TotalMonotone(numWords: nat, g: nat, h: nat)
    requires g <= h
    ensures Total(numWords, g) <= Total(numWords, h)
    decreases h
  {
    if g < h { TotalMonotone(numWords, g, h - 1); }
  }

  /** Beyond the text's length, larger n-grams add no perturbations. */
  lemma {:induction false} TotalSaturates(numWords: nat, g: nat)
    ensures Total(numWords, g) <= Total(numWords, numWords)
    ensures g >= numWords ==> Total(numWords, g) == Total(numWords, numWords)
    decreases g
  {
    if g > numWords {
      TotalSaturates(numWords, g - 1);
    } else if g < numWords {
      TotalMonotone(numWords, g, numWords);
    }
  }

  /** With every n-gram size, a text of N words has N (N + 1) / 2 perturbations. */
  lemma {:induction false} TotalClosedForm(numWords: nat, g: nat)
    requires g <= numWords
    ensures 2 * Total(numWords, g) == g * (2 * numWords - g + 1)
    decreases g
  {
    if g > 0 {
      TotalClosedForm(numWords, g - 1);
      assert Total(numWords, g) == Total(numWords, g - 1) + (numWords - g + 1);
      assert (g - 1) * (2 * numWords - g + 2) + 2 * (numWords - g + 1) == g * (2 * numWords - g + 1);
    }
  }

  /** The perturbation for an (n+1)-gram starting at word i sits at flat index
      Total(N, n) + i and removes exactly the ids i .. i + n. */
  lemma {:induction false} PerturbationAt(numWords: nat, g: nat, n: nat, i: nat)
    requires n < g && i < BlockSize(numWords, n)
    ensures Total(numWords, n) + i < Total(numWords, g)
    ensures Perturbations(numWords, g)[Total(numWords, n) + i] == Span(i, n + 1)
    decreases g
  {
    if n < g - 1 {
      PerturbationAt(numWords, g - 1, n, i);
    }
  }

  // ---------------------------------------------------------------------------
  // Inverting the flat order

  /** An n-gram of `size` words whose first word id is `first`. */
  datatype Ngram = Ngram(size: nat, first: nat)

  /** Finds the n-gram at flat index j, searching from size n + 1 upwards. */
  function LocateFrom(numWords: nat, j: nat, n: nat): (r: Ngram)
    requires n < numWords
    requires Total(numWords, n) <= j < Total(numWords, numWords)
    ensures n < r.size <= numWords
    ensures r.first < BlockSize(numWords, r.size - 1)
    ensures Total(numWords, r.size - 1) + r.first == j
    decreases numWords - n
  {
    if j < Total(numWords, n + 1) then Ngram(n + 1, j - Total(numWords, n))
    else LocateFrom(numWords, j, n + 1)
  }

  /** The n-gram whose removal gives the sample at flat index j. */
  function Locate(numWords: nat, j: nat): (r: Ngram)
    requires j < Total(numWords, numWords)
    ensures 1 <= r.size <= numWords
    ensures r.first < BlockSize(numWords, r.size - 1)
    ensures Total(numWords, r.size - 1) + r.first == j
  {
    LocateFrom(numWords, j, 0)
  }

  /** Locating the flat index of an (n+1)-gram starting at i gives back that n-gram. */
  lemma {:induction false} LocateFlatIndex(numWords: nat, n: nat, i: nat)
    requires n < numWords && i < BlockSize(numWords, n)
    ensures Total(numWords, n) + i < Total(numWords, numWords)
    ensures Locate(numWords, Total(numWords, n) + i) == Ngram(n + 1, i)
  {
    var j := Total(numWords, n) + i;
    assert j < Total(numWords, n + 1);
    TotalMonotone(numWords, n + 1, numWords);
    var r := Locate(numWords, j);
    var m := r.size - 1;
    assert Total(numWords, m) <= j < Total(numWords, m + 1) by {
      assert Total(numWords, m + 1) == Total(numWords, m) + BlockSize(numWords, m);
    }
    BlocksDisjoint(numWords, m, n, j);
  }

  /** A flat index lies in the block of one n-gram size only. */
  lemma BlocksDisjoint(numWords: nat, m: nat, n: nat, j: nat)
    requires Total(numWords, m) <= j < Total(numWords, m + 1)
    requires Total(numWords, n) <= j < Total(numWords, n + 1)
    ensures m == n
  {
    if m < n {
      TotalMonotone(numWords, m + 1, n);
    } else if n < m {
      TotalMonotone(numWords, n + 1, m);
    }
  }

  /** The ids get_word_ids returns for flat index j. */
  function WordIds(numWords: nat, j: nat): (r: seq<nat>)
    requires j < Total(numWords, numWords)
    ensures 1 <= |r| <= numWords
    ensures forall k :: 0 <= k < |r| ==> r[k] == r[0] + k
    ensures forall w :: w in r ==> w < numWords
  {
    var ng := Locate(numWords, j);
    Span(ng.first, ng.size)
  }

  /** Enumeration and inversion agree: for any n-gram limit g, the ids returned for
      flat index j are the ids removed to build sample j + 1. */
  lemma {:induction false} WordIdsArePerturbation(numWords: nat, g: nat, j: nat)
    requires j < Total(numWords, g)
    ensures j < Total(numWords, numWords)
    ensures WordIds(numWords, j) == Perturbations(numWords, g)[j]
  {
    TotalSaturates(numWords, g);
    var ng := Locate(numWords, j);
    if ng.size > g {
      TotalMonotone(numWords, g, ng.size - 1);
    }
    PerturbationAt(numWords, g, ng.size - 1, ng.first);
  }

  /** `get_word_ids`: walks the blocks of n-grams of growing size, keeping the flat
      index where the current block begins (`offset`) and ends (`upper`). */
  method GetWordIds(numWords: nat, start: nat) returns (wordIds: seq<nat>)
    requires start < Total(numWords, numWords)
    ensures wordIds == WordIds(numWords, start)
  {
    var ngram: nat := 1;
    var upper: int := numWords;
    var offset: int := 0;
    while upper <= start
      invariant 1 <= ngram <= numWords
      invariant offset == Total(numWords, ngram - 1) && upper == Total(numWords, ngram)
      invariant offset <= start
      invariant Locate(numWords, start) == LocateFrom(numWords, start, ngram - 1)
      decreases numWords - ngram
    {
      var length := numWords - ngram;
      upper := upper + length;
      offset := offset + length + 1;
      ngram := ngram + 1;
    }
    var first := start - offset;
    wordIds := seq(ngram, k => first + k);
  }

  /** `get_text_snippet`: the words of the n-gram at flat index `start`, joined with no separator. */
  function TextSnippet(s: IndexedString, start: nat): (r: string)
    requires start < Total(s.NumWords(), s.NumWords())
    ensures var ng := Locate(s.NumWords(), start);
      r == Concat(s.words[ng.first .. ng.first + ng.size])
  {
    var ids := WordIds(s.NumWords(), start);
    var words := seq(|ids|, k requires 0 <= k < |ids| => s.words[ids[k]]);
    assert words == s.words[ids[0] .. ids[0] + |ids|];
    Concat(words)
  }

  // ---------------------------------------------------------------------------
  // Sampling

  /** The texts sent to the classifier: the raw text, then each perturbation's text. */
  function InverseData(s: IndexedString, g: nat): (r: seq<string>)
    ensures |r| == 1 + Total(s.NumWords(), g)
    ensures |r| <= 1 + Total(s.NumWords(), s.NumWords())
    ensures r[0] == s.raw
    ensures forall j :: 0 <= j < Total(s.NumWords(), g) ==>
      r[j + 1] == s.removing(Perturbations(s.NumWords(), g)[j])
  {
    TotalSaturates(s.NumWords(), g);
    var p := Perturbations(s.NumWords(), g);
    [s.raw] + seq(|p|, k requires 0 <= k < |p| => s.removing(p[k]))
  }

  /** `__data_labels` without the classifier call: builds the texts to score. */
  method DataLabels(s: IndexedString, ngram: nat) returns (inverseData: seq<string>)
    ensures inverseData == InverseData(s, ngram)
  {
    var docSize := s.NumWords();
    inverseData := [s.raw];
    ghost var done: seq<seq<nat>> := [];
    for n := 0 to ngram
      invariant done == Perturbations(docSize, n)
      invariant |inverseData| == 1 + |done| && inverseData[0] == s.raw
      invariant forall k :: 0 <= k < |done| ==> inverseData[k + 1] == s.removing(done[k])
    {
      var i := 0;
      while i < docSize - n
        invariant i <= BlockSize(docSize, n)
        invariant done == Perturbations(docSize, n) + Grams(i, n + 1)
        invariant |inverseData| == 1 + |done| && inverseData[0] == s.raw
        invariant forall k :: 0 <= k < |done| ==> inverseData[k + 1] == s.removing(done[k])
      {
        var inactive := seq(n + 1, x => i + x);
        assert inactive == Span(i, n + 1);
        inverseData := inverseData + [s.removing(inactive)];
        done := done + [inactive];
        assert Grams(i + 1, n + 1) == Grams(i, n + 1) + [Span(i, n + 1)];
        i := i + 1;
      }
      assert i == BlockSize(docSize, n);
    }
  }

  // ---------------------------------------------------------------------------
  // Distances and the n-gram filter

  /** How much removing the words of sample i + 1 changed the score. */
  function Raw(labels: seq<ScorePair>, target: Label, i: nat): real
    requires i + 1 < |labels|
  {
    Prob(labels[i + 1], target) - Prob(labels[0], target)
  }

  /** The n-gram at flat index i lowered the score less than one of its words did on
      its own: its score change is greater than that word's (Raw(i) > Raw(k)). */
  predicate OutdoneByAWord(labels: seq<ScorePair>, target: Label, numWords: nat, i: nat)
    requires numWords <= i && i + 1 < |labels| && i < Total(numWords, numWords)
  {
    exists k :: k in WordIds(numWords, i) && Raw(labels, target, i) > Raw(labels, target, k)
  }

  /** The distance of flat index i after the filter. The loop stops one short of the
      last sample, whose distance stays 0. */
  function Distance(labels: seq<ScorePair>, target: Label, numWords: nat, i: nat): real
    requires i + 1 < |labels| <= 1 + Total(numWords, numWords)
  {
    if i == |labels| - 2 then 0.0
    else if i < numWords then Raw(labels, target, i)
    else if OutdoneByAWord(labels, target, numWords, i) then 0.0
    else Raw(labels, target, i)
  }

  function Distances(labels: seq<ScorePair>, target: Label, numWords: nat): (d: seq<real>)
    requires 1 <= |labels| <= 1 + Total(numWords, numWords)
    ensures |d| == |labels| - 1
    ensures forall i :: 0 <= i < |d| ==> d[i] == Distance(labels, target, numWords, i)
  {
    seq(|labels| - 1, i requires 0 <= i < |labels| - 1 => Distance(labels, target, numWords, i))
  }

  /** Every distance but the last is the raw score change or 0; it is 0 instead of the
      raw change only for an n-gram (i >= numWords) whose score change is greater than
      that of one of its words on its own, that is, which lowered the score less. */
  lemma {:induction false} DistanceZeroing(labels: seq<ScorePair>, target: Label, numWords: nat, i: nat)
    requires i + 2 < |labels| <= 1 + Total(numWords, numWords)
    ensures Distance(labels, target, numWords, i) == Raw(labels, target, i) ||
            Distance(labels, target, numWords, i) == 0.0
    ensures Distance(labels, target, numWords, i) != Raw(labels, target, i) ==>
      numWords <= i &&
      exists k :: k in WordIds(numWords, i) &&
        Raw(labels, target, i) > Distance(labels, target, numWords, k)
  {
    if numWords <= i && OutdoneByAWord(labels, target, numWords, i) {
      var k :| k in WordIds(numWords, i) && Raw(labels, target, i) > Raw(labels, target, k);
      assert Distance(labels, target, numWords, k) == Raw(labels, target, k);
    }
  }

  /** The last sample is never scored. */
  lemma LastDistanceIsZero(labels: seq<ScorePair>, target: Label, numWords: nat)
    requires 2 <= |labels| <= 1 + Total(numWords, numWords)
    ensures Distance(labels, target, numWords, |labels| - 2) == 0.0
  {
  }

  /** After the filter, a nonzero n-gram distance is at most the distance of each of
      its words: a phrase that keeps its score lowered the score at least as much as
      each word inside it, so it ranks no lower than any of them. */
  lemma {:induction false} NgramNotAboveItsWords(labels: seq<ScorePair>, target: Label, numWords: nat, i: nat)
    requires numWords <= i && i + 2 < |labels| <= 1 + Total(numWords, numWords)
    requires Distance(labels, target, numWords, i) != 0.0
    ensures forall k :: k in WordIds(numWords, i) ==>
      Distance(labels, target, numWords, i) <= Distance(labels, target, numWords, k)
  {
    forall k | k in WordIds(numWords, i)
      ensures Distance(labels, target, numWords, i) <= Distance(labels, target, numWords, k)
    {
      assert Distance(labels, target, numWords, k) == Raw(labels, target, k);
      assert !OutdoneByAWord(labels, target, numWords, i);
    }
  }

  // ---------------------------------------------------------------------------
  // Ranking

  /** `order` lists each of the indices 0 .. n - 1 of `d` once, by ascending value of `d`. */
  predicate SortsPrefix(order: seq<nat>, d: seq<real>, n: nat)
  {
    n <= |d| && |order| == n &&
    (forall k :: 0 <= k < |order| ==> order[k] < n) &&
    (forall k, l :: 0 <= k < l < |order| ==> order[k] != order[l]) &&
    (forall k, l :: 0 <= k < l < |order| ==> d[order[k]] <= d[order[l]])
  }

  /** `order` lists each index of `d` once, by ascending value of `d`; ties in any order. */
  predicate IsArgSort(order: seq<nat>, d: seq<real>)
  {
    SortsPrefix(order, d, |d|)
  }

  /** Putting index x at position p, after the indices whose values do not exceed d[x]
      and before those whose values do, extends a sorted prefix by x. */
  lemma {:induction false} InsertIndex(order: seq<nat>, d: seq<real>, x: nat, p: nat)
    requires x < |d| && SortsPrefix(order, d, x)
    requires p <= |order|
    requires forall q :: 0 <= q < p ==> d[order[q]] <= d[x]
    requires forall q :: p <= q < |order| ==> d[x] < d[order[q]]
    ensures SortsPrefix(order[..p] + [x] + order[p..], d, x + 1)
  {
    var o := order[..p] + [x] + order[p..];
    assert forall k :: 0 <= k < p ==> o[k] == order[k];
    assert o[p] == x;
    assert forall k :: p < k < |o| ==> o[k] == order[k - 1];
    forall k, l | 0 <= k < l < |o| ensures o[k] != o[l] && d[o[k]] <= d[o[l]] {
      if l < p {
      } else if l == p {
      } else if k < p {
      } else if k == p {
      } else {
      }
    }
  }

  /** `np.argsort`, as an insertion sort of the indices. */
  method ArgSort(d: seq<real>) returns (order: seq<nat>)
    ensures IsArgSort(order, d)
  {
    order := [];
    var x := 0;
    while x < |d|
      invariant SortsPrefix(order, d, x)
    {
      var p := 0;
      while p < |order| && d[order[p]] <= d[x]
        invariant 0 <= p <= |order|
        invariant forall q :: 0 <= q < p ==> d[order[q]] <= d[x]
      {
        p := p + 1;
      }
      InsertIndex(order, d, x, p);
      order := order[..p] + [x] + order[p..];
      x := x + 1;
    }
  }

  /** The loop of `explain_instance` that fills the zeroed `distance` array: the raw
      score change of every sample but the last, set back to 0 for an n-gram that some
      word of it beats on its own. */
  method FilterDistances(labels: seq<ScorePair>, target: Label, numWords: nat, distance: array<real>)
    requires 1 <= |labels| <= 1 + Total(numWords, numWords)
    requires distance.Length == |labels| - 1
    requires forall j :: 0 <= j < distance.Length ==> distance[j] == 0.0
    modifies distance
    ensures distance[..] == Distances(labels, target, numWords)
  {
    var base := Prob(labels[0], target);
    var numSamples := distance.Length;
    for i := 0 to if numSamples > 0 then numSamples - 1 else 0
      invariant forall j :: 0 <= j < i ==> distance[j] == Distance(labels, target, numWords, j)
      invariant forall j :: i <= j < numSamples ==> distance[j] == 0.0
    {
      distance[i] := Prob(labels[i + 1], target) - base;
      if i < numWords {
        continue;
      }
      var wordIds := GetWordIds(numWords, i);
      ghost var before := distance[..];
      var t := 0;
      while t < |wordIds|
        invariant 0 <= t <= |wordIds|
        invariant distance[..] == before
        invariant forall q :: 0 <= q < t ==> !(Raw(labels, target, i) > Raw(labels, target, wordIds[q]))
      {
        assert distance[wordIds[t]] == Distance(labels, target, numWords, wordIds[t]);
        if distance[i] > distance[wordIds[t]] {
          distance[i] := 0.0;
          break;
        }
        t := t + 1;
      }
      assert forall j :: 0 <= j < numSamples && j != i ==> distance[j] == before[j];
    }
    assert distance[..] == Distances(labels, target, numWords);
  }

  /** The loop of `explain_instance` that lists the first `count` samples of `order`,
      each as its snippet with minus its distance, so by non-increasing score. */
  method TopFeatures(s: IndexedString, d: seq<real>, order: seq<nat>, count: nat)
    returns (result: seq<(string, real)>)
    requires IsArgSort(order, d) && |d| <= Total(s.NumWords(), s.NumWords()) && count <= |d|
    ensures |result| == count
    ensures forall q :: 0 <= q < count ==> result[q] == (TextSnippet(s, order[q]), -d[order[q]])
    ensures forall k, l :: 0 <= k < l < |result| ==> result[k].1 >= result[l].1
  {
    result := [];
    for k := 0 to count
      invariant |result| == k
      invariant forall q :: 0 <= q < k ==> result[q] == (TextSnippet(s, order[q]), -d[order[q]])
    {
      var start := order[k];
      var snippet := TextSnippet(s, start);
      var score := -d[start];
      result := result + [(snippet, score)];
    }
  }

  /** `explain_instance` on an already indexed text. None when the raw text's score is
      below the threshold; otherwise the min(numFeatures, numSamples) samples with the
      smallest distances, each as (its snippet, minus its distance). */
  method ExplainInstance(e: Explainer, s: IndexedString, classifier: seq<string> -> seq<ScorePair>,
                         numFeatures: nat, target: Label)
    returns (r: Option<seq<(string, real)>>)
    requires |classifier(InverseData(s, e.ngram))| == |InverseData(s, e.ngram)|
    ensures var labels := classifier(InverseData(s, e.ngram));
      r.None? <==> Prob(labels[0], target) < e.threshold
    ensures var labels := classifier(InverseData(s, e.ngram));
      r.Some? ==> |r.value| == Min(numFeatures, |labels| - 1)
    ensures var labels := classifier(InverseData(s, e.ngram));
      var d := Distances(labels, target, s.NumWords());
      r.Some? ==> (exists order :: IsArgSort(order, d) &&
                     (forall k :: 0 <= k < |r.value| ==> r.value[k] == (TextSnippet(s, order[k]), -d[order[k]])))
    ensures r.Some? ==> forall k, l :: 0 <= k < l < |r.value| ==> r.value[k].1 >= r.value[l].1
  {
    var numWords := s.NumWords();
    var inverseData := DataLabels(s, e.ngram);
    var labels := classifier(inverseData);
    var base := Prob(labels[0], target);
    if base < e.threshold {
      return None;
    }
    var numSamples := |labels| - 1;
    var distance := new real[numSamples](_ => 0.0);
    FilterDistances(labels, target, numWords, distance);
    var d := distance[..];
    var order := ArgSort(d);
    var result := TopFeatures(s, d, order, Min(numFeatures, numSamples));
    return Some(result);
  }
}
