/**
  The phrase merger that turns an explanation's weighted words into a rule string:
  adjacent top words are glued into phrases, the rest kept when heavy enough, and the
  pieces sorted and joined with '&'.
*/
module PostProcess {
  import opened Common
  import opened IndexedText
  import opened Sorting

  /** The field separator of the explanation records ('\001'). */
  const SOH: char := '\U{0001}'

  /** `abs(p - q)` */
  function Gap(p: int, q: int): nat
  {
    if p < q then q - p else p - q
  }

  // ---------------------------------------------------------------------------
  // min_distance

  /** Where a scan over the second word's positions stopped: at a pair at most one
      apart, or at the end with the smallest distance seen so far. */
  datatype Scan = Early(dist: nat) | Running(least: int)

  /** The inner loop of `min_distance` for one position p1 of the first word. */
  function ScanRow(p1: int, pos2: seq<int>, least: int): Scan
    decreases |pos2|
  {
    if pos2 == [] then Running(least)
    else
      var dist := Gap(p1, pos2[0]);
      if dist <= 1 then Early(dist)
      else ScanRow(p1, pos2[1..], if dist < least then dist else least)
  }

  /** Both loops of `min_distance`, starting from the running minimum `least`. */
  function ScanRows(pos1: seq<int>, pos2: seq<int>, least: int): int
    decreases |pos1|
  {
    if pos1 == [] then least
    else
      match ScanRow(pos1[0], pos2, least)
      case Early(dist) => dist
      case Running(m) => ScanRows(pos1[1..], pos2, m)
  }

  /** What `min_distance` returns for two word ids of an indexed text. */
  function MinDistanceOf(s: IndexedString, id1: nat, id2: nat): int
    requires s.Valid() && id1 < |s.words| && id2 < |s.words|
  {
    if id1 == id2 then 0
    else if Gap(id1, id2) == 1 then 1
    else ScanRows(s.positions[id1], s.positions[id2], |s.words|)
  }

  /** The row scan finds the first position of the second word within one of p1,
      and otherwise the smaller of `least` and the closest gap. */
  lemma {:induction false} ScanRowResult(p1: int, pos2: seq<int>, least: int)
    ensures ScanRow(p1, pos2, least).Early? <==> exists b :: 0 <= b < |pos2| && Gap(p1, pos2[b]) <= 1
    ensures ScanRow(p1, pos2, least).Early? ==>
      exists b :: 0 <= b < |pos2| && Gap(p1, pos2[b]) <= 1 && ScanRow(p1, pos2, least).dist == Gap(p1, pos2[b]) &&
        forall c :: 0 <= c < b ==> Gap(p1, pos2[c]) > 1
    ensures ScanRow(p1, pos2, least).Running? ==>
      var m := ScanRow(p1, pos2, least).least;
      m <= least && (forall b :: 0 <= b < |pos2| ==> m <= Gap(p1, pos2[b])) &&
      (m == least || exists b :: 0 <= b < |pos2| && m == Gap(p1, pos2[b]))
    decreases |pos2|
  {
    if pos2 != [] {
      var dist := Gap(p1, pos2[0]);
      var rest := pos2[1..];
      if dist > 1 {
        var next := if dist < least then dist else least;
        ScanRowResult(p1, rest, next);
        assert forall b :: 1 <= b < |pos2| ==> pos2[b] == rest[b - 1];
        if ScanRow(p1, rest, next).Early? {
          var b :| 0 <= b < |rest| && Gap(p1, rest[b]) <= 1 && ScanRow(p1, rest, next).dist == Gap(p1, rest[b]) &&
            forall c :: 0 <= c < b ==> Gap(p1, rest[c]) > 1;
          assert Gap(p1, pos2[b + 1]) <= 1;
        } else {
          var m := ScanRow(p1, rest, next).least;
          if m != next {
            var b :| 0 <= b < |rest| && m == Gap(p1, rest[b]);
            assert m == Gap(p1, pos2[b + 1]);
          } else if next == dist {
            assert m == Gap(p1, pos2[0]);
          }
        }
      }
    }
  }

  /** Some occurrence of the first word is within one position of one of the second. */
  predicate AnyClose(pos1: seq<int>, pos2: seq<int>)
  {
    exists a, b :: 0 <= a < |pos1| && 0 <= b < |pos2| && Gap(pos1[a], pos2[b]) <= 1
  }

  /** (a, b) is the first close pair of occurrences in the order the loops visit them. */
  predicate FirstClose(pos1: seq<int>, pos2: seq<int>, a: int, b: int)
  {
    0 <= a < |pos1| && 0 <= b < |pos2| && Gap(pos1[a], pos2[b]) <= 1 &&
    forall a', b' :: 0 <= a' < |pos1| && 0 <= b' < |pos2| && (a' < a || (a' == a && b' < b)) ==>
      Gap(pos1[a'], pos2[b']) > 1
  }

  /** With no close pair in the first row, some close pair lies in the remaining rows. */
  lemma AnyCloseRest(pos1: seq<int>, pos2: seq<int>)
    requires AnyClose(pos1, pos2) && pos1 != []
    requires forall b :: 0 <= b < |pos2| ==> Gap(pos1[0], pos2[b]) > 1
    ensures AnyClose(pos1[1..], pos2)
  {
    var a0, b0 :| 0 <= a0 < |pos1| && 0 <= b0 < |pos2| && Gap(pos1[a0], pos2[b0]) <= 1;
    assert pos1[1..][a0 - 1] == pos1[a0];
  }

  /** The first close pair of the remaining rows is the first overall when the first row has none. */
  lemma FirstCloseShift(pos1: seq<int>, pos2: seq<int>, a: int, b: int)
    requires pos1 != [] && FirstClose(pos1[1..], pos2, a, b)
    requires forall b :: 0 <= b < |pos2| ==> Gap(pos1[0], pos2[b]) > 1
    ensures FirstClose(pos1, pos2, a + 1, b)
  {
    var rest := pos1[1..];
    forall a', b' | 0 <= a' < |pos1| && 0 <= b' < |pos2| && (a' < a + 1 || (a' == a + 1 && b' < b))
      ensures Gap(pos1[a'], pos2[b']) > 1
    {
      if a' > 0 {
        assert pos1[a'] == rest[a' - 1];
      }
    }
    assert pos1[a + 1] == rest[a];
  }

  /** With a close pair, the scan returns the distance of the first one. */
  lemma {:induction false} ScanRowsFirstClose(pos1: seq<int>, pos2: seq<int>, least: int)
    requires AnyClose(pos1, pos2)
    ensures exists a, b :: FirstClose(pos1, pos2, a, b) && ScanRows(pos1, pos2, least) == Gap(pos1[a], pos2[b])
    decreases |pos1|
  {
    ScanRowResult(pos1[0], pos2, least);
    var row := ScanRow(pos1[0], pos2, least);
    if row.Early? {
      var b :| 0 <= b < |pos2| && Gap(pos1[0], pos2[b]) <= 1 && row.dist == Gap(pos1[0], pos2[b]) &&
        forall c :: 0 <= c < b ==> Gap(pos1[0], pos2[c]) > 1;
      assert FirstClose(pos1, pos2, 0, b);
    } else {
      var rest := pos1[1..];
      AnyCloseRest(pos1, pos2);
      ScanRowsFirstClose(rest, pos2, row.least);
      var a, b :| FirstClose(rest, pos2, a, b) && ScanRows(rest, pos2, row.least) == Gap(rest[a], pos2[b]);
      FirstCloseShift(pos1, pos2, a, b);
      assert rest[a] == pos1[a + 1];
    }
  }


  /** Without a close pair, the scan returns the smaller of `least` and every gap. */
  lemma {:induction false} ScanRowsNoClose(pos1: seq<int>, pos2: seq<int>, least: int)
    requires !AnyClose(pos1, pos2)
    ensures ScanRows(pos1, pos2, least) <= least
    ensures forall a, b :: 0 <= a < |pos1| && 0 <= b < |pos2| ==> ScanRows(pos1, pos2, least) <= Gap(pos1[a], pos2[b])
    ensures ScanRows(pos1, pos2, least) == least ||
      exists a, b :: 0 <= a < |pos1| && 0 <= b < |pos2| && ScanRows(pos1, pos2, least) == Gap(pos1[a], pos2[b])
    decreases |pos1|
  {
    if pos1 != [] {
      var rest := pos1[1..];
      assert forall a :: 1 <= a < |pos1| ==> pos1[a] == rest[a - 1];
      ScanRowResult(pos1[0], pos2, least);
      var m := ScanRow(pos1[0], pos2, least).least;
      assert !AnyClose(rest, pos2) by {
        forall a, b | 0 <= a < |rest| && 0 <= b < |pos2| ensures Gap(rest[a], pos2[b]) > 1 {
          assert rest[a] == pos1[a + 1];
        }
      }
      ScanRowsNoClose(rest, pos2, m);
      var r := ScanRows(rest, pos2, m);
      assert ScanRows(pos1, pos2, least) == r;
      forall a, b | 0 <= a < |pos1| && 0 <= b < |pos2| ensures r <= Gap(pos1[a], pos2[b]) {
        if a > 0 {
          assert r <= Gap(rest[a - 1], pos2[b]);
        }
      }
      if r != least && r != m {
        var a, b :| 0 <= a < |rest| && 0 <= b < |pos2| && r == Gap(rest[a], pos2[b]);
        assert r == Gap(pos1[a + 1], pos2[b]);
      }
    }
  }

  /** `min_distance(indexed_string, word_id1, word_id2)`: nested loops over the
      occurrences of both words with early returns. */
  method MinDistance(s: IndexedString, id1: nat, id2: nat) returns (d: int)
    requires s.Valid() && id1 < |s.words| && id2 < |s.words|
    ensures d == MinDistanceOf(s, id1, id2)
  {
    if id1 == id2 {
      return 0;
    }
    if Gap(id1, id2) == 1 {
      return 1;
    }
    var pos1 := s.positions[id1];
    var pos2 := s.positions[id2];
    var minDist: int := |s.words|;
    for a := 0 to |pos1|
      invariant ScanRows(pos1[a..], pos2, minDist) == ScanRows(pos1, pos2, |s.words|)
    {
      ghost var rowStart := minDist;
      assert pos1[a..][0] == pos1[a] && pos1[a..][1..] == pos1[a + 1..];
      for b := 0 to |pos2|
        invariant ScanRow(pos1[a], pos2[b..], minDist) == ScanRow(pos1[a], pos2, rowStart)
      {
        assert pos2[b..][0] == pos2[b] && pos2[b..][1..] == pos2[b + 1..];
        var dist := Gap(pos1[a], pos2[b]);
        if dist <= 1 {
          return dist;
        }
        if dist < minDist {
          minDist := dist;
        }
      }
    }
    return minDist;
  }

  /** The cases of `min_distance`: 0 for the same id, 1 for neighbouring ids without
      looking at positions; otherwise the distance of the first pair of occurrences at
      most one apart, or failing that the smallest gap capped by the number of words.
      The result never exceeds the number of words. */
  lemma {:induction false} MinDistanceCases(s: IndexedString, id1: nat, id2: nat)
    requires s.Valid() && id1 < |s.words| && id2 < |s.words|
    ensures id1 == id2 ==> MinDistanceOf(s, id1, id2) == 0
    ensures id1 != id2 && Gap(id1, id2) == 1 ==> MinDistanceOf(s, id1, id2) == 1
    ensures 0 <= MinDistanceOf(s, id1, id2) <= |s.words|
    ensures id1 != id2 && Gap(id1, id2) != 1 && AnyClose(s.positions[id1], s.positions[id2]) ==>
      exists a, b :: FirstClose(s.positions[id1], s.positions[id2], a, b) &&
        MinDistanceOf(s, id1, id2) == Gap(s.positions[id1][a], s.positions[id2][b])
    ensures id1 != id2 && Gap(id1, id2) != 1 && !AnyClose(s.positions[id1], s.positions[id2]) ==>
      var pos1, pos2, d := s.positions[id1], s.positions[id2], MinDistanceOf(s, id1, id2);
      (forall a, b :: 0 <= a < |pos1| && 0 <= b < |pos2| ==> d <= Gap(pos1[a], pos2[b])) &&
      (d == |s.words| || exists a, b :: 0 <= a < |pos1| && 0 <= b < |pos2| && d == Gap(pos1[a], pos2[b]))
  {
    if id1 != id2 && Gap(id1, id2) != 1 {
      var pos1, pos2 := s.positions[id1], s.positions[id2];
      if AnyClose(pos1, pos2) {
        ScanRowsFirstClose(pos1, pos2, |s.words|);
      } else {
        ScanRowsNoClose(pos1, pos2, |s.words|);
      }
    }
  }

  // ---------------------------------------------------------------------------
  // merge

  /** A word-to-weight dictionary, in insertion order. */
  type Weights = seq<(string, real)>

  /** The word keys of `words`. */
  function Keys(words: Weights): set<string>
  {
    set k | 0 <= k < |words| :: words[k].0
  }

  /** No word occurs twice (as in a Python dict). */
  predicate KeysDistinct(words: Weights)
  {
    forall i, j :: 0 <= i < j < |words| ==> words[i].0 != words[j].0
  }

  /** `m` indexes the key words among the first `n` vocabulary words, the last occurrence winning. */
  predicate IndexUpTo(s: IndexedString, words: Weights, n: nat, m: map<string, nat>)
    requires n <= |s.words|
  {
    (forall w :: w in m ==> w in Keys(words) && m[w] < n && s.words[m[w]] == w) &&
    (forall i :: 0 <= i < n && s.words[i] in Keys(words) ==> s.words[i] in m) &&
    (forall w, i :: w in m && m[w] < i < n ==> s.words[i] != w)
  }

  lemma IndexAdd(s: IndexedString, words: Weights, n: nat, m: map<string, nat>)
    requires 0 < n <= |s.words| && IndexUpTo(s, words, n - 1, m) && s.words[n - 1] in Keys(words)
    ensures IndexUpTo(s, words, n, m[s.words[n - 1] := n - 1])
  {
  }

  lemma IndexSkip(s: IndexedString, words: Weights, n: nat, m: map<string, nat>)
    requires 0 < n <= |s.words| && IndexUpTo(s, words, n - 1, m) && s.words[n - 1] !in Keys(words)
    ensures IndexUpTo(s, words, n, m)
  {
  }

  /** `word2index` after the loop has visited the vocabulary ids 0 .. n - 1. */
  function WordIndex(s: IndexedString, words: Weights, n: nat): (m: map<string, nat>)
    requires n <= |s.words|
    ensures forall w :: w in m ==> w in Keys(words) && m[w] < n && s.words[m[w]] == w
    ensures forall i :: 0 <= i < n && s.words[i] in Keys(words) ==> s.words[i] in m
    ensures forall w, i :: w in m && m[w] < i < n ==> s.words[i] != w
  {
    if n == 0 then map[]
    else
      var m := WordIndex(s, words, n - 1);
      if s.words[n - 1] in Keys(words) then
        IndexAdd(s, words, n, m);
        m[s.words[n - 1] := n - 1]
      else
        IndexSkip(s, words, n, m);
        m
  }

  /** The finished `word2index`: each weighted word of the vocabulary to its (last) id. */
  function Index(s: IndexedString, words: Weights): map<string, nat>
  {
    WordIndex(s, words, |s.words|)
  }

  /** The phrase for the pair (w1, w2): the word with the smaller id first, separated
      by a space exactly when both words are alphabetic. */
  function Phrase(w1: string, w2: string, id1: nat, id2: nat, isAlpha: string -> bool): (r: string)
  {
    var sep := if isAlpha(w1) && isAlpha(w2) then " " else "";
    if id1 < id2 then w1 + sep + w2 else w2 + sep + w1
  }

  /** A pair the loop glued: positions in `words`, the words, their ids, the summed
      weight, the running maximum when the pair was met, and the phrase. */
  datatype Accepted = Accepted(
    first: nat, second: nat, w1: string, w2: string, id1: nat, id2: nat,
    weight: real, maxBefore: real, phrase: string)

  /** `candidate` (through the accepted pairs), `concat_words` and `max_weight`. */
  datatype PairState = PairState(acc: seq<Accepted>, claimed: set<string>, maxWeight: real)

  /** The state before the pair loop. */
  const Start := PairState([], {}, 0.0)

  /** The phrases of the accepted pairs, in order. */
  function Phrases(acc: seq<Accepted>): (r: seq<string>)
    ensures |r| == |acc|
    ensures forall k :: 0 <= k < |acc| ==> r[k] == acc[k].phrase
  {
    seq(|acc|, k requires 0 <= k < |acc| => acc[k].phrase)
  }

  /** One pass of the pair loop body for the dictionary entries i < j. */
  function PairStep(s: IndexedString, words: Weights, isAlpha: string -> bool, st: PairState, i: nat, j: nat): PairState
    requires s.Valid() && i < j < |words|
  {
    var w1, w2 := words[i].0, words[j].0;
    var index := Index(s, words);
    if w1 in st.claimed || w2 in st.claimed then st
    else if w1 !in index || w2 !in index then st
    else
      var id1, id2 := index[w1], index[w2];
      if MinDistanceOf(s, id1, id2) != 1 then st
      else
        var weight := words[i].1 + words[j].1;
        var a := Accepted(i, j, w1, w2, id1, id2, weight, st.maxWeight, Phrase(w1, w2, id1, id2, isAlpha));
        if weight > st.maxWeight then PairState(st.acc + [a], st.claimed + {w1, w2}, weight)
        else if weight > 0.1 * st.maxWeight then PairState(st.acc + [a], st.claimed + {w1, w2}, st.maxWeight)
        else st
  }

  /** The pair loop over `itertools.combinations(words, 2)` from the pair (i, j) on. */
  function PairsFrom(s: IndexedString, words: Weights, isAlpha: string -> bool, st: PairState, i: nat, j: nat): PairState
    requires s.Valid() && i <= |words| && j <= |words| + 1 && (i < |words| ==> i < j)
    decreases |words| - i, |words| + 1 - j
  {
    if i == |words| then st
    else if j >= |words| then PairsFrom(s, words, isAlpha, st, i + 1, i + 2)
    else PairsFrom(s, words, isAlpha, PairStep(s, words, isAlpha, st, i, j), i, j + 1)
  }

  /** The state after the pair loop. */
  function Pairs(s: IndexedString, words: Weights, isAlpha: string -> bool): PairState
    requires s.Valid()
  {
    PairsFrom(s, words, isAlpha, Start, 0, 1)
  }

  /** The dictionary words, in order, that are unclaimed and weigh at least `threshold`. */
  function Standalone(words: Weights, claimed: set<string>, threshold: real): (r: seq<string>)
    ensures |r| <= |words|
    decreases |words|
  {
    if words == [] then []
    else
      var rest := Standalone(words[..|words| - 1], claimed, threshold);
      var (w, weight) := words[|words| - 1];
      if w in claimed || weight < threshold then rest else rest + [w]
  }

  /** The `candidate` list before sorting. */
  function Candidates(s: IndexedString, words: Weights, isAlpha: string -> bool): seq<string>
    requires s.Valid()
  {
    var st := Pairs(s, words, isAlpha);
    Phrases(st.acc) + Standalone(words, st.claimed, st.maxWeight * 0.1)
  }

  /** The rule string `merge` returns. */
  function Rules(s: IndexedString, words: Weights, isAlpha: string -> bool): string
    requires s.Valid()
  {
    StrLeIsTotalOrder();
    Join(SortBy(Candidates(s, words, isAlpha), StrLe), "&")
  }

  // ---------------------------------------------------------------------------
  // What the pair loop keeps true

  /** The words the accepted pairs claimed (`concat_words`). */
  function ClaimedBy(acc: seq<Accepted>): set<string>
    decreases |acc|
  {
    if acc == [] then {} else ClaimedBy(acc[..|acc| - 1]) + {acc[|acc| - 1].w1, acc[|acc| - 1].w2}
  }

  function RealMax(a: real, b: real): real { if a < b then b else a }

  /** An accepted pair: two dictionary entries in combination order, both in the index,
      one word apart, weighing their summed weights, which is positive and above a tenth
      of the running maximum; its phrase is built from the two words. */
  predicate AcceptedOk(s: IndexedString, words: Weights, isAlpha: string -> bool, a: Accepted)
    requires s.Valid()
  {
    var index := Index(s, words);
    a.first < a.second < |words| &&
    a.w1 == words[a.first].0 && a.w2 == words[a.second].0 && a.w1 != a.w2 &&
    a.w1 in index && a.w2 in index && a.id1 == index[a.w1] && a.id2 == index[a.w2] &&
    MinDistanceOf(s, a.id1, a.id2) == 1 &&
    a.weight == words[a.first].1 + words[a.second].1 &&
    a.weight > 0.0 && a.weight > 0.1 * a.maxBefore &&
    a.phrase == Phrase(a.w1, a.w2, a.id1, a.id2, isAlpha)
  }

  /** The claimed set is exactly the words of the accepted pairs, and no word is in two of them. */
  predicate ClaimsInv(st: PairState)
  {
    st.claimed == ClaimedBy(st.acc) &&
    forall k, l :: 0 <= k < l < |st.acc| ==> {st.acc[k].w1, st.acc[k].w2} !! {st.acc[l].w1, st.acc[l].w2}
  }

  /** The largest of 0 and the weights of the pairs accepted so far. */
  function RunningMax(acc: seq<Accepted>): real
    decreases |acc|
  {
    if acc == [] then 0.0 else RealMax(RunningMax(acc[..|acc| - 1]), acc[|acc| - 1].weight)
  }

  /** Each accepted pair was met when `max_weight` was the running maximum of the pairs before it. */
  predicate MetAtRunningMax(acc: seq<Accepted>)
    decreases |acc|
  {
    acc == [] ||
    (MetAtRunningMax(acc[..|acc| - 1]) && acc[|acc| - 1].maxBefore == RunningMax(acc[..|acc| - 1]))
  }

  /** `max_weight` starts at 0 and moves only to the weight of an accepted pair that
      exceeds it: it is the running maximum of the accepted weights, and each pair was
      met at the running maximum of the pairs before it. */
  predicate WeightsInv(st: PairState)
  {
    var acc := st.acc;
    st.maxWeight == RunningMax(acc) && st.maxWeight >= 0.0 &&
    MetAtRunningMax(acc) &&
    (forall k :: 0 <= k < |acc| ==> acc[k].maxBefore <= st.maxWeight && acc[k].weight <= st.maxWeight) &&
    (forall k, l :: 0 <= k < l < |acc| ==> acc[k].maxBefore <= acc[l].maxBefore) &&
    (st.maxWeight == 0.0 || exists k :: 0 <= k < |acc| && acc[k].weight == st.maxWeight)
  }

  /** Every accepted pair satisfies `AcceptedOk`. */
  predicate EntriesOk(s: IndexedString, words: Weights, isAlpha: string -> bool, acc: seq<Accepted>)
    requires s.Valid()
  {
    forall k :: 0 <= k < |acc| ==> AcceptedOk(s, words, isAlpha, acc[k])
  }

  predicate PairsInv(s: IndexedString, words: Weights, isAlpha: string -> bool, st: PairState)
    requires s.Valid()
  {
    EntriesOk(s, words, isAlpha, st.acc) && ClaimsInv(st) && WeightsInv(st)
  }

  lemma {:induction false} ClaimedMembers(acc: seq<Accepted>, x: string)
    ensures x in ClaimedBy(acc) <==> exists k :: 0 <= k < |acc| && (x == acc[k].w1 || x == acc[k].w2)
    decreases |acc|
  {
    if acc != [] {
      var init := acc[..|acc| - 1];
      ClaimedMembers(init, x);
      if x in ClaimedBy(init) {
        var k :| 0 <= k < |init| && (x == init[k].w1 || x == init[k].w2);
        assert acc[k] == init[k];
      }
      forall k | 0 <= k < |init| ensures acc[k] == init[k] { }
    }
  }

  lemma {:induction false} ClaimedAppend(acc: seq<Accepted>, a: Accepted)
    ensures ClaimedBy(acc + [a]) == ClaimedBy(acc) + {a.w1, a.w2}
  {
    assert (acc + [a])[..|acc|] == acc;
  }

  /** An accepted step keeps the claims disjoint: the words were unclaimed. */
  lemma {:induction false} StepKeepsClaims(st: PairState, a: Accepted, newMax: real)
    requires ClaimsInv(st)
    requires a.w1 !in st.claimed && a.w2 !in st.claimed
    ensures ClaimsInv(PairState(st.acc + [a], st.claimed + {a.w1, a.w2}, newMax))
  {
    var acc := st.acc + [a];
    ClaimedAppend(st.acc, a);
    forall k, l | 0 <= k < l < |acc| ensures {acc[k].w1, acc[k].w2} !! {acc[l].w1, acc[l].w2} {
      if l == |st.acc| {
        ClaimedMembers(st.acc, a.w1);
        ClaimedMembers(st.acc, a.w2);
        assert acc[k] == st.acc[k];
      } else {
        assert acc[k] == st.acc[k] && acc[l] == st.acc[l];
      }
    }
  }

  /** Accepting a pair met at running maximum `st.maxWeight` keeps the maximum chain. */
  lemma {:induction false} StepKeepsWeights(st: PairState, a: Accepted, newMax: real)
    requires WeightsInv(st)
    requires a.maxBefore == st.maxWeight
    requires newMax == RealMax(st.maxWeight, a.weight)
    ensures WeightsInv(PairState(st.acc + [a], st.claimed + {a.w1, a.w2}, newMax))
  {
    var acc := st.acc + [a];
    assert acc[..|st.acc|] == st.acc;
    forall k | 0 <= k < |st.acc| ensures acc[k] == st.acc[k] && acc[..k] == st.acc[..k] { }
    if newMax != 0.0 && newMax != a.weight {
      var k :| 0 <= k < |st.acc| && st.acc[k].weight == st.maxWeight;
      assert acc[k].weight == newMax;
    }
  }

  /** A pass of the loop body either changes nothing or accepts one pair of unclaimed
      words, met at the current `max_weight`, which then becomes the larger of itself and
      the pair's weight. */
  lemma {:induction false} PairStepCases(s: IndexedString, words: Weights, isAlpha: string -> bool, st: PairState, i: nat, j: nat)
    requires s.Valid() && KeysDistinct(words) && i < j < |words| && st.maxWeight >= 0.0
    ensures PairStep(s, words, isAlpha, st, i, j) == st ||
      exists a :: AcceptedOk(s, words, isAlpha, a) && a.first == i && a.second == j &&
        a.w1 !in st.claimed && a.w2 !in st.claimed && a.maxBefore == st.maxWeight &&
        PairStep(s, words, isAlpha, st, i, j) == PairState(st.acc + [a], st.claimed + {a.w1, a.w2}, RealMax(st.maxWeight, a.weight))
  {
    var w1, w2 := words[i].0, words[j].0;
    var index := Index(s, words);
    if w1 !in st.claimed && w2 !in st.claimed && w1 in index && w2 in index {
      var id1, id2 := index[w1], index[w2];
      var weight := words[i].1 + words[j].1;
      if MinDistanceOf(s, id1, id2) == 1 && weight > 0.1 * st.maxWeight {
        var a := Accepted(i, j, w1, w2, id1, id2, weight, st.maxWeight, Phrase(w1, w2, id1, id2, isAlpha));
        assert PairStep(s, words, isAlpha, st, i, j) == PairState(st.acc + [a], st.claimed + {w1, w2}, RealMax(st.maxWeight, weight));
        assert AcceptedOk(s, words, isAlpha, a);
      }
    }
  }

  lemma EntriesAppend(s: IndexedString, words: Weights, isAlpha: string -> bool, acc: seq<Accepted>, a: Accepted)
    requires s.Valid() && EntriesOk(s, words, isAlpha, acc) && AcceptedOk(s, words, isAlpha, a)
    ensures EntriesOk(s, words, isAlpha, acc + [a])
  {
    forall k | 0 <= k < |acc| + 1 ensures AcceptedOk(s, words, isAlpha, (acc + [a])[k]) {
      if k < |acc| {
        assert (acc + [a])[k] == acc[k];
      }
    }
  }

  lemma {:induction false} PairStepKeepsInv(s: IndexedString, words: Weights, isAlpha: string -> bool, st: PairState, i: nat, j: nat)
    requires s.Valid() && KeysDistinct(words) && i < j < |words|
    requires EntriesOk(s, words, isAlpha, st.acc) && ClaimsInv(st) && WeightsInv(st)
    ensures var st' := PairStep(s, words, isAlpha, st, i, j);
      EntriesOk(s, words, isAlpha, st'.acc) && ClaimsInv(st') && WeightsInv(st')
  {
    var st' := PairStep(s, words, isAlpha, st, i, j);
    PairStepCases(s, words, isAlpha, st, i, j);
    if st' != st {
      var a :| AcceptedOk(s, words, isAlpha, a) && a.first == i && a.second == j &&
        a.w1 !in st.claimed && a.w2 !in st.claimed && a.maxBefore == st.maxWeight &&
        st' == PairState(st.acc + [a], st.claimed + {a.w1, a.w2}, RealMax(st.maxWeight, a.weight));
      StepKeepsClaims(st, a, st'.maxWeight);
      StepKeepsWeights(st, a, st'.maxWeight);
      EntriesAppend(s, words, isAlpha, st.acc, a);
    }
  }

  /** The pair loop keeps every property that each pass of its body keeps. */
  lemma {:induction false} PairsFromPreserves(s: IndexedString, words: Weights, isAlpha: string -> bool,
                                              inv: PairState -> bool, st: PairState, i: nat, j: nat)
    requires s.Valid() && i <= |words| && j <= |words| + 1 && (i < |words| ==> i < j)
    requires forall t: PairState, a: nat, b: nat :: inv(t) && a < b < |words| ==> inv(PairStep(s, words, isAlpha, t, a, b))
    requires inv(st)
    ensures inv(PairsFrom(s, words, isAlpha, st, i, j))
    decreases |words| - i, |words| + 1 - j
  {
    if i == |words| {
    } else if j >= |words| {
      PairsFromPreserves(s, words, isAlpha, inv, st, i + 1, i + 2);
    } else {
      PairsFromPreserves(s, words, isAlpha, inv, PairStep(s, words, isAlpha, st, i, j), i, j + 1);
    }
  }

  /** With disjoint claims of two distinct words each, the claimed set has two words per pair. */
  lemma {:induction false} ClaimedCount(st: PairState)
    requires ClaimsInv(st)
    requires forall k :: 0 <= k < |st.acc| ==> st.acc[k].w1 != st.acc[k].w2
    ensures |st.claimed| == 2 * |st.acc|
    decreases |st.acc|
  {
    var acc := st.acc;
    if acc != [] {
      var init := acc[..|acc| - 1];
      var a := acc[|acc| - 1];
      forall k | 0 <= k < |init| ensures init[k] == acc[k] { }
      ClaimedCount(PairState(init, ClaimedBy(init), 0.0));
      ClaimedMembers(init, a.w1);
      ClaimedMembers(init, a.w2);
      var c := ClaimedBy(init);
      assert a.w1 !in c && a.w2 !in c;
      assert |c + {a.w1}| == |c| + 1;
      assert c + {a.w1, a.w2} == (c + {a.w1}) + {a.w2};
    }
  }

  /** The standalone words are exactly the unclaimed dictionary words of weight at
      least the threshold, words missing from the index included. */
  lemma {:induction false} StandaloneMembers(words: Weights, claimed: set<string>, threshold: real, w: string)
    ensures w in Standalone(words, claimed, threshold) <==>
      exists k :: 0 <= k < |words| && words[k].0 == w && w !in claimed && words[k].1 >= threshold
    decreases |words|
  {
    if words != [] {
      var init := words[..|words| - 1];
      StandaloneMembers(init, claimed, threshold, w);
      forall k | 0 <= k < |init| ensures init[k] == words[k] { }
      if w in Standalone(init, claimed, threshold) {
        var k :| 0 <= k < |init| && init[k].0 == w && w !in claimed && init[k].1 >= threshold;
        assert words[k] == init[k];
      }
    }
  }

  lemma KeysSnoc(words: Weights)
    requires words != []
    ensures Keys(words) == Keys(words[..|words| - 1]) + {words[|words| - 1].0}
  {
    var init := words[..|words| - 1];
    forall k | 0 <= k < |init| ensures init[k] == words[k] { }
  }

  lemma CardSnoc(c: set<string>, keys: set<string>, x: string)
    requires x !in keys
    ensures |c * (keys + {x})| == |c * keys| + (if x in c then 1 else 0)
  {
    if x in c {
      assert c * (keys + {x}) == (c * keys) + {x};
    } else {
      assert c * (keys + {x}) == c * keys;
    }
  }

  /** Each claimed dictionary word takes one place away from the standalone words. */
  lemma {:induction false} StandaloneCount(words: Weights, claimed: set<string>, threshold: real)
    requires KeysDistinct(words)
    ensures |Standalone(words, claimed, threshold)| + |claimed * Keys(words)| <= |words|
    decreases |words|
  {
    if words != [] {
      var init := words[..|words| - 1];
      var x := words[|words| - 1].0;
      assert KeysDistinct(init);
      StandaloneCount(init, claimed, threshold);
      KeysSnoc(words);
      assert x !in Keys(init);
      CardSnoc(claimed, Keys(init), x);
    }
  }

  /** The claimed words are dictionary words, two per accepted pair. */
  lemma ClaimedPairs(s: IndexedString, words: Weights, isAlpha: string -> bool)
    requires s.Valid() && KeysDistinct(words)
    ensures |Pairs(s, words, isAlpha).claimed| == 2 * |Pairs(s, words, isAlpha).acc|
    ensures Pairs(s, words, isAlpha).claimed <= Keys(words)
  {
    var st := Pairs(s, words, isAlpha);
    PairsInvariant(s, words, isAlpha);
    assert EntriesOk(s, words, isAlpha, st.acc) && ClaimsInv(st);
    forall k | 0 <= k < |st.acc|
      ensures st.acc[k].w1 != st.acc[k].w2 && st.acc[k].w1 in Keys(words) && st.acc[k].w2 in Keys(words)
    {
      assert AcceptedOk(s, words, isAlpha, st.acc[k]);
    }
    ClaimedCount(st);
    forall x | x in st.claimed ensures x in Keys(words) {
      ClaimedMembers(st.acc, x);
    }
  }

  /** The invariants of the pair loop hold when it finishes. */
  lemma PairsInvariant(s: IndexedString, words: Weights, isAlpha: string -> bool)
    requires s.Valid() && KeysDistinct(words)
    ensures PairsInv(s, words, isAlpha, Pairs(s, words, isAlpha))
  {
    var inv := (t: PairState) => PairsInv(s, words, isAlpha, t);
    forall t: PairState, a: nat, b: nat | inv(t) && a < b < |words|
      ensures inv(PairStep(s, words, isAlpha, t, a, b))
    {
      PairStepKeepsInv(s, words, isAlpha, t, a, b);
    }
    PairsFromPreserves(s, words, isAlpha, inv, Start, 0, 1);
  }

  /** Since each dictionary word contributes to at most one piece, `merge` produces at
      most as many pieces as there are dictionary words. */
  lemma CandidatesBound(s: IndexedString, words: Weights, isAlpha: string -> bool)
    requires s.Valid() && KeysDistinct(words)
    ensures |Candidates(s, words, isAlpha)| <= |words|
  {
    var st := Pairs(s, words, isAlpha);
    ClaimedPairs(s, words, isAlpha);
    assert st.claimed * Keys(words) == st.claimed;
    StandaloneCount(words, st.claimed, st.maxWeight * 0.1);
    assert |Candidates(s, words, isAlpha)| == |st.acc| + |Standalone(words, st.claimed, st.maxWeight * 0.1)|;
  }

  /** One more word of the vocabulary enters the index when it is a key. */
  lemma WordIndexStep(s: IndexedString, words: Weights, i: nat, present: bool)
    requires i < |s.words| && present == (s.words[i] in Keys(words))
    ensures WordIndex(s, words, i + 1) ==
      if present then WordIndex(s, words, i)[s.words[i] := i] else WordIndex(s, words, i)
  {
  }

  /** The loop that builds `word2index` over the vocabulary. */
  method BuildIndex(s: IndexedString, words: Weights) returns (word2index: map<string, nat>)
    ensures word2index == Index(s, words)
  {
    word2index := map[];
    for i := 0 to |s.words|
      invariant word2index == WordIndex(s, words, i)
    {
      var word := s.words[i];
      var present := word in Keys(words);
      WordIndexStep(s, words, i, present);
      if present {
        word2index := word2index[word := i];
      }
    }
  }

  /** One pass of the pair loop body, on the loop's variables. */
  method PairLoopBody(s: IndexedString, words: Weights, isAlpha: string -> bool, word2index: map<string, nat>,
                      i: nat, j: nat, candidate: seq<string>, concatWords: set<string>, maxWeight: real,
                      ghost acc: seq<Accepted>)
    returns (candidate': seq<string>, concatWords': set<string>, maxWeight': real, ghost acc': seq<Accepted>)
    requires s.Valid() && i < j < |words| && word2index == Index(s, words)
    requires candidate == Phrases(acc)
    ensures candidate' == Phrases(acc')
    ensures PairState(acc', concatWords', maxWeight') == PairStep(s, words, isAlpha, PairState(acc, concatWords, maxWeight), i, j)
  {
    candidate', concatWords', maxWeight', acc' := candidate, concatWords, maxWeight, acc;
    var w1, w2 := words[i].0, words[j].0;
    if w1 in concatWords || w2 in concatWords {
      return;
    }
    if w1 !in word2index {
      return;
    }
    if w2 !in word2index {
      return;
    }
    var id1, id2 := word2index[w1], word2index[w2];
    var dist := MinDistance(s, id1, id2);
    if dist == 1 {
      var weight := words[i].1 + words[j].1;
      var sep := if isAlpha(w1) && isAlpha(w2) then " " else "";
      var phrase := if id1 < id2 then w1 + sep + w2 else w2 + sep + w1;
      assert phrase == Phrase(w1, w2, id1, id2, isAlpha);
      if weight > maxWeight {
        acc' := acc + [Accepted(i, j, w1, w2, id1, id2, weight, maxWeight, phrase)];
        maxWeight' := weight;
        candidate' := candidate + [phrase];
        concatWords' := concatWords + {w1};
        concatWords' := concatWords' + {w2};
        assert concatWords' == concatWords + {w1, w2};
      } else if weight > 0.1 * maxWeight {
        acc' := acc + [Accepted(i, j, w1, w2, id1, id2, weight, maxWeight, phrase)];
        candidate' := candidate + [phrase];
        concatWords' := concatWords + {w1};
        concatWords' := concatWords' + {w2};
        assert concatWords' == concatWords + {w1, w2};
      }
    }
  }

  /** The loop over `itertools.combinations(words, 2)`. */
  method PairLoop(s: IndexedString, words: Weights, isAlpha: string -> bool, word2index: map<string, nat>)
    returns (candidate: seq<string>, concatWords: set<string>, maxWeight: real, ghost acc: seq<Accepted>)
    requires s.Valid() && word2index == Index(s, words)
    ensures candidate == Phrases(acc)
    ensures PairState(acc, concatWords, maxWeight) == Pairs(s, words, isAlpha)
    ensures var st := Pairs(s, words, isAlpha);
      candidate == Phrases(st.acc) && concatWords == st.claimed && maxWeight == st.maxWeight
  {
    candidate, concatWords, maxWeight, acc := [], {}, 0.0, [];
    ghost var final := Pairs(s, words, isAlpha);
    for i := 0 to |words|
      invariant candidate == Phrases(acc)
      invariant PairsFrom(s, words, isAlpha, PairState(acc, concatWords, maxWeight), i, i + 1) == final
    {
      for j := i + 1 to |words|
        invariant candidate == Phrases(acc)
        invariant PairsFrom(s, words, isAlpha, PairState(acc, concatWords, maxWeight), i, j) == final
      {
        candidate, concatWords, maxWeight, acc :=
          PairLoopBody(s, words, isAlpha, word2index, i, j, candidate, concatWords, maxWeight, acc);
      }
    }
  }

  /** The loop that appends the standalone words. */
  method AddStandalone(words: Weights, concatWords: set<string>, threshold: real, candidate: seq<string>)
    returns (candidate': seq<string>)
    ensures candidate' == candidate + Standalone(words, concatWords, threshold)
  {
    candidate' := candidate;
    for k := 0 to |words|
      invariant candidate' == candidate + Standalone(words[..k], concatWords, threshold)
    {
      assert words[..k + 1][..k] == words[..k];
      var (word, weight) := words[k];
      if word in concatWords {
        continue;
      }
      if weight < threshold {
        continue;
      }
      candidate' := candidate' + [word];
    }
    assert words[..|words|] == words;
  }

  /** `merge(text_instance, words)` on the indexed text, with `str.isalpha` as `isAlpha`;
      `words` stands for a Python dict, so its keys are distinct. */
  method Merge(s: IndexedString, words: Weights, isAlpha: string -> bool) returns (rules: string)
    requires s.Valid() && KeysDistinct(words)
    ensures rules == Rules(s, words, isAlpha)
  {
    var word2index := BuildIndex(s, words);
    var candidate, concatWords, maxWeight, acc := PairLoop(s, words, isAlpha, word2index);
    var threshold := maxWeight * 0.1;
    candidate := AddStandalone(words, concatWords, threshold, candidate);
    assert candidate == Candidates(s, words, isAlpha);
    StrLeIsTotalOrder();
    candidate := SortBy(candidate, StrLe);
    rules := Join(candidate, "&");
  }

  // ---------------------------------------------------------------------------
  // process, one line at a time

  lemma KeysCons(x: (string, real), t: Weights)
    ensures Keys([x] + t) == {x.0} + Keys(t)
  {
    var u := [x] + t;
    forall k | 0 <= k < |t| ensures u[k + 1] == t[k] { }
    forall w | w in Keys(u) ensures w in {x.0} + Keys(t) {
      var k :| 0 <= k < |u| && u[k].0 == w;
      if k > 0 {
        assert t[k - 1].0 == w;
      }
    }
    forall w | w in {x.0} + Keys(t) ensures w in Keys(u) {
      if w == x.0 {
        assert u[0].0 == w;
      } else {
        var k :| 0 <= k < |t| && t[k].0 == w;
        assert u[k + 1].0 == w;
      }
    }
  }

  /** `d[key] = value`: an existing key keeps its place and takes the new value, a new
      key goes last. */
  function Put(d: Weights, key: string, value: real): (r: Weights)
    ensures Keys(r) == Keys(d) + {key}
    ensures KeysDistinct(d) ==> KeysDistinct(r)
    ensures KeysDistinct(d) ==> forall k :: 0 <= k < |r| && r[k].0 == key ==> r[k].1 == value
    ensures KeysDistinct(d) && key in Keys(d) ==>
      |r| == |d| && forall k :: 0 <= k < |d| ==> r[k] == (if d[k].0 == key then (key, value) else d[k])
    ensures key !in Keys(d) ==> r == d + [(key, value)]
    decreases |d|
  {
    if d == [] then
      assert [(key, value)][0].0 == key;
      [(key, value)]
    else if d[0].0 == key then
      PutHere(d, key, value);
      [(key, value)] + d[1..]
    else
      var rest := Put(d[1..], key, value);
      PutFurther(d, key, value, rest);
      PutFurtherEntries(d, key, value, rest);
      [d[0]] + rest
  }

  /** Replacing the first entry, whose key is `key`: the keys stay those of `d`. */
  lemma PutHere(d: Weights, key: string, value: real)
    requires d != [] && d[0].0 == key
    ensures var r := [(key, value)] + d[1..];
      Keys(r) == Keys(d) + {key} &&
      (KeysDistinct(d) ==> KeysDistinct(r)) &&
      (KeysDistinct(d) ==> forall k :: 0 <= k < |r| && r[k].0 == key ==> r[k].1 == value) &&
      (KeysDistinct(d) ==> |r| == |d| && forall k :: 0 <= k < |d| ==> r[k] == (if d[k].0 == key then (key, value) else d[k]))
  {
    var r := [(key, value)] + d[1..];
    KeysCons(d[0], d[1..]);
    KeysCons((key, value), d[1..]);
    assert d == [d[0]] + d[1..];
    assert forall k :: 0 <= k < |r| ==> r[k].0 == d[k].0;
    assert forall k :: 1 <= k < |r| ==> r[k] == d[k];
  }

  /** Keeping the first entry, whose key differs, in front of `rest` = `Put(d[1..], key, value)`. */
  lemma PutFurther(d: Weights, key: string, value: real, rest: Weights)
    requires d != [] && d[0].0 != key
    requires Keys(rest) == Keys(d[1..]) + {key}
    requires KeysDistinct(d[1..]) ==> KeysDistinct(rest)
    requires KeysDistinct(d[1..]) ==> forall k :: 0 <= k < |rest| && rest[k].0 == key ==> rest[k].1 == value
    ensures var r := [d[0]] + rest;
      Keys(r) == Keys(d) + {key} &&
      (KeysDistinct(d) ==> KeysDistinct(r)) &&
      (KeysDistinct(d) ==> forall k :: 0 <= k < |r| && r[k].0 == key ==> r[k].1 == value)
  {
    var r := [d[0]] + rest;
    KeysCons(d[0], d[1..]);
    KeysCons(d[0], rest);
    assert d == [d[0]] + d[1..];
    assert forall k :: 1 <= k < |r| ==> r[k] == rest[k - 1];
    if KeysDistinct(d) {
      assert KeysDistinct(d[1..]) by {
        forall i, j | 0 <= i < j < |d[1..]| ensures d[1..][i].0 != d[1..][j].0 {
          assert d[1..][i] == d[i + 1] && d[1..][j] == d[j + 1];
        }
      }
      assert d[0].0 !in Keys(d[1..]) by {
        forall k | 0 <= k < |d[1..]| ensures d[1..][k].0 != d[0].0 {
          assert d[1..][k] == d[k + 1];
        }
      }
      forall i, j | 0 <= i < j < |r| ensures r[i].0 != r[j].0 {
        if i == 0 {
          assert r[j].0 in Keys(rest);
        }
      }
    }
  }

  /** Keeping the first entry in front of `rest`: an existing key is replaced in place,
      a new one goes last. */
  lemma PutFurtherEntries(d: Weights, key: string, value: real, rest: Weights)
    requires d != [] && d[0].0 != key
    requires KeysDistinct(d[1..]) && key in Keys(d[1..]) ==>
      |rest| == |d[1..]| && forall k :: 0 <= k < |d[1..]| ==> rest[k] == (if d[1..][k].0 == key then (key, value) else d[1..][k])
    requires key !in Keys(d[1..]) ==> rest == d[1..] + [(key, value)]
    ensures var r := [d[0]] + rest;
      (KeysDistinct(d) && key in Keys(d) ==>
        |r| == |d| && forall k :: 0 <= k < |d| ==> r[k] == (if d[k].0 == key then (key, value) else d[k])) &&
      (key !in Keys(d) ==> r == d + [(key, value)])
  {
    var r := [d[0]] + rest;
    KeysCons(d[0], d[1..]);
    assert d == [d[0]] + d[1..];
    if KeysDistinct(d) && key in Keys(d) {
      assert KeysDistinct(d[1..]) by {
        forall i, j | 0 <= i < j < |d[1..]| ensures d[1..][i].0 != d[1..][j].0 {
          assert d[1..][i] == d[i + 1] && d[1..][j] == d[j + 1];
        }
      }
      assert key in Keys(d[1..]);
      forall k | 1 <= k < |d| ensures r[k] == (if d[k].0 == key then (key, value) else d[k]) {
        assert d[1..][k - 1] == d[k];
      }
    }
    if key !in Keys(d) {
      assert key !in Keys(d[1..]);
      assert r == ([d[0]] + d[1..]) + [(key, value)];
    }
  }

  function DictOf(pairs: Weights): (d: Weights)
    ensures KeysDistinct(d)
    ensures Keys(d) == Keys(pairs)
    decreases |pairs|
  {
    if pairs == [] then []
    else
      KeysSnoc(pairs);
      Put(DictOf(pairs[..|pairs| - 1]), pairs[|pairs| - 1].0, pairs[|pairs| - 1].1)
  }

  /** The position of the first pair whose key is `key`. */
  function FirstIndex(pairs: Weights, key: string): (r: nat)
    requires key in Keys(pairs)
    ensures r < |pairs| && pairs[r].0 == key
    ensures forall j :: 0 <= j < r ==> pairs[j].0 != key
    decreases |pairs|
  {
    if pairs[0].0 == key then 0
    else
      KeysCons(pairs[0], pairs[1..]);
      assert pairs == [pairs[0]] + pairs[1..];
      var r := FirstIndex(pairs[1..], key);
      assert forall j :: 1 <= j <= r + 1 ==> pairs[j] == pairs[1..][j - 1];
      1 + r
  }

  /** A position holding `key` with no `key` before it is the first index. */
  lemma FirstIndexUnique(pairs: Weights, key: string, r: nat)
    requires r < |pairs| && pairs[r].0 == key
    requires forall j :: 0 <= j < r ==> pairs[j].0 != key
    ensures key in Keys(pairs) && FirstIndex(pairs, key) == r
  {
    assert key in Keys(pairs);
  }

  /** Appending a pair does not move the first index of a key already present. */
  lemma FirstIndexSnoc(pairs: Weights, key: string)
    requires pairs != [] && key in Keys(pairs[..|pairs| - 1])
    ensures key in Keys(pairs) && FirstIndex(pairs, key) == FirstIndex(pairs[..|pairs| - 1], key)
  {
    var init := pairs[..|pairs| - 1];
    var r := FirstIndex(init, key);
    assert forall j :: 0 <= j <= r ==> pairs[j] == init[j];
    FirstIndexUnique(pairs, key, r);
  }

  /** The pair `pairs[j]` is the last one with its key. */
  predicate LastOfKey(pairs: Weights, j: nat)
    requires j < |pairs|
  {
    forall i :: j < i < |pairs| ==> pairs[i].0 != pairs[j].0
  }

  /** Each entry of `d` is the last pair of `pairs` with its key. */
  predicate LastPairs(pairs: Weights, d: Weights)
  {
    forall k :: 0 <= k < |d| ==> exists j :: 0 <= j < |pairs| && pairs[j] == d[k] && LastOfKey(pairs, j)
  }

  /** The keys of `d` are keys of `pairs`, in the order of their first pair there. */
  predicate FirstOrdered(pairs: Weights, d: Weights)
  {
    forall k, l :: 0 <= k < l < |d| ==>
      d[k].0 in Keys(pairs) && d[l].0 in Keys(pairs) && FirstIndex(pairs, d[k].0) < FirstIndex(pairs, d[l].0)
  }

  /** The dict built from the pairs holds, for each key, its last pair: a later
      `word:weight` item overwrites an earlier value. */
  lemma {:induction false} DictOfLastWins(pairs: Weights)
    ensures LastPairs(pairs, DictOf(pairs))
    decreases |pairs|
  {
    if pairs != [] {
      var n := |pairs|;
      var init, x := pairs[..n - 1], pairs[n - 1];
      assert pairs == init + [x];
      DictOfLastWins(init);
      LastWinsStep(init, x, DictOf(init));
    }
  }

  /** One more pair: the last-pair property passes from `d0` to `Put(d0, x.0, x.1)`. */
  lemma LastWinsStep(init: Weights, x: (string, real), d0: Weights)
    requires KeysDistinct(d0) && Keys(d0) == Keys(init)
    requires LastPairs(init, d0)
    ensures LastPairs(init + [x], Put(d0, x.0, x.1))
  {
    var pairs, d := init + [x], Put(d0, x.0, x.1);
    var n := |pairs|;
    forall k | 0 <= k < |d| ensures exists j :: 0 <= j < n && pairs[j] == d[k] && LastOfKey(pairs, j) {
      if d[k] == x {
        assert pairs[n - 1] == d[k] && LastOfKey(pairs, n - 1);
      } else {
        assert k < |d0| && d[k] == d0[k];
        var j :| 0 <= j < |init| && init[j] == d0[k] && LastOfKey(init, j);
        assert d0[k].0 in Keys(d0);
        assert d0[k].0 != x.0;
        forall i | j < i < n ensures pairs[i].0 != pairs[j].0 {
          if i < n - 1 { assert pairs[i] == init[i]; }
        }
        assert pairs[j] == d[k];
      }
    }
  }

  /** The dict's keys stand in the order of their first pair, as a Python dict keeps
      insertion order and an overwrite leaves a key in place. */
  lemma {:induction false} DictOfFirstOrder(pairs: Weights)
    ensures FirstOrdered(pairs, DictOf(pairs))
    decreases |pairs|
  {
    if pairs != [] {
      var n := |pairs|;
      var init, x := pairs[..n - 1], pairs[n - 1];
      assert pairs == init + [x];
      DictOfFirstOrder(init);
      FirstOrderStep(init, x, DictOf(init));
    }
  }

  /** One more pair: first-occurrence order passes from `d0` to `Put(d0, x.0, x.1)`. */
  lemma FirstOrderStep(init: Weights, x: (string, real), d0: Weights)
    requires KeysDistinct(d0) && Keys(d0) == Keys(init)
    requires FirstOrdered(init, d0)
    ensures FirstOrdered(init + [x], Put(d0, x.0, x.1))
  {
    var pairs, d := init + [x], Put(d0, x.0, x.1);
    FirstIndicesKept(init, x, d0);
    if x.0 in Keys(init) {
      assert |d| == |d0|;
    } else {
      FirstIndexOfNew(init, x);
      assert d == d0 + [x];
      forall k, l | 0 <= k < l < |d|
        ensures d[k].0 in Keys(pairs) && d[l].0 in Keys(pairs) && FirstIndex(pairs, d[k].0) < FirstIndex(pairs, d[l].0)
      {
        if l == |d0| {
          assert d[l] == x;
        }
      }
    }
  }

  /** The keys already in `d0` keep their places in `Put(d0, x.0, x.1)` and their first index. */
  lemma FirstIndicesKept(init: Weights, x: (string, real), d0: Weights)
    requires KeysDistinct(d0) && Keys(d0) == Keys(init)
    ensures var pairs, d := init + [x], Put(d0, x.0, x.1);
      |d0| <= |d| &&
      forall k :: 0 <= k < |d0| ==>
        d[k].0 == d0[k].0 && d0[k].0 in Keys(init) && d[k].0 in Keys(pairs) &&
        FirstIndex(pairs, d0[k].0) == FirstIndex(init, d0[k].0)
  {
    var pairs := init + [x];
    assert init == pairs[..|pairs| - 1];
    forall k | 0 <= k < |d0|
      ensures d0[k].0 in Keys(init) && FirstIndex(pairs, d0[k].0) == FirstIndex(init, d0[k].0)
    {
      assert d0[k].0 in Keys(d0);
      FirstIndexSnoc(pairs, d0[k].0);
    }
  }

  /** A key new with the last pair has that pair's position as its first index. */
  lemma FirstIndexOfNew(init: Weights, x: (string, real))
    requires x.0 !in Keys(init)
    ensures x.0 in Keys(init + [x]) && FirstIndex(init + [x], x.0) == |init|
  {
    var pairs := init + [x];
    forall j | 0 <= j < |init| ensures pairs[j].0 != x.0 {
      assert pairs[j] == init[j];
    }
    FirstIndexUnique(pairs, x.0, |init|);
  }

  /** An output record: the fields joined by SOH, ended by a newline. */
  function Record(fields: seq<string>): string
  {
    Join(fields, [SOH]) + "\n"
  }

  /** The fields of an input line, after stripping trailing whitespace. */
  function Fields(line: string, isSpace: char -> bool): seq<string>
  {
    Split(RStrip(line, isSpace), SOH)
  }

  /** The body of the `process` loop for one input line: the rule string, the
      sentence and the original word field as one record; a sentence of at most 8
      characters is its own rule and `merge` is not called. None stands for the
      IndexError of a line without a second field. `parseWeights` reads the
      "word:weight" items of the first field, `indexOf` builds the indexed text. */
  method ProcessLine(line: string, isSpace: char -> bool, parseWeights: string -> Weights,
                     indexOf: string -> IndexedString, isAlpha: string -> bool)
    returns (out: Option<string>)
    requires forall t :: indexOf(t).Valid()
    ensures var elements := Fields(line, isSpace);
      out.None? <==> |elements| < 2
    ensures var elements := Fields(line, isSpace);
      |elements| >= 2 && |elements[1]| <= 8 ==> out == Some(Record([elements[1], elements[1], elements[0]]))
    ensures var elements := Fields(line, isSpace);
      |elements| >= 2 && |elements[1]| > 8 ==>
        out == Some(Record([Rules(indexOf(elements[1]), DictOf(parseWeights(elements[0])), isAlpha), elements[1], elements[0]]))
  {
    var elements := Split(RStrip(line, isSpace), SOH);
    if |elements| < 2 {
      return None;
    }
    var sentence := elements[1];
    if |sentence| <= 8 {
      JoinThree(sentence, sentence, elements[0], [SOH]);
      return Some(sentence + [SOH] + sentence + [SOH] + elements[0] + "\n");
    }
    var words := DictOf(parseWeights(elements[0]));
    var rules := Merge(indexOf(sentence), words, isAlpha);
    JoinThree(rules, sentence, elements[0], [SOH]);
    return Some(rules + [SOH] + sentence + [SOH] + elements[0] + "\n");
  }

  lemma PhrasesAvoid(s: IndexedString, words: Weights, isAlpha: string -> bool, acc: seq<Accepted>, c: char)
    requires s.Valid() && EntriesOk(s, words, isAlpha, acc)
    requires forall k :: 0 <= k < |words| ==> c !in words[k].0
    requires c != ' '
    ensures forall k :: 0 <= k < |acc| ==> c !in acc[k].phrase
  {
    forall k | 0 <= k < |acc| ensures c !in acc[k].phrase {
      var a := acc[k];
      assert AcceptedOk(s, words, isAlpha, a);
    }
  }

  /** Every candidate piece avoids a character that is in no dictionary word, nor a space. */
  lemma CandidatesAvoid(s: IndexedString, words: Weights, isAlpha: string -> bool, c: char)
    requires s.Valid() && KeysDistinct(words)
    requires forall k :: 0 <= k < |words| ==> c !in words[k].0
    requires c != ' '
    ensures forall k :: 0 <= k < |Candidates(s, words, isAlpha)| ==> c !in Candidates(s, words, isAlpha)[k]
  {
    var st := Pairs(s, words, isAlpha);
    var threshold := st.maxWeight * 0.1;
    var phrases, alone := Phrases(st.acc), Standalone(words, st.claimed, threshold);
    assert Candidates(s, words, isAlpha) == phrases + alone;
    PairsInvariant(s, words, isAlpha);
    PhrasesAvoid(s, words, isAlpha, st.acc, c);
    forall k | 0 <= k < |alone| ensures c !in alone[k] {
      StandaloneMembers(words, st.claimed, threshold, alone[k]);
    }
  }

  /** A rule string contains no character that is in no dictionary word, neither a space
      nor '&'. */
  lemma RulesAvoid(s: IndexedString, words: Weights, isAlpha: string -> bool, c: char)
    requires s.Valid() && KeysDistinct(words)
    requires forall k :: 0 <= k < |words| ==> c !in words[k].0
    requires c != ' ' && c != '&'
    ensures c !in Rules(s, words, isAlpha)
  {
    var cands := Candidates(s, words, isAlpha);
    CandidatesAvoid(s, words, isAlpha, c);
    StrLeIsTotalOrder();
    var sorted := SortBy(cands, StrLe);
    forall k | 0 <= k < |sorted| ensures c !in sorted[k] {
      assert sorted[k] in multiset(cands);
    }
    JoinAvoids(sorted, "&", c);
  }

  /** A record of SOH-free fields splits back into those fields. */
  lemma RecordFields(fields: seq<string>)
    requires |fields| >= 1
    requires forall k :: 0 <= k < |fields| ==> SOH !in fields[k]
    ensures var r := Record(fields); r[|r| - 1] == '\n' && Split(r[..|r| - 1], SOH) == fields
  {
    var r := Record(fields);
    assert r[..|r| - 1] == Join(fields, [SOH]);
    SplitJoin(fields, SOH);
  }

  /** An output line splits back into the rule string, the sentence and the original word
      field, provided no parsed word contains SOH. */
  lemma ProcessLineFields(line: string, isSpace: char -> bool, parseWeights: string -> Weights,
                          indexOf: string -> IndexedString, isAlpha: string -> bool)
    requires forall t :: indexOf(t).Valid()
    requires var elements := Fields(line, isSpace);
      |elements| >= 2 ==> forall k :: 0 <= k < |parseWeights(elements[0])| ==> SOH !in parseWeights(elements[0])[k].0
    ensures var elements := Fields(line, isSpace);
      |elements| >= 2 && |elements[1]| > 8 ==>
        var r := Record([Rules(indexOf(elements[1]), DictOf(parseWeights(elements[0])), isAlpha), elements[1], elements[0]]);
        Split(r[..|r| - 1], SOH) == [Rules(indexOf(elements[1]), DictOf(parseWeights(elements[0])), isAlpha), elements[1], elements[0]]
  {
    var elements := Fields(line, isSpace);
    if |elements| >= 2 && |elements[1]| > 8 {
      var words := DictOf(parseWeights(elements[0]));
      DictOfAvoids(parseWeights(elements[0]), SOH);
      RulesAvoid(indexOf(elements[1]), words, isAlpha, SOH);
      RecordFields([Rules(indexOf(elements[1]), words, isAlpha), elements[1], elements[0]]);
    }
  }

  /** A character absent from every parsed word is absent from every key of the dict. */
  lemma DictOfAvoids(pairs: Weights, c: char)
    requires forall k :: 0 <= k < |pairs| ==> c !in pairs[k].0
    ensures forall k :: 0 <= k < |DictOf(pairs)| ==> c !in DictOf(pairs)[k].0
  {
    var words := DictOf(pairs);
    forall k | 0 <= k < |words| ensures c !in words[k].0 {
      assert words[k].0 in Keys(pairs);
    }
  }
}
