/**
  The tokenizer glue around HanLP: cutting a text into pieces a bounded-length model
  accepts, putting the tokenized pieces back in text order together with the
  dictionary words, detecting CJK text, and dropping space and punctuation tokens.
*/
module Tokenization {
  import opened Common
  import opened Sorting

  // ---------------------------------------------------------------------------
  // Dictionary matches and the pieces between them

  /** A dictionary match `(word, value, start, end)`: `word` covers `text[start..end]`. */
  datatype Match = Match(word: string, value: int, start: nat, end: nat)

  /** Every match lies inside the text. */
  predicate InText(text: string, matches: seq<Match>)
  {
    forall k :: 0 <= k < |matches| ==> matches[k].start <= matches[k].end <= |text|
  }

  /** What a longest-match scan returns: matches inside the text, in order, not overlapping. */
  predicate WellFormed(text: string, matches: seq<Match>)
  {
    InText(text, matches) &&
    forall k, l :: 0 <= k < l < |matches| ==> matches[k].end <= matches[l].start
  }

  /** The longest piece the sequence model is given. */
  const MaxPiece: nat := 126

  /** A piece of text between dictionary matches, with its offset in the text. */
  datatype Piece = Piece(offset: nat, text: string)
  {
    function End(): nat { offset + |text| }
  }

  /** The gap `text[a..b]` cut into pieces of `MaxPiece` characters, the last one shorter. */
  function Chunks(text: string, a: nat, b: nat): seq<Piece>
    requires b <= |text|
    decreases b - a
  {
    if a >= b then []
    else if a + MaxPiece < b then [Piece(a, text[a..a + MaxPiece])] + Chunks(text, a + MaxPiece, b)
    else [Piece(a, text[a..b])]
  }

  /** The pieces of the text from `pre` on, given the matches that follow `pre`. */
  function Layout(text: string, matches: seq<Match>, pre: nat): seq<Piece>
    requires InText(text, matches)
    decreases |matches|
  {
    if matches == [] then Chunks(text, pre, |text|)
    else Chunks(text, pre, matches[0].start) + Layout(text, matches[1..], matches[0].end)
  }

  /** The piece `p` sits in the text where its offset says. */
  predicate InPlace(text: string, p: Piece)
  {
    p.End() <= |text| && p.text == text[p.offset..p.End()]
  }

  /** Position `i` lies inside some match. */
  predicate Matched(matches: seq<Match>, i: int)
  {
    exists k :: 0 <= k < |matches| && matches[k].start <= i < matches[k].end
  }

  /** Position `i` lies inside some piece. */
  predicate Covered(pieces: seq<Piece>, i: int)
  {
    exists k :: 0 <= k < |pieces| && pieces[k].offset <= i < pieces[k].End()
  }

  lemma {:induction false} ChunksFacts(text: string, a: nat, b: nat)
    requires b <= |text|
    ensures forall k :: 0 <= k < |Chunks(text, a, b)| ==>
      var p := Chunks(text, a, b)[k];
      p.offset == a + MaxPiece * k && 0 < |p.text| <= MaxPiece && p.End() <= b && InPlace(text, p)
    ensures forall k :: 0 <= k < |Chunks(text, a, b)| - 1 ==> |Chunks(text, a, b)[k].text| == MaxPiece
    ensures forall i :: a <= i < b ==> Covered(Chunks(text, a, b), i)
    decreases b - a
  {
    var c := Chunks(text, a, b);
    if a < b && a + MaxPiece < b {
      var rest := Chunks(text, a + MaxPiece, b);
      ChunksFacts(text, a + MaxPiece, b);
      assert c == [Piece(a, text[a..a + MaxPiece])] + rest;
      forall i | a <= i < b ensures Covered(c, i) {
        if i >= a + MaxPiece {
          assert Covered(rest, i);
          var k :| 0 <= k < |rest| && rest[k].offset <= i < rest[k].End();
          assert c[k + 1] == rest[k];
        } else {
          assert c[0].offset <= i < c[0].End();
        }
      }
    } else if a < b {
      assert c[0].offset <= a < c[0].End();
    }
  }

  /** No match starts before `pre`. */
  predicate After(matches: seq<Match>, pre: nat)
  {
    forall k :: 0 <= k < |matches| ==> pre <= matches[k].start
  }

  lemma {:induction false} AfterRest(text: string, matches: seq<Match>)
    requires WellFormed(text, matches) && matches != []
    ensures WellFormed(text, matches[1..]) && After(matches[1..], matches[0].end)
  {
    forall k | 0 <= k < |matches[1..]| ensures matches[0].end <= matches[1..][k].start {
      assert matches[1..][k] == matches[k + 1];
    }
  }

  /** Every piece is non-empty, at most `MaxPiece` long, and is the text at its offset. */
  lemma {:induction false} LayoutInPlace(text: string, matches: seq<Match>, pre: nat)
    requires WellFormed(text, matches) && After(matches, pre)
    ensures forall k :: 0 <= k < |Layout(text, matches, pre)| ==>
      var p := Layout(text, matches, pre)[k];
      pre <= p.offset && 0 < |p.text| <= MaxPiece && InPlace(text, p)
    decreases |matches|
  {
    if matches == [] {
      ChunksFacts(text, pre, |text|);
    } else {
      ChunksFacts(text, pre, matches[0].start);
      AfterRest(text, matches);
      LayoutInPlace(text, matches[1..], matches[0].end);
    }
  }

  /** Pieces come in text order and do not overlap. */
  lemma {:induction false} LayoutOrdered(text: string, matches: seq<Match>, pre: nat)
    requires WellFormed(text, matches) && After(matches, pre)
    ensures forall k, l :: 0 <= k < l < |Layout(text, matches, pre)| ==>
      Layout(text, matches, pre)[k].End() <= Layout(text, matches, pre)[l].offset
    decreases |matches|
  {
    if matches == [] {
      ChunksFacts(text, pre, |text|);
    } else {
      var c := Chunks(text, pre, matches[0].start);
      var r := Layout(text, matches[1..], matches[0].end);
      ChunksFacts(text, pre, matches[0].start);
      AfterRest(text, matches);
      LayoutInPlace(text, matches[1..], matches[0].end);
      LayoutOrdered(text, matches[1..], matches[0].end);
      var L := c + r;
      forall k, l | 0 <= k < l < |L| ensures L[k].End() <= L[l].offset {
        if l < |c| {
        } else if k >= |c| {
          assert L[k] == r[k - |c|] && L[l] == r[l - |c|];
        } else {
          assert L[l] == r[l - |c|];
        }
      }
    }
  }

  /** No piece overlaps a match. */
  lemma {:induction false} LayoutAvoidsMatches(text: string, matches: seq<Match>, pre: nat)
    requires WellFormed(text, matches) && After(matches, pre)
    ensures forall k, m :: 0 <= k < |Layout(text, matches, pre)| && 0 <= m < |matches| ==>
      Layout(text, matches, pre)[k].End() <= matches[m].start || matches[m].end <= Layout(text, matches, pre)[k].offset
    decreases |matches|
  {
    if matches != [] {
      var c := Chunks(text, pre, matches[0].start);
      var r := Layout(text, matches[1..], matches[0].end);
      ChunksFacts(text, pre, matches[0].start);
      AfterRest(text, matches);
      LayoutInPlace(text, matches[1..], matches[0].end);
      LayoutAvoidsMatches(text, matches[1..], matches[0].end);
      var L := c + r;
      forall k, m | 0 <= k < |L| && 0 <= m < |matches|
        ensures L[k].End() <= matches[m].start || matches[m].end <= L[k].offset
      {
        if k < |c| {
          if m > 0 {
            assert matches[0].end <= matches[m].start;
          }
        } else {
          assert L[k] == r[k - |c|];
          if m > 0 {
            assert matches[m] == matches[1..][m - 1];
          }
        }
      }
    }
  }

  /** Every position from `pre` on that no match covers lies in some piece. */
  lemma {:induction false} LayoutCovers(text: string, matches: seq<Match>, pre: nat)
    requires WellFormed(text, matches) && After(matches, pre)
    ensures forall i :: pre <= i < |text| && !Matched(matches, i) ==> Covered(Layout(text, matches, pre), i)
    decreases |matches|
  {
    var L := Layout(text, matches, pre);
    if matches == [] {
      ChunksFacts(text, pre, |text|);
    } else {
      var c := Chunks(text, pre, matches[0].start);
      var r := Layout(text, matches[1..], matches[0].end);
      ChunksFacts(text, pre, matches[0].start);
      AfterRest(text, matches);
      LayoutCovers(text, matches[1..], matches[0].end);
      forall i | pre <= i < |text| && !Matched(matches, i) ensures Covered(L, i) {
        if i < matches[0].start {
          assert Covered(c, i);
          var k :| 0 <= k < |c| && c[k].offset <= i < c[k].End();
          assert L[k] == c[k];
        } else {
          assert !(matches[0].start <= i < matches[0].end);
          assert Covered(r, i);
          var k :| 0 <= k < |r| && r[k].offset <= i < r[k].End();
          assert L[|c| + k] == r[k];
        }
      }
    }
  }

  // ---------------------------------------------------------------------------
  // split_sents

  /** One loop step: the gap before match `k` moves from the pieces to come to those done. */
  lemma LayoutStep(text: string, done: seq<Piece>, matches: seq<Match>, k: nat, pre: nat)
    requires InText(text, matches) && k < |matches|
    ensures InText(text, matches[k..]) && InText(text, matches[k + 1..])
    ensures done + Layout(text, matches[k..], pre) ==
      (done + Chunks(text, pre, matches[k].start)) + Layout(text, matches[k + 1..], matches[k].end)
  {
    assert matches[k..][1..] == matches[k + 1..];
  }

  /** The output lists `sents` and `offsets` hold the texts and offsets of `pieces`. */
  ghost predicate Lists(sents: seq<string>, offsets: seq<nat>, pieces: seq<Piece>)
  {
    |sents| == |pieces| && |offsets| == |pieces| &&
    forall k :: 0 <= k < |pieces| ==> sents[k] == pieces[k].text && offsets[k] == pieces[k].offset
  }

  lemma ListsSnoc(sents: seq<string>, offsets: seq<nat>, pieces: seq<Piece>, p: Piece)
    requires Lists(sents, offsets, pieces)
    ensures Lists(sents + [p.text], offsets + [p.offset], pieces + [p])
  {
  }

  /** One loop step: the next piece moves from the chunks still to come to those done. */
  lemma ChunksPeel(text: string, done: seq<Piece>, a: nat, b: nat)
    requires b <= |text| && a + MaxPiece < b
    ensures done + Chunks(text, a, b) == (done + [Piece(a, text[a..a + MaxPiece])]) + Chunks(text, a + MaxPiece, b)
  {
  }

  /** The last step: at most `MaxPiece` characters remain and form one piece. */
  lemma ChunksLast(text: string, done: seq<Piece>, a: nat, b: nat)
    requires a < b <= |text| && b <= a + MaxPiece
    ensures done + Chunks(text, a, b) == done + [Piece(a, text[a..b])]
  {
  }

  lemma ChunksNone(text: string, done: seq<Piece>, a: nat, b: nat)
    requires b <= |text| && b <= a
    ensures done + Chunks(text, a, b) == done
  {
  }

  /** Appends the chunks of the gap `text[a..b]`; `pre_start` walks the gap in steps of `MaxPiece`. */
  method ChunkGap(text: string, a: nat, b: nat, sents: seq<string>, offsets: seq<nat>, ghost pieces: seq<Piece>)
    returns (sents': seq<string>, offsets': seq<nat>, ghost pieces': seq<Piece>)
    requires b <= |text|
    requires Lists(sents, offsets, pieces)
    ensures pieces' == pieces + Chunks(text, a, b)
    ensures Lists(sents', offsets', pieces')
    ensures sents' == sents + Texts(Chunks(text, a, b)) && offsets' == offsets + Offsets(Chunks(text, a, b))
  {
    sents', offsets', pieces' := sents, offsets, pieces;
    var preStart := a;
    var point := preStart + MaxPiece;
    while point < b
      invariant point == preStart + MaxPiece
      invariant Lists(sents', offsets', pieces')
      invariant pieces' + Chunks(text, preStart, b) == pieces + Chunks(text, a, b)
      decreases b - preStart
    {
      var p := Piece(preStart, text[preStart..point]);
      ChunksPeel(text, pieces', preStart, b);
      ListsSnoc(sents', offsets', pieces', p);
      sents' := sents' + [p.text];
      offsets' := offsets' + [p.offset];
      pieces' := pieces' + [p];
      preStart := point;
      point := point + MaxPiece;
    }
    if preStart < b {
      var p := Piece(preStart, text[preStart..b]);
      ChunksLast(text, pieces', preStart, b);
      ListsSnoc(sents', offsets', pieces', p);
      sents' := sents' + [p.text];
      offsets' := offsets' + [p.offset];
      pieces' := pieces' + [p];
    } else {
      ChunksNone(text, pieces', preStart, b);
    }
    ListsAppend(sents, offsets, pieces, sents', offsets', Chunks(text, a, b));
  }

  /** Lists that extend `sents` and `offsets` by the pieces `more` end in their texts and offsets. */
  lemma ListsAppend(sents: seq<string>, offsets: seq<nat>, pieces: seq<Piece>,
                    sents': seq<string>, offsets': seq<nat>, more: seq<Piece>)
    requires Lists(sents, offsets, pieces) && Lists(sents', offsets', pieces + more)
    ensures sents' == sents + Texts(more) && offsets' == offsets + Offsets(more)
  {
    var all := pieces + more;
    var texts, offs := Texts(more), Offsets(more);
    forall k | 0 <= k < |sents'| ensures sents'[k] == (sents + texts)[k] {
      if k >= |sents| { assert all[k] == more[k - |pieces|]; }
    }
    forall k | 0 <= k < |offsets'| ensures offsets'[k] == (offsets + offs)[k] {
      if k >= |offsets| { assert all[k] == more[k - |pieces|]; }
    }
  }

  /**
    Cuts the text around the dictionary matches: the matches are returned as they are,
    and every gap between them is cut into pieces of at most `MaxPiece` characters whose
    texts and offsets come back in `sents` and `offsets`.
  */
  method SplitSents(text: string, matches: seq<Match>) returns (sents: seq<string>, offsets: seq<nat>, words: seq<Match>)
    requires InText(text, matches)
    ensures words == matches
    ensures |sents| == |offsets| == |Layout(text, matches, 0)|
    ensures forall k :: 0 <= k < |sents| ==>
      sents[k] == Layout(text, matches, 0)[k].text && offsets[k] == Layout(text, matches, 0)[k].offset
  {
    words := matches;
    sents, offsets := [], [];
    ghost var pieces: seq<Piece> := [];
    var preStart: nat := 0;
    for k := 0 to |matches|
      invariant Lists(sents, offsets, pieces)
      invariant pieces + Layout(text, matches[k..], preStart) == Layout(text, matches, 0)
    {
      var m := matches[k];
      LayoutStep(text, pieces, matches, k, preStart);
      if preStart != m.start {
        sents, offsets, pieces := ChunkGap(text, preStart, m.start, sents, offsets, pieces);
      } else {
        ChunksNone(text, pieces, preStart, m.start);
      }
      preStart := m.end;
    }
    var end := |text|;
    if preStart != end {
      sents, offsets, pieces := ChunkGap(text, preStart, end, sents, offsets, pieces);
    }
  }

  /**
    What `split_sents` returns, read on its output lists: every piece is non-empty, at most
    `MaxPiece` long and the text at its offset; offsets increase; no piece overlaps a match.
  */
  lemma SplitSentsFacts(text: string, matches: seq<Match>, sents: seq<string>, offsets: seq<nat>)
    requires WellFormed(text, matches)
    requires |sents| == |offsets| == |Layout(text, matches, 0)|
    requires forall k :: 0 <= k < |sents| ==>
      sents[k] == Layout(text, matches, 0)[k].text && offsets[k] == Layout(text, matches, 0)[k].offset
    ensures forall k :: 0 <= k < |sents| ==>
      0 < |sents[k]| <= MaxPiece && offsets[k] + |sents[k]| <= |text| &&
      sents[k] == text[offsets[k]..offsets[k] + |sents[k]|]
    ensures forall k, l :: 0 <= k < l < |sents| ==> offsets[k] + |sents[k]| <= offsets[l]
    ensures forall k, m :: 0 <= k < |sents| && 0 <= m < |matches| ==>
      offsets[k] + |sents[k]| <= matches[m].start || matches[m].end <= offsets[k]
  {
    LayoutInPlace(text, matches, 0);
    LayoutOrdered(text, matches, 0);
    LayoutAvoidsMatches(text, matches, 0);
  }

  /** Read on the output lists of `split_sents`: every position outside the matches is in some piece. */
  lemma SplitSentsCover(text: string, matches: seq<Match>, sents: seq<string>, offsets: seq<nat>)
    requires WellFormed(text, matches)
    requires |sents| == |offsets| == |Layout(text, matches, 0)|
    requires forall k :: 0 <= k < |sents| ==>
      sents[k] == Layout(text, matches, 0)[k].text && offsets[k] == Layout(text, matches, 0)[k].offset
    ensures forall i :: 0 <= i < |text| && !Matched(matches, i) ==>
      exists k :: 0 <= k < |sents| && offsets[k] <= i < offsets[k] + |sents[k]|
  {
    var L := Layout(text, matches, 0);
    LayoutCovers(text, matches, 0);
    forall i | 0 <= i < |text| && !Matched(matches, i)
      ensures exists k :: 0 <= k < |sents| && offsets[k] <= i < offsets[k] + |sents[k]|
    {
      assert Covered(L, i);
      var k :| 0 <= k < |L| && L[k].offset <= i < L[k].End();
      assert offsets[k] <= i < offsets[k] + |sents[k]|;
    }
  }

  // ---------------------------------------------------------------------------
  // merge_parts

  /** An `(offset, tokens)` entry to be ordered. */
  type Item = (int, seq<string>)

  /** `zip(offsets, parts)`: pairs up to the shorter of the two lists. */
  function Zip(offsets: seq<nat>, parts: seq<seq<string>>): (r: seq<Item>)
  {
    seq(Min(|offsets|, |parts|), k requires 0 <= k < Min(|offsets|, |parts|) => (offsets[k] as int, parts[k]))
  }

  /** Each match as the one-token entry `(start, [word])`. */
  function WordItems(matches: seq<Match>): (r: seq<Item>)
    ensures |r| == |matches|
    ensures forall k :: 0 <= k < |r| ==> r[k] == (matches[k].start as int, [matches[k].word])
  {
    seq(|matches|, k requires 0 <= k < |matches| => (matches[k].start as int, [matches[k].word]))
  }

  /** The token lists of the entries, one after another. */
  function Flatten(items: seq<Item>): seq<string>
    decreases |items|
  {
    if items == [] then [] else items[0].1 + Flatten(items[1..])
  }

  /** The entries `merge_parts` sorts. */
  function MergeItems(parts: seq<seq<string>>, offsets: seq<nat>, matches: seq<Match>): seq<Item>
  {
    Zip(offsets, parts) + WordItems(matches)
  }

  /** `merge_parts`: the tokens of all entries, the entries sorted as Python sorts tuples. */
  function MergeParts(parts: seq<seq<string>>, offsets: seq<nat>, matches: seq<Match>): seq<string>
  {
    ItemLeIsTotalOrder();
    Flatten(SortBy(MergeItems(parts, offsets, matches), ItemLe))
  }

  /** The merged tokens are those of any sorted arrangement of the entries: tuple order leaves no ties to break. */
  lemma MergePartsAnyArrangement(parts: seq<seq<string>>, offsets: seq<nat>, matches: seq<Match>, arranged: seq<Item>)
    requires multiset(arranged) == multiset(MergeItems(parts, offsets, matches))
    requires SortedBy(arranged, ItemLe)
    ensures MergeParts(parts, offsets, matches) == Flatten(arranged)
  {
    ItemLeIsTotalOrder();
    SortedUnique(SortBy(MergeItems(parts, offsets, matches), ItemLe), arranged, ItemLe);
  }

  lemma {:induction false} FlattenAppend(a: seq<Item>, b: seq<Item>)
    ensures Flatten(a + b) == Flatten(a) + Flatten(b)
    decreases |a|
  {
    if a == [] {
      assert a + b == b;
    } else {
      FlattenAppend(a[1..], b);
      assert (a + b)[1..] == a[1..] + b;
    }
  }

  // ---------------------------------------------------------------------------
  // Splitting and merging back

  /** Each piece as the entry `(offset, [text])` an identity tokenizer would give. */
  function PieceItems(pieces: seq<Piece>): (r: seq<Item>)
    ensures |r| == |pieces|
    ensures forall k :: 0 <= k < |r| ==> r[k] == (pieces[k].offset as int, [pieces[k].text])
  {
    seq(|pieces|, k requires 0 <= k < |pieces| => (pieces[k].offset as int, [pieces[k].text]))
  }

  /** The pieces and the matches as entries, in the order they occur in the text. */
  function Interleave(text: string, matches: seq<Match>, pre: nat): seq<Item>
    requires InText(text, matches)
    decreases |matches|
  {
    if matches == [] then PieceItems(Chunks(text, pre, |text|))
    else
      PieceItems(Chunks(text, pre, matches[0].start)) + [(matches[0].start as int, [matches[0].word])]
      + Interleave(text, matches[1..], matches[0].end)
  }

  /** Every match is non-empty and its word is the text it covers. */
  predicate WordsInPlace(text: string, matches: seq<Match>)
    requires InText(text, matches)
  {
    forall k :: 0 <= k < |matches| ==>
      matches[k].start < matches[k].end && matches[k].word == text[matches[k].start..matches[k].end]
  }

  /** Entry offsets strictly increase. */
  predicate Ascending(items: seq<Item>)
  {
    forall i, j :: 0 <= i < j < |items| ==> items[i].0 < items[j].0
  }

  lemma PieceItemsAppend(a: seq<Piece>, b: seq<Piece>)
    ensures PieceItems(a + b) == PieceItems(a) + PieceItems(b)
  {
  }

  lemma WordItemsCons(matches: seq<Match>)
    requires matches != []
    ensures WordItems(matches) == [(matches[0].start as int, [matches[0].word])] + WordItems(matches[1..])
  {
  }

  /** The entries in text order are exactly the piece entries and the word entries. */
  lemma {:induction false} InterleaveEntries(text: string, matches: seq<Match>, pre: nat)
    requires InText(text, matches)
    ensures multiset(Interleave(text, matches, pre)) ==
      multiset(PieceItems(Layout(text, matches, pre))) + multiset(WordItems(matches))
    decreases |matches|
  {
    if matches == [] {
      assert WordItems(matches) == [];
    } else {
      var c := PieceItems(Chunks(text, pre, matches[0].start));
      var w := (matches[0].start as int, [matches[0].word]);
      var r := Interleave(text, matches[1..], matches[0].end);
      var rl := PieceItems(Layout(text, matches[1..], matches[0].end));
      var rw := WordItems(matches[1..]);
      InterleaveEntries(text, matches[1..], matches[0].end);
      PieceItemsAppend(Chunks(text, pre, matches[0].start), Layout(text, matches[1..], matches[0].end));
      WordItemsCons(matches);
      calc {
        multiset(Interleave(text, matches, pre));
        multiset(c + [w] + r);
        multiset(c) + multiset{w} + multiset(r);
        multiset(c) + multiset{w} + (multiset(rl) + multiset(rw));
        multiset(c + rl) + multiset([w] + rw);
      }
    }
  }

  /** Entries all offset below `w` and entries all offset above it, in order, around `w`. */
  lemma AscendingAround(c: seq<Item>, w: Item, r: seq<Item>)
    requires Ascending(c) && Ascending(r)
    requires forall k :: 0 <= k < |c| ==> c[k].0 < w.0
    requires forall k :: 0 <= k < |r| ==> w.0 < r[k].0
    ensures Ascending(c + [w] + r)
  {
    var all := c + [w] + r;
    forall i, j | 0 <= i < j < |all| ensures all[i].0 < all[j].0 {
      if j < |c| {
        assert all[i] == c[i] && all[j] == c[j];
      } else if i > |c| {
        assert all[i] == r[i - |c| - 1] && all[j] == r[j - |c| - 1];
      } else if i == |c| {
        assert all[j] == r[j - |c| - 1];
      } else if j == |c| {
        assert all[i] == c[i];
      } else {
        assert all[i] == c[i] && all[j] == r[j - |c| - 1];
      }
    }
  }

  lemma {:induction false} ChunkItemsAscending(text: string, a: nat, b: nat)
    requires b <= |text|
    ensures Ascending(PieceItems(Chunks(text, a, b)))
    ensures forall k :: 0 <= k < |Chunks(text, a, b)| ==> a <= PieceItems(Chunks(text, a, b))[k].0 < b
  {
    ChunksFacts(text, a, b);
  }

  lemma {:induction false} InterleaveAscending(text: string, matches: seq<Match>, pre: nat)
    requires WellFormed(text, matches) && After(matches, pre) && WordsInPlace(text, matches)
    ensures Ascending(Interleave(text, matches, pre))
    ensures forall k :: 0 <= k < |Interleave(text, matches, pre)| ==> pre <= Interleave(text, matches, pre)[k].0
    decreases |matches|
  {
    if matches == [] {
      ChunkItemsAscending(text, pre, |text|);
    } else {
      var m := matches[0];
      var c := PieceItems(Chunks(text, pre, m.start));
      var w := (m.start as int, [m.word]);
      var r := Interleave(text, matches[1..], m.end);
      ChunkItemsAscending(text, pre, m.start);
      AfterRest(text, matches);
      assert WordsInPlace(text, matches[1..]) by {
        forall k | 0 <= k < |matches[1..]| ensures matches[1..][k] == matches[k + 1] { }
      }
      InterleaveAscending(text, matches[1..], m.end);
      assert m.start < m.end;
      AscendingAround(c, w, r);
      assert Interleave(text, matches, pre) == c + [w] + r;
      forall k | 0 <= k < |c + [w] + r| ensures pre <= (c + [w] + r)[k].0 {
        if k < |c| { assert (c + [w] + r)[k] == c[k]; }
        else if k > |c| { assert (c + [w] + r)[k] == r[k - |c| - 1]; }
      }
    }
  }

  lemma SliceTwo(text: string, a: nat, b: nat, c: nat)
    requires a <= b <= c <= |text|
    ensures text[a..c] == text[a..b] + text[b..c]
  {
  }

  lemma ConcatPieceCons(p: Piece, rest: seq<Piece>)
    ensures Concat(Flatten(PieceItems([p] + rest))) == p.text + Concat(Flatten(PieceItems(rest)))
  {
    PieceItemsAppend([p], rest);
    var x := (p.offset as int, [p.text]);
    assert PieceItems([p] + rest) == [x] + PieceItems(rest);
    assert ([x] + PieceItems(rest))[1..] == PieceItems(rest);
    assert Flatten(PieceItems([p] + rest)) == [p.text] + Flatten(PieceItems(rest));
    ConcatAppend([p.text], Flatten(PieceItems(rest)));
  }

  lemma {:induction false} ChunksConcat(text: string, a: nat, b: nat)
    requires a <= b <= |text|
    ensures Concat(Flatten(PieceItems(Chunks(text, a, b)))) == text[a..b]
    decreases b - a
  {
    if a < b && a + MaxPiece < b {
      var p := Piece(a, text[a..a + MaxPiece]);
      ConcatPieceCons(p, Chunks(text, a + MaxPiece, b));
      ChunksConcat(text, a + MaxPiece, b);
      SliceTwo(text, a, a + MaxPiece, b);
    } else if a < b {
      ConcatPieceCons(Piece(a, text[a..b]), []);
      assert [Piece(a, text[a..b])] + [] == Chunks(text, a, b);
    }
  }

  lemma SliceAround(text: string, a: nat, b: nat, c: nat)
    requires a <= b <= c <= |text|
    ensures text[a..] == text[a..b] + text[b..c] + text[c..]
  {
  }

  /** Concatenating around one word entry. */
  lemma ConcatAround(c: seq<Item>, w: Item, r: seq<Item>, word: string)
    requires w.1 == [word]
    ensures Concat(Flatten(c + [w] + r)) == Concat(Flatten(c)) + word + Concat(Flatten(r))
  {
    FlattenAppend(c + [w], r);
    FlattenAppend(c, [w]);
    assert [w][1..] == [];
    assert Flatten([w]) == [word];
    ConcatAppend(Flatten(c) + [word], Flatten(r));
    ConcatAppend(Flatten(c), [word]);
    assert Concat([word]) == word;
  }

  /** Read in text order, the pieces and the matched words give back the text from `pre` on. */
  lemma {:induction false} InterleaveConcat(text: string, matches: seq<Match>, pre: nat)
    requires WellFormed(text, matches) && After(matches, pre) && WordsInPlace(text, matches)
    requires pre <= |text|
    ensures Concat(Flatten(Interleave(text, matches, pre))) == text[pre..]
    decreases |matches|
  {
    if matches == [] {
      ChunksConcat(text, pre, |text|);
    } else {
      var m := matches[0];
      var c := PieceItems(Chunks(text, pre, m.start));
      var w := (m.start as int, [m.word]);
      var r := Interleave(text, matches[1..], m.end);
      AfterRest(text, matches);
      assert WordsInPlace(text, matches[1..]) by {
        forall k | 0 <= k < |matches[1..]| ensures matches[1..][k] == matches[k + 1] { }
      }
      InterleaveConcat(text, matches[1..], m.end);
      ChunksConcat(text, pre, m.start);
      ConcatAround(c, w, r, m.word);
      assert Interleave(text, matches, pre) == c + [w] + r;
      SliceAround(text, pre, m.start, m.end);
    }
  }

  /**
    With a tokenizer that returns every piece whole, merging the split pieces with the
    matched words gives back the text: `merge_parts` undoes `split_sents`.
  */
  lemma MergeUndoesSplit(text: string, matches: seq<Match>, sents: seq<string>, offsets: seq<nat>)
    requires WellFormed(text, matches) && WordsInPlace(text, matches)
    requires |sents| == |offsets| == |Layout(text, matches, 0)|
    requires forall k :: 0 <= k < |sents| ==>
      sents[k] == Layout(text, matches, 0)[k].text && offsets[k] == Layout(text, matches, 0)[k].offset
    ensures Concat(MergeParts(seq(|sents|, k requires 0 <= k < |sents| => [sents[k]]), offsets, matches)) == text
  {
    var parts := seq(|sents|, k requires 0 <= k < |sents| => [sents[k]]);
    var L := Layout(text, matches, 0);
    assert Zip(offsets, parts) == PieceItems(L);
    InterleaveEntries(text, matches, 0);
    InterleaveAscending(text, matches, 0);
    var arranged := Interleave(text, matches, 0);
    assert SortedBy(arranged, ItemLe);
    MergePartsAnyArrangement(parts, offsets, matches, arranged);
    InterleaveConcat(text, matches, 0);
    assert text[0..] == text;
  }

  // ---------------------------------------------------------------------------
  // CJK detection

  /** `_is_chinese_char`: the code point lies in one of the CJK blocks. */
  predicate IsChineseChar(cp: int)
  {
    (0x4E00 <= cp <= 0x9FFF) ||
    (0x3400 <= cp <= 0x4DBF) ||
    (0x20000 <= cp <= 0x2A6DF) ||
    (0x2A700 <= cp <= 0x2B73F) ||
    (0x2B740 <= cp <= 0x2B81F) ||
    (0x2B820 <= cp <= 0x2CEAF) ||
    (0xF900 <= cp <= 0xFAFF) ||
    (0x2F800 <= cp <= 0x2FA1F)
  }

  /** The text has a character that is Chinese. */
  predicate HasChineseChar(text: string)
  {
    exists i :: 0 <= i < |text| && IsChineseChar(text[i] as int)
  }

  /** `has_chinese`: scans the text and stops at the first Chinese character. */
  method HasChinese(text: string) returns (b: bool)
    ensures b <==> HasChineseChar(text)
  {
    for i := 0 to |text|
      invariant forall j :: 0 <= j < i ==> !IsChineseChar(text[j] as int)
    {
      if IsChineseChar(text[i] as int) {
        return true;
      }
    }
    return false;
  }

  /** The scripts the test leaves out on purpose: Hangul Jamo, Hiragana, Katakana and
      Hangul syllables, which are written with spaces between words, and ASCII. */
  predicate SpacedScript(cp: int)
  {
    cp < 0x80 || (0x1100 <= cp <= 0x11FF) || (0x3040 <= cp <= 0x30FF) || (0xAC00 <= cp <= 0xD7AF)
  }

  /** A text written only in those scripts is not Chinese, so it takes the English path. */
  lemma SpacedScriptsNotChinese(text: string)
    requires forall i :: 0 <= i < |text| ==> SpacedScript(text[i] as int)
    ensures !HasChineseChar(text)
  {
    forall i | 0 <= i < |text| ensures !IsChineseChar(text[i] as int) {
      assert SpacedScript(text[i] as int);
    }
  }

  /** Whether a text is Chinese is decided by its characters alone: joining two texts
      gives a Chinese text exactly when one of them is. */
  lemma HasChineseConcat(a: string, b: string)
    ensures HasChineseChar(a + b) <==> HasChineseChar(a) || HasChineseChar(b)
  {
    var t := a + b;
    if HasChineseChar(t) {
      var i :| 0 <= i < |t| && IsChineseChar(t[i] as int);
      if i < |a| {
        assert t[i] == a[i];
      } else {
        assert t[i] == b[i - |a|];
      }
    }
    if HasChineseChar(a) {
      var i :| 0 <= i < |a| && IsChineseChar(a[i] as int);
      assert t[i] == a[i];
    }
    if HasChineseChar(b) {
      var i :| 0 <= i < |b| && IsChineseChar(b[i] as int);
      assert t[|a| + i] == b[i];
    }
  }

  // ---------------------------------------------------------------------------
  // Punctuation and the token filter

  /** Chinese punctuation that does not end a sentence. */
  const NonStops: string :=
    "\U{FF02}\U{FF03}\U{FF04}\U{FF05}\U{FF06}\U{FF07}\U{FF08}\U{FF09}\U{FF0A}\U{FF0B}\U{FF0C}\U{FF0D}" +
    "\U{FF0F}\U{FF1A}\U{FF1B}\U{FF1C}\U{FF1D}\U{FF1E}\U{FF20}\U{FF3B}\U{FF3C}\U{FF3D}\U{FF3E}\U{FF3F}" +
    "\U{FF40}\U{FF5B}\U{FF5C}\U{FF5D}\U{FF5E}\U{FF5F}\U{FF60}\U{FF62}\U{FF63}\U{FF64}\U{3000}\U{3001}" +
    "\U{3003}\U{3008}\U{3009}\U{300A}\U{300B}\U{300C}\U{300D}\U{300E}\U{300F}\U{3010}\U{3011}\U{3014}" +
    "\U{3015}\U{3016}\U{3017}\U{3018}\U{3019}\U{301A}\U{301B}\U{301C}\U{301D}\U{301E}\U{301F}\U{3030}" +
    "\U{303E}\U{303F}\U{2013}\U{2014}\U{2018}\U{2019}\U{201B}\U{201C}\U{201D}\U{201E}\U{201F}\U{2026}" +
    "\U{2027}\U{FE4F}\U{FE51}\U{FE54}\U{00B7}"

  /** Chinese sentence stops. */
  const Stops: string := "\U{FF01}\U{FF1F}\U{FF61}\U{3002}"

  /** All Chinese punctuation. */
  const Punctuation: string := NonStops + Stops

  /** Python's `string.punctuation`. */
  const AsciiPunctuation: string := "!\"#$%&'()*+,-./:;<=>?@[\\]^_`{|}~"

  /** Python's `x in s` for strings: `x` occurs in `s` as a substring. */
  predicate IsSubstring(x: string, s: string)
  {
    exists i, j :: 0 <= i <= j <= |s| && s[i..j] == x
  }

  /** `filter_fn`: keeps a token that is not a single space and not a part of either punctuation string. */
  predicate KeepToken(x: string)
  {
    x != " " && !IsSubstring(x, Punctuation) && !IsSubstring(x, AsciiPunctuation)
  }

  /** `list(filter(keep, tokens))` */
  function Filter(keep: string -> bool, tokens: seq<string>): seq<string>
    decreases |tokens|
  {
    if tokens == [] then []
    else if keep(tokens[0]) then [tokens[0]] + Filter(keep, tokens[1..])
    else Filter(keep, tokens[1..])
  }

  function Shift(idx: seq<nat>): (r: seq<nat>)
    ensures |r| == |idx|
    ensures forall k :: 0 <= k < |r| ==> r[k] == idx[k] + 1
  {
    seq(|idx|, k requires 0 <= k < |idx| => idx[k] + 1)
  }

  /** The positions of the tokens the filter keeps. */
  function KeptAt(keep: string -> bool, tokens: seq<string>): seq<nat>
    decreases |tokens|
  {
    if tokens == [] then []
    else if keep(tokens[0]) then [0] + Shift(KeptAt(keep, tokens[1..]))
    else Shift(KeptAt(keep, tokens[1..]))
  }

  /** The kept positions ascend. */
  lemma {:induction false} KeptAtAscending(keep: string -> bool, tokens: seq<string>)
    ensures forall k, l :: 0 <= k < l < |KeptAt(keep, tokens)| ==> KeptAt(keep, tokens)[k] < KeptAt(keep, tokens)[l]
    decreases |tokens|
  {
    if tokens != [] {
      KeptAtAscending(keep, tokens[1..]);
      var sh := Shift(KeptAt(keep, tokens[1..]));
      if keep(tokens[0]) {
        var idx := [0] + sh;
        forall k, l | 0 <= k < l < |idx| ensures idx[k] < idx[l] {
          if k > 0 { assert idx[k] == sh[k - 1]; }
          assert idx[l] == sh[l - 1];
        }
      }
    }
  }

  /** Each kept position is a position of the list whose token passes `keep`. */
  lemma {:induction false} KeptAtPass(keep: string -> bool, tokens: seq<string>)
    ensures forall k :: 0 <= k < |KeptAt(keep, tokens)| ==>
      KeptAt(keep, tokens)[k] < |tokens| && keep(tokens[KeptAt(keep, tokens)[k]])
    decreases |tokens|
  {
    if tokens != [] {
      var rest := tokens[1..];
      var r := KeptAt(keep, rest);
      var sh := Shift(r);
      KeptAtPass(keep, rest);
      forall k | 0 <= k < |sh| ensures sh[k] < |tokens| && keep(tokens[sh[k]]) {
        assert tokens[sh[k]] == rest[r[k]];
      }
      if keep(tokens[0]) {
        var idx := [0] + sh;
        forall k | 0 <= k < |idx| ensures idx[k] < |tokens| && keep(tokens[idx[k]]) {
          if k > 0 { assert idx[k] == sh[k - 1]; }
        }
      }
    }
  }

  /** Every position whose token passes `keep` is kept. */
  lemma {:induction false} KeptAtComplete(keep: string -> bool, tokens: seq<string>)
    ensures forall j :: 0 <= j < |tokens| && keep(tokens[j]) ==> j in KeptAt(keep, tokens)
    decreases |tokens|
  {
    if tokens != [] {
      var rest := tokens[1..];
      var r := KeptAt(keep, rest);
      var sh := Shift(r);
      KeptAtComplete(keep, rest);
      forall j | 1 <= j < |tokens| && keep(tokens[j]) ensures j in sh {
        assert rest[j - 1] == tokens[j];
        var k :| 0 <= k < |r| && r[k] == j - 1;
        assert sh[k] == j;
      }
      if keep(tokens[0]) {
        var idx := [0] + sh;
        forall j | 0 <= j < |tokens| && keep(tokens[j]) ensures j in idx {
          if j > 0 { assert j in sh; }
        }
      }
    }
  }

  /** The filter keeps exactly the tokens at the kept positions, in their order. */
  lemma {:induction false} FilterKept(keep: string -> bool, tokens: seq<string>)
    ensures |Filter(keep, tokens)| == |KeptAt(keep, tokens)|
    ensures forall k :: 0 <= k < |KeptAt(keep, tokens)| ==>
      KeptAt(keep, tokens)[k] < |tokens| && Filter(keep, tokens)[k] == tokens[KeptAt(keep, tokens)[k]]
    decreases |tokens|
  {
    if tokens != [] {
      FilterKept(keep, tokens[1..]);
      var rest := KeptAt(keep, tokens[1..]);
      var shifted := Shift(rest);
      var r := Filter(keep, tokens[1..]);
      forall k | 0 <= k < |rest| ensures shifted[k] < |tokens| && r[k] == tokens[shifted[k]] {
        assert tokens[shifted[k]] == tokens[1..][rest[k]];
      }
      if keep(tokens[0]) {
        var idx := [0] + shifted;
        var f := [tokens[0]] + r;
        assert KeptAt(keep, tokens) == idx && Filter(keep, tokens) == f;
        forall k | 0 <= k < |idx| ensures idx[k] < |tokens| && f[k] == tokens[idx[k]] {
          if k > 0 { assert idx[k] == shifted[k - 1] && f[k] == r[k - 1]; }
        }
      }
    }
  }

  /** A token survives the filter exactly when it occurred and passes `keep`. */
  lemma {:induction false} FilterMembers(keep: string -> bool, tokens: seq<string>)
    ensures forall x :: x in Filter(keep, tokens) <==> x in tokens && keep(x)
    decreases |tokens|
  {
    if tokens != [] {
      FilterMembers(keep, tokens[1..]);
      assert tokens == [tokens[0]] + tokens[1..];
    }
  }

  /** The `tokenize` filter. */
  function FilterTokens(tokens: seq<string>): seq<string>
  {
    Filter(KeepToken, tokens)
  }

  lemma CharSubstring(c: char, s: string)
    ensures c in s ==> IsSubstring([c], s)
  {
    if c in s {
      var i :| 0 <= i < |s| && s[i] == c;
      assert s[i..i + 1] == [c];
    }
  }

  /** No surviving token is empty, a space, or a single punctuation mark. */
  lemma FilterDropsPunctuation(tokens: seq<string>)
    ensures forall x :: x in FilterTokens(tokens) ==>
      x != "" && x != " " && (|x| == 1 ==> x[0] !in Punctuation && x[0] !in AsciiPunctuation)
  {
    FilterMembers(KeepToken, tokens);
    forall x | x in FilterTokens(tokens)
      ensures x != "" && x != " " && (|x| == 1 ==> x[0] !in Punctuation && x[0] !in AsciiPunctuation)
    {
      assert Punctuation[0..0] == "";
      if |x| == 1 {
        assert x == [x[0]];
        CharSubstring(x[0], Punctuation);
        CharSubstring(x[0], AsciiPunctuation);
      }
    }
  }

  // ---------------------------------------------------------------------------
  // tokenize

  function Texts(pieces: seq<Piece>): (r: seq<string>)
    ensures |r| == |pieces| && forall k :: 0 <= k < |r| ==> r[k] == pieces[k].text
  {
    seq(|pieces|, k requires 0 <= k < |pieces| => pieces[k].text)
  }

  function Offsets(pieces: seq<Piece>): (r: seq<nat>)
    ensures |r| == |pieces| && forall k :: 0 <= k < |r| ==> r[k] == pieces[k].offset
  {
    seq(|pieces|, k requires 0 <= k < |pieces| => pieces[k].offset)
  }

  /**
    `tokenize`: CJK text goes through split, the sequence tokenizer `zh` (one token list
    per piece) and merge; other text through the rule-based tokenizer `en`; then spaces
    and punctuation are dropped. `matches` is the dictionary scan of `text`.
  */
  method Tokenize(text: string, matches: seq<Match>,
                  zh: seq<string> -> seq<seq<string>>, en: string -> seq<string>)
    returns (tokens: seq<string>)
    requires InText(text, matches)
    ensures HasChineseChar(text) ==>
      tokens == FilterTokens(MergeParts(zh(Texts(Layout(text, matches, 0))), Offsets(Layout(text, matches, 0)), matches))
    ensures !HasChineseChar(text) ==> tokens == FilterTokens(en(text))
  {
    var chinese := HasChinese(text);
    var ret: seq<string>;
    if chinese {
      var sents, offsets, words := SplitSents(text, matches);
      assert sents == Texts(Layout(text, matches, 0));
      assert offsets == Offsets(Layout(text, matches, 0));
      ret := MergeParts(zh(sents), offsets, words);
    } else {
      ret := en(text);
    }
    tokens := FilterTokens(ret);
  }
}
