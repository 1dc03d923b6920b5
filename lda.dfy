/**
 * The data handling of the LDA experiment: reading a `docword` file into
 * per-document `[word, count]` entries, taking the first n documents with
 * their vocabulary compacted in place, generating synthetic documents from a
 * stream of random draws, and listing the most probable words of a topic.
 */
module Lda {
  import opened Wrappers
  import opened JsString
  import NumberText

  /** A `[word, count]` pair of a document; `subsample` rewrites its word in place. */
  class Entry {
    var word: int
    var count: int

    constructor(word: int, count: int)
      ensures this.word == word && this.count == count
    {
      this.word := word;
      this.count := count;
    }
  }

  type Doc = seq<Entry>

  /** Every entry object of the documents. */
  function Footprint(docs: seq<Doc>): set<Entry> {
    set i, j | 0 <= i < |docs| && 0 <= j < |docs[i]| :: docs[i][j]
  }

  /** The entries of document i are different objects, and none of them is in another document. */
  predicate Apart(docs: seq<Doc>, i: nat)
    requires i < |docs|
  {
    (forall j, j' :: 0 <= j < j' < |docs[i]| ==> docs[i][j] != docs[i][j']) &&
    (forall i', j :: 0 <= i' < |docs| && i' != i && 0 <= j < |docs[i']| ==> docs[i'][j] !in docs[i])
  }

  /** No entry object is shared between two places of the documents, as `loadDocwords` builds them. */
  predicate Unaliased(docs: seq<Doc>) {
    forall i | 0 <= i < |docs| :: Apart(docs, i)
  }

  /** The words of one document, in order. */
  function DocWords(doc: Doc): (ws: seq<int>)
    reads set e | e in doc
    ensures |ws| == |doc| && forall j :: 0 <= j < |doc| ==> ws[j] == doc[j].word
  {
    if doc == [] then [] else DocWords(doc[..|doc| - 1]) + [doc[|doc| - 1].word]
  }

  /** The counts of one document, in order. */
  function DocCounts(doc: Doc): (cs: seq<int>)
    reads set e | e in doc
    ensures |cs| == |doc| && forall j :: 0 <= j < |doc| ==> cs[j] == doc[j].count
  {
    if doc == [] then [] else DocCounts(doc[..|doc| - 1]) + [doc[|doc| - 1].count]
  }

  /** The words of every document. */
  function WordTable(docs: seq<Doc>): (t: seq<seq<int>>)
    reads Footprint(docs)
    ensures |t| == |docs| && forall i :: 0 <= i < |docs| ==> t[i] == DocWords(docs[i])
  {
    if docs == [] then []
    else
      assert forall e | e in docs[|docs| - 1] :: e in Footprint(docs);
      WordTable(docs[..|docs| - 1]) + [DocWords(docs[|docs| - 1])]
  }

  /** The counts of every document. */
  function CountTable(docs: seq<Doc>): (t: seq<seq<int>>)
    reads Footprint(docs)
    ensures |t| == |docs| && forall i :: 0 <= i < |docs| ==> t[i] == DocCounts(docs[i])
  {
    if docs == [] then []
    else
      assert forall e | e in docs[|docs| - 1] :: e in Footprint(docs);
      CountTable(docs[..|docs| - 1]) + [DocCounts(docs[|docs| - 1])]
  }

  /** The rows of the first k documents one after the other, in the order `subsample` visits them. */
  function Flatten(t: seq<seq<int>>, k: nat): seq<int>
    requires k <= |t|
  {
    if k == 0 then [] else Flatten(t, k - 1) + t[k - 1]
  }

  /** The words of the first k documents, in the order `subsample` visits them. */
  function Words(docs: seq<Doc>, k: nat): seq<int>
    requires k <= |docs|
    reads Footprint(docs)
  {
    Flatten(WordTable(docs), k)
  }

  // ---------------------------------------------------------------------------
  // The compaction of word ids.

  /** The distinct words of ws, in order of first occurrence. */
  function Distinct(ws: seq<int>): seq<int> {
    if ws == [] then []
    else
      var d := Distinct(ws[..|ws| - 1]);
      if ws[|ws| - 1] in d then d else d + [ws[|ws| - 1]]
  }

  /** The distinct words are the words, each once. */
  lemma {:induction false} DistinctWords(ws: seq<int>)
    ensures forall w :: w in Distinct(ws) <==> w in ws
    ensures forall s, t :: 0 <= s < t < |Distinct(ws)| ==> Distinct(ws)[s] != Distinct(ws)[t]
  {
    if ws != [] {
      var init := ws[..|ws| - 1];
      assert ws == init + [ws[|ws| - 1]];
      DistinctWords(init);
    }
  }

  /** The place of w in d, its first one. */
  function Position(d: seq<int>, w: int): (r: nat)
    requires w in d
    ensures r < |d| && d[r] == w
    ensures forall s :: 0 <= s < r ==> d[s] != w
  {
    if d[0] == w then 0 else 1 + Position(d[1..], w)
  }

  /** Extending d does not move what it already holds. */
  lemma {:induction false} PositionInPrefix(d: seq<int>, e: seq<int>, w: int)
    requires w in d
    ensures w in d + e && Position(d + e, w) == Position(d, w)
  {
    var r, r' := Position(d, w), Position(d + e, w);
    assert (d + e)[r] == w;
  }

  /** The distinct words of a sequence come first among those of any extension of it. */
  lemma {:induction false} DistinctExtends(a: seq<int>, b: seq<int>)
    ensures Distinct(a) <= Distinct(a + b)
    decreases |b|
  {
    if b != [] {
      var b' := b[..|b| - 1];
      DistinctExtends(a, b');
      assert a + b == (a + b') + [b[|b| - 1]];
      DistinctStep(a + b', b[|b| - 1]);
    } else {
      assert a + b == a;
    }
  }

  /** A word seen again leaves the distinct words as they are; a new one is appended. */
  lemma {:induction false} DistinctStep(ws: seq<int>, w: int)
    ensures w in ws ==> Distinct(ws + [w]) == Distinct(ws)
    ensures w !in ws ==> Distinct(ws + [w]) == Distinct(ws) + [w]
  {
    DistinctWords(ws);
    var ws' := ws + [w];
    assert ws' != [] && ws'[..|ws'| - 1] == ws && ws'[|ws'| - 1] == w;
  }

  /** `vocab[w]`, undefined outside the vocabulary. */
  function Lookup(vocab: seq<string>, w: int): Option<string> {
    if 0 <= w < |vocab| then Some(vocab[w]) else None
  }

  /** The vocabulary entries of the distinct words d, in their order. */
  function VocabOf(vocab: seq<string>, d: seq<int>): seq<Option<string>> {
    if d == [] then [] else VocabOf(vocab, d[..|d| - 1]) + [Lookup(vocab, d[|d| - 1])]
  }

  /** Entry t of the new vocabulary is the old vocabulary's entry for the t-th distinct word. */
  lemma {:induction false} VocabEntries(vocab: seq<string>, d: seq<int>)
    ensures |VocabOf(vocab, d)| == |d|
    ensures forall t :: 0 <= t < |d| ==> VocabOf(vocab, d)[t] == Lookup(vocab, d[t])
  {
    if d != [] {
      VocabEntries(vocab, d[..|d| - 1]);
    }
  }

  /** `wordIndexMap` once the distinct words d have been numbered in turn. */
  function IndexMap(d: seq<int>): map<int, nat> {
    if d == [] then map[] else IndexMap(d[..|d| - 1])[d[|d| - 1] := |d| - 1]
  }

  /** Numbering words that are all different gives each its place. */
  lemma {:induction false} IndexMapPositions(d: seq<int>)
    requires forall s, t :: 0 <= s < t < |d| ==> d[s] != d[t]
    ensures forall w :: w in IndexMap(d) <==> w in d
    ensures forall w :: w in d ==> IndexMap(d)[w] == Position(d, w)
  {
    if d != [] {
      var init := d[..|d| - 1];
      IndexMapPositions(init);
      assert d == init + [d[|d| - 1]];
      forall w | w in init
        ensures Position(d, w) == Position(init, w)
      {
        PositionInPrefix(init, [d[|d| - 1]], w);
      }
      assert d[|d| - 1] !in init;
      NewPosition(init, d[|d| - 1]);
    }
  }

  /** The state of `subsample`'s loop after visiting the words ws. */
  ghost predicate Tracks(index: map<int, nat>, curr: nat, newvocab: seq<Option<string>>, vocab: seq<string>, ws: seq<int>) {
    curr == |Distinct(ws)| && newvocab == VocabOf(vocab, Distinct(ws)) && index == IndexMap(Distinct(ws))
  }

  /** One word visited: the update the loop body makes keeps the state tracking, and gives the word its place. */
  lemma {:induction false} TrackStep(index: map<int, nat>, curr: nat, newvocab: seq<Option<string>>, vocab: seq<string>, ws: seq<int>, w: int)
    requires Tracks(index, curr, newvocab, vocab, ws)
    ensures w in index ==> Tracks(index, curr, newvocab, vocab, ws + [w]) && index[w] == Position(Distinct(ws + [w]), w)
    ensures w !in index ==>
      Tracks(index[w := curr], curr + 1, newvocab + [Lookup(vocab, w)], vocab, ws + [w]) &&
      curr == Position(Distinct(ws + [w]), w)
  {
    var d := Distinct(ws);
    DistinctStep(ws, w);
    DistinctWords(ws);
    DistinctWords(ws + [w]);
    IndexMapPositions(d);
    IndexMapPositions(Distinct(ws + [w]));
    if w !in d {
      NewPosition(d, w);
      assert (d + [w])[..|d|] == d;
    }
  }

  /** A new word appended to d takes the next place. */
  lemma {:induction false} NewPosition(d: seq<int>, w: int)
    requires w !in d
    ensures Position(d + [w], w) == |d|
  {
    assert (d + [w])[|d|] == w;
  }

  /** The number of documents `documents.slice().splice(0, n)` keeps. */
  function Kept(len: nat, n: int): (k: nat)
    ensures k <= len
    ensures 0 <= n <= len ==> k == n
  {
    if n < 0 then 0 else if n > len then len else n
  }

  lemma {:induction false} Snoc(seen: seq<int>, ws: seq<int>, j: nat)
    requires j < |ws|
    ensures seen + ws[..j + 1] == (seen + ws[..j]) + [ws[j]]
  {
    assert ws[..j + 1] == ws[..j] + [ws[j]];
  }

  /** The body of the inner loop of `subsample`: number one word entry, the first time its word is seen with a new number. */
  method RemapEntry(wordEntry: Entry, vocab: seq<string>, ghost seen: seq<int>, index: map<int, nat>, curr: nat, newvocab: seq<Option<string>>)
    returns (index': map<int, nat>, curr': nat, newvocab': seq<Option<string>>)
    requires Tracks(index, curr, newvocab, vocab, seen)
    modifies wordEntry
    ensures Tracks(index', curr', newvocab', vocab, seen + [old(wordEntry.word)])
    ensures forall w :: w in index ==> w in index' && index'[w] == index[w]
    ensures old(wordEntry.word) in index' && wordEntry.word == index'[old(wordEntry.word)]
    ensures wordEntry.count == old(wordEntry.count)
  {
    index', curr', newvocab' := index, curr, newvocab;
    var wordIdx := wordEntry.word;
    TrackStep(index', curr', newvocab', vocab, seen, wordIdx);
    var newIdx: nat;
    if wordIdx in index' {
      newIdx := index'[wordIdx];
    } else {
      newIdx := curr';
      curr' := curr' + 1;
      index' := index'[wordIdx := newIdx];
      newvocab' := newvocab' + [Lookup(vocab, wordIdx)];
    }
    wordEntry.word := newIdx;
  }

  /** The inner loop of `subsample`: renumber the words of one document. */
  method RemapDoc(doc: Doc, vocab: seq<string>, ghost seen: seq<int>, index: map<int, nat>, curr: nat, newvocab: seq<Option<string>>)
    returns (index': map<int, nat>, curr': nat, newvocab': seq<Option<string>>)
    requires forall j, j' :: 0 <= j < j' < |doc| ==> doc[j] != doc[j']
    requires Tracks(index, curr, newvocab, vocab, seen)
    modifies set e | e in doc
    ensures Tracks(index', curr', newvocab', vocab, seen + old(DocWords(doc)))
    ensures forall w :: w in index ==> w in index' && index'[w] == index[w]
    ensures forall j :: 0 <= j < |doc| ==>
      old(doc[j].word) in index' && doc[j].word == index'[old(doc[j].word)] && doc[j].count == old(doc[j].count)
  {
    ghost var ws, cs := DocWords(doc), DocCounts(doc);
    index', curr', newvocab' := index, curr, newvocab;
    var j := 0;
    ghost var acc := seen;
    assert seen + ws[..0] == seen;
    while j < |doc|
      invariant 0 <= j <= |doc|
      invariant forall t :: 0 <= t < |doc| ==> doc[t].count == cs[t]
      invariant forall t :: j <= t < |doc| ==> doc[t].word == ws[t]
      invariant forall t :: 0 <= t < j ==> ws[t] in index' && doc[t].word == index'[ws[t]]
      invariant forall w :: w in index ==> w in index' && index'[w] == index[w]
      invariant acc == seen + ws[..j]
      invariant Tracks(index', curr', newvocab', vocab, acc)
    {
      Snoc(seen, ws, j);
      ghost var before := index';
      assert doc[j].word == ws[j];
      label L:
      index', curr', newvocab' := RemapEntry(doc[j], vocab, acc, index', curr', newvocab');
      acc := acc + [ws[j]];
      assert Tracks(index', curr', newvocab', vocab, acc);
      forall t | 0 <= t < |doc| && t != j
        ensures doc[t].word == old@L(doc[t].word) && doc[t].count == old@L(doc[t].count)
      {
        assert doc[t] != doc[j];
      }
      assert forall w :: w in before ==> w in index' && index'[w] == before[w];
      forall t | 0 <= t <= j
        ensures ws[t] in index' && doc[t].word == index'[ws[t]]
      {
        if t < j {
          assert ws[t] in before && doc[t].word == before[ws[t]];
        }
      }
      j := j + 1;
    }
    assert ws[..j] == ws;
  }

  lemma {:induction false} InFootprint(docs: seq<Doc>, i: nat)
    requires i < |docs|
    ensures (set e | e in docs[i]) <= Footprint(docs)
  {
    forall e | e in docs[i]
      ensures e in Footprint(docs)
    {
      var j :| 0 <= j < |docs[i]| && docs[i][j] == e;
    }
  }

  /**
   * The state of the outer loop of `subsample` after i documents: counts
   * untouched, later documents untouched, earlier ones renumbered through
   * `wordIndexMap`, which tracks the words seen so far.
   */
  ghost predicate Renumbered(docs: seq<Doc>, i: nat, ow: seq<seq<int>>, oc: seq<seq<int>>,
                             wordIndexMap: map<int, nat>, currIdx: nat, newvocab: seq<Option<string>>, vocab: seq<string>)
    reads Footprint(docs)
  {
    i <= |docs| && |ow| == |docs| && |oc| == |docs| &&
    (forall i' :: 0 <= i' < |docs| ==> |ow[i']| == |docs[i']| && |oc[i']| == |docs[i']|) &&
    (forall i', j :: 0 <= i' < |docs| && 0 <= j < |docs[i']| ==> docs[i'][j].count == oc[i'][j]) &&
    (forall i', j :: i <= i' < |docs| && 0 <= j < |docs[i']| ==> docs[i'][j].word == ow[i'][j]) &&
    (forall i', j :: 0 <= i' < i && 0 <= j < |docs[i']| ==>
      ow[i'][j] in wordIndexMap && docs[i'][j].word == wordIndexMap[ow[i'][j]]) &&
    Tracks(wordIndexMap, currIdx, newvocab, vocab, Flatten(ow, i))
  }

  /** The body of the outer loop of `subsample`: renumber document i. */
  method RemapNext(docs: seq<Doc>, i: nat, vocab: seq<string>, ghost ow: seq<seq<int>>, ghost oc: seq<seq<int>>,
                   wordIndexMap: map<int, nat>, currIdx: nat, newvocab: seq<Option<string>>)
    returns (wordIndexMap': map<int, nat>, currIdx': nat, newvocab': seq<Option<string>>)
    requires i < |docs| && Apart(docs, i)
    requires Renumbered(docs, i, ow, oc, wordIndexMap, currIdx, newvocab, vocab)
    modifies set e | e in docs[i]
    ensures Renumbered(docs, i + 1, ow, oc, wordIndexMap', currIdx', newvocab', vocab)
  {
    assert DocWords(docs[i]) == ow[i];
    ghost var m0 := wordIndexMap;
    label Before:
    wordIndexMap', currIdx', newvocab' := RemapDoc(docs[i], vocab, Flatten(ow, i), wordIndexMap, currIdx, newvocab);
    assert forall w :: w in m0 ==> w in wordIndexMap' && wordIndexMap'[w] == m0[w];
    forall i', j | 0 <= i' < |docs| && i' != i && 0 <= j < |docs[i']|
      ensures docs[i'][j].word == old@Before(docs[i'][j].word) && docs[i'][j].count == old@Before(docs[i'][j].count)
    {
      assert docs[i'][j] !in docs[i];
    }
    forall i', j | 0 <= i' < i + 1 && 0 <= j < |docs[i']|
      ensures ow[i'][j] in wordIndexMap' && docs[i'][j].word == wordIndexMap'[ow[i'][j]]
    {
      if i' < i {
        assert ow[i'][j] in m0 && old(docs[i'][j].word) == m0[ow[i'][j]];
        assert docs[i'][j].word == old(docs[i'][j].word);
        assert wordIndexMap'[ow[i'][j]] == m0[ow[i'][j]];
      } else {
        assert i' == i;
        assert old@Before(docs[i][j].word) == ow[i][j];
        assert ow[i][j] in wordIndexMap' && docs[i][j].word == wordIndexMap'[ow[i][j]];
      }
    }
    assert Flatten(ow, i + 1) == Flatten(ow, i) + ow[i];
  }

  /** The outer loop of `subsample` from document i on, one document per step. */
  method RemapFrom(docs: seq<Doc>, i: nat, vocab: seq<string>, ghost ow: seq<seq<int>>, ghost oc: seq<seq<int>>,
                   wordIndexMap: map<int, nat>, currIdx: nat, newvocab: seq<Option<string>>)
    returns (wordIndexMap': map<int, nat>, currIdx': nat, newvocab': seq<Option<string>>)
    requires Unaliased(docs)
    requires Renumbered(docs, i, ow, oc, wordIndexMap, currIdx, newvocab, vocab)
    modifies Footprint(docs)
    ensures Renumbered(docs, |docs|, ow, oc, wordIndexMap', currIdx', newvocab', vocab)
    decreases |docs| - i
  {
    if i == |docs| {
      return wordIndexMap, currIdx, newvocab;
    }
    assert Apart(docs, i);
    InFootprint(docs, i);
    wordIndexMap', currIdx', newvocab' := RemapNext(docs, i, vocab, ow, oc, wordIndexMap, currIdx, newvocab);
    wordIndexMap', currIdx', newvocab' := RemapFrom(docs, i + 1, vocab, ow, oc, wordIndexMap', currIdx', newvocab');
  }

  /** The outer loop of `subsample`: renumber the words of every document given, in order. */
  method RemapDocs(docs: seq<Doc>, vocab: seq<string>) returns (newvocab: seq<Option<string>>)
    requires Unaliased(docs)
    modifies Footprint(docs)
    ensures newvocab == VocabOf(vocab, Distinct(old(Words(docs, |docs|))))
    ensures forall i, j :: 0 <= i < |docs| && 0 <= j < |docs[i]| ==>
      old(docs[i][j].word) in Distinct(old(Words(docs, |docs|))) &&
      docs[i][j].word == Position(Distinct(old(Words(docs, |docs|))), old(docs[i][j].word)) &&
      docs[i][j].count == old(docs[i][j].count)
  {
    ghost var ow, oc := WordTable(docs), CountTable(docs);
    ghost var all := Flatten(ow, |docs|);
    assert Words(docs, |docs|) == all;
    assert forall i, j :: 0 <= i < |docs| && 0 <= j < |docs[i]| ==> old(docs[i][j].word) == ow[i][j] && old(docs[i][j].count) == oc[i][j];
    var wordIndexMap: map<int, nat>, currIdx;
    wordIndexMap, currIdx, newvocab := RemapFrom(docs, 0, vocab, ow, oc, map[], 0, []);
    FlattenHas(ow, |docs|);
    Numbering(all);
    forall i, j | 0 <= i < |docs| && 0 <= j < |docs[i]|
      ensures old(docs[i][j].word) in Distinct(all) && docs[i][j].word == Position(Distinct(all), old(docs[i][j].word))
    {
      assert ow[i][j] in all;
    }
  }

  /** Every word of the first k rows is in their flattening. */
  lemma {:induction false} FlattenHas(t: seq<seq<int>>, k: nat)
    requires k <= |t|
    ensures forall i, j :: 0 <= i < k && 0 <= j < |t[i]| ==> t[i][j] in Flatten(t, k)
  {
    if k > 0 {
      FlattenHas(t, k - 1);
      var last := t[k - 1];
      assert Flatten(t, k) == Flatten(t, k - 1) + last;
      assert forall j :: 0 <= j < |last| ==> last[j] in Flatten(t, k);
    }
  }

  /** The numbers `subsample` hands out for the words ws are their places among the distinct words. */
  lemma {:induction false} Numbering(ws: seq<int>)
    ensures forall w :: w in ws ==> w in Distinct(ws) && w in IndexMap(Distinct(ws)) && IndexMap(Distinct(ws))[w] == Position(Distinct(ws), w)
  {
    DistinctWords(ws);
    IndexMapPositions(Distinct(ws));
  }

  /** Keeping the first k documents keeps them apart, within the entries of all documents. */
  lemma {:induction false} KeepFirst(documents: seq<Doc>, k: nat)
    requires k <= |documents| && Unaliased(documents)
    ensures Unaliased(documents[..k]) && Footprint(documents[..k]) <= Footprint(documents)
    ensures forall i, j :: k <= i < |documents| && 0 <= j < |documents[i]| ==> documents[i][j] !in Footprint(documents[..k])
  {
    var kept := documents[..k];
    forall i | 0 <= i < k
      ensures Apart(kept, i)
    {
      assert Apart(documents, i);
    }
    forall i, j | k <= i < |documents| && 0 <= j < |documents[i]|
      ensures documents[i][j] !in Footprint(kept)
    {
      assert Apart(documents, i);
      forall i', j' | 0 <= i' < k && 0 <= j' < |kept[i']|
        ensures kept[i'][j'] != documents[i][j]
      {
        assert kept[i'][j'] == documents[i'][j'];
      }
    }
    forall e | e in Footprint(kept)
      ensures e in Footprint(documents)
    {
      var i, j :| 0 <= i < k && 0 <= j < |kept[i]| && kept[i][j] == e;
      assert documents[i][j] == e;
    }
  }

  /**
   * `subsample`: keep the first n documents (the entry objects themselves,
   * since `slice` copies only the list) and renumber their words 0, 1, ... in
   * order of first occurrence, collecting the vocabulary entry of each in
   * `newvocab`. The rewrite is visible through the original documents too.
   */
  method Subsample(documents: seq<Doc>, vocab: seq<string>, n: int) returns (newdocs: seq<Doc>, newvocab: seq<Option<string>>)
    requires Unaliased(documents)
    modifies Footprint(documents)
    ensures newdocs == documents[..Kept(|documents|, n)]
    ensures newvocab == VocabOf(vocab, Distinct(old(Words(newdocs, |newdocs|))))
    ensures forall i, j :: 0 <= i < |newdocs| && 0 <= j < |newdocs[i]| ==>
      old(newdocs[i][j].word) in Distinct(old(Words(newdocs, |newdocs|))) &&
      newdocs[i][j].word == Position(Distinct(old(Words(newdocs, |newdocs|))), old(newdocs[i][j].word)) &&
      newdocs[i][j].count == old(newdocs[i][j].count)
    ensures forall i, j :: |newdocs| <= i < |documents| && 0 <= j < |documents[i]| ==>
      documents[i][j].word == old(documents[i][j].word) && documents[i][j].count == old(documents[i][j].count)
  {
    var k := Kept(|documents|, n);
    newdocs := documents[..k];
    KeepFirst(documents, k);
    newvocab := RemapDocs(newdocs, vocab);
  }

  // ---------------------------------------------------------------------------
  // Reading a docword file.

  /** A `[word, count]` pair as a value. */
  datatype Pair = Pair(word: int, count: int)

  /** Documents as values: the pairs of each document, in order. */
  type Table = seq<seq<Pair>>

  /**
   * `+s`, JavaScript's conversion of text to a number, for text that is
   * blank (0) or a decimal integer with an optional sign, with white space
   * around it; None for any other text, both text that converts to NaN and
   * the fractional, exponent and hexadecimal forms, which entries of
   * integers cannot hold.
   */
  function NumberOf(s: string): Option<int>
    decreases |s|
  {
    if s != [] && NumberText.IsSpace(s[0]) then NumberOf(s[1..])
    else if s != [] && NumberText.IsSpace(s[|s| - 1]) then NumberOf(s[..|s| - 1])
    else if s == [] then Some(0)
    else
      var (neg, u) := NumberText.Sign(s);
      var v := DecimalOf(u);
      if u == [] || v.None? then None else Some(if neg then -(v.value as int) else v.value)
  }

  /** The value of a string of decimal digits, None if it holds anything else. */
  function DecimalOf(u: string): Option<nat> {
    if u == [] then Some(0)
    else
      var init := DecimalOf(u[..|u| - 1]);
      var c := u[|u| - 1];
      if init.None? || !IsDigit(c) then None else Some(init.value * 10 + (c as int - '0' as int))
  }

  /** The digits of a natural number read back as the number. */
  lemma {:induction false} DecimalOfNat(n: nat)
    ensures DecimalOf(NatToString(n)) == Some(n)
    decreases n
  {
    if n >= 10 {
      DecimalOfNat(n / 10);
      var s := NatToString(n);
      assert s[..|s| - 1] == NatToString(n / 10);
    }
  }

  /** `+toks[k]`; a missing token is `undefined`, which converts to NaN. */
  function Token(toks: seq<string>, k: nat): Option<int> {
    if k < |toks| then NumberOf(toks[k]) else None
  }

  /** The number of empty documents `for (i = 0; i < numDocs; i++)` creates. */
  function DocCount(numDocs: Option<int>): nat {
    if numDocs.Some? && numDocs.value > 0 then numDocs.value else 0
  }

  /** n empty documents. */
  function Empty(n: nat): (t: Table)
    ensures |t| == n && forall i :: 0 <= i < n ==> t[i] == []
  {
    if n == 0 then [] else Empty(n - 1) + [[]]
  }

  /** The tokens of a data line; an empty line has none and is skipped. */
  function Tokens(line: string): seq<string> {
    if line == [] then [] else Split(line, ' ')
  }

  /** The tokens of each line. */
  function TokenRows(lines: seq<string>): (rows: seq<seq<string>>)
    ensures |rows| == |lines|
  {
    if lines == [] then [] else TokenRows(lines[..|lines| - 1]) + [Tokens(lines[|lines| - 1])]
  }

  /** Why reading a data line fails. */
  datatype LoadError =
    | NoSuchDocument  // `documents[doc]` is undefined, so `push` raises a TypeError
    | NotANumber      // the word or count of the line is not an integer (lda.js would push NaN)

  /** The documents read so far, or why reading stopped. */
  datatype Loaded = Loaded(table: Table) | Failed(error: LoadError)

  /** The message of a failed read. */
  function Message(e: LoadError): string {
    match e
    case NoSuchDocument => "TypeError: Cannot read property 'push' of undefined"
    case NotANumber => "NaN entry"
  }

  /**
   * The tokens `doc word count` of one data line (1-based ids) added to the
   * documents: a line without tokens is skipped; a document id that names no
   * document makes `documents[doc].push` fail.
   */
  function AddRow(t: Table, toks: seq<string>): Loaded {
    if toks == [] then Loaded(t) else Place(t, NumberOf(toks[0]), Token(toks, 1), Token(toks, 2))
  }

  /** The pair `[word - 1, num]` pushed onto document doc - 1. */
  function Place(t: Table, doc: Option<int>, word: Option<int>, num: Option<int>): Loaded {
    if doc.None? || !(1 <= doc.value <= |t|) then Failed(NoSuchDocument)
    else if word.None? || num.None? then Failed(NotANumber)
    else Loaded(t[doc.value - 1 := t[doc.value - 1] + [Pair(word.value - 1, num.value)]])
  }

  /** The data lines added in order; the first failing line ends the read. */
  function Fill(t: Table, rows: seq<seq<string>>): Loaded {
    if rows == [] then Loaded(t)
    else
      match Fill(t, rows[..|rows| - 1])
      case Failed(e) => Failed(e)
      case Loaded(t') => AddRow(t', rows[|rows| - 1])
  }

  /** `lines.slice(3)`: everything after the three header lines. */
  function DataLines(lines: seq<string>): seq<string> {
    if |lines| >= 3 then lines[3..] else []
  }

  /** What `loadDocwords` reads from the text of a docword file. */
  function Decode(text: string): Loaded {
    var lines := Split(text, '\n');
    Fill(Empty(DocCount(NumberOf(lines[0]))), TokenRows(DataLines(lines)))
  }

  /** The tokens of the data line of pair p of document i, with 1-based ids. */
  function EntryRow(i: nat, p: Pair): seq<string> {
    [IntToString(i + 1), IntToString(p.word + 1), IntToString(p.count)]
  }

  /** The data line of pair p of document i. */
  function EntryLine(i: nat, p: Pair): string {
    Join(EntryRow(i, p), ' ')
  }

  /** The data lines of document i. */
  function DocLines(i: nat, d: seq<Pair>): seq<string> {
    if d == [] then [] else DocLines(i, d[..|d| - 1]) + [EntryLine(i, d[|d| - 1])]
  }

  /** The tokens of the data lines of document i. */
  function DocRows(i: nat, d: seq<Pair>): seq<seq<string>> {
    if d == [] then [] else DocRows(i, d[..|d| - 1]) + [EntryRow(i, d[|d| - 1])]
  }

  /** The data lines of the first k documents. */
  function TableLines(t: Table, k: nat): seq<string>
    requires k <= |t|
  {
    if k == 0 then [] else TableLines(t, k - 1) + DocLines(k - 1, t[k - 1])
  }

  /** The tokens of the data lines of the first k documents. */
  function TableRows(t: Table, k: nat): seq<seq<string>>
    requires k <= |t|
  {
    if k == 0 then [] else TableRows(t, k - 1) + DocRows(k - 1, t[k - 1])
  }

  /** The number of pairs in all documents. */
  function PairCount(t: Table): nat {
    if t == [] then 0 else PairCount(t[..|t| - 1]) + |t[|t| - 1]|
  }

  /** A docword file: the number of documents, of words and of pairs, then one line per pair. */
  function Encode(t: Table, nWords: int): string {
    Join([IntToString(|t|), IntToString(nWords), IntToString(PairCount(t))] + TableLines(t, |t|), '\n')
  }

  /** The text of an integer is a minus sign and digits. */
  lemma {:induction false} IntToStringChars(i: int)
    ensures forall k :: 0 <= k < |IntToString(i)| ==> IntToString(i)[k] == '-' || IsDigit(IntToString(i)[k])
    ensures IntToString(i)[0] == '-' ==> i < 0 && IntToString(i)[1..] == NatToString(-i)
    ensures IntToString(i)[0] != '-' ==> i >= 0 && IntToString(i) == NatToString(i)
  {
  }

  /** Converting the text of an integer back gives the integer. */
  lemma {:induction false} NumberOfInt(i: int)
    ensures NumberOf(IntToString(i)) == Some(i)
  {
    var s := IntToString(i);
    IntToStringChars(i);
    var n: nat := if i < 0 then -i else i;
    DecimalOfNat(n);
    assert !NumberText.IsSpace(s[0]) && !NumberText.IsSpace(s[|s| - 1]);
    if i < 0 {
      assert NumberText.Sign(s) == (true, NatToString(n));
    } else {
      assert NumberText.Sign(s) == (false, NatToString(n));
    }
  }

  /** The text of an integer holds no space and no line break. */
  lemma {:induction false} NoSeparators(i: int)
    ensures ' ' !in IntToString(i) && '\n' !in IntToString(i)
  {
    IntToStringChars(i);
  }

  lemma {:induction false} JoinThree(a: string, b: string, c: string, sep: char)
    ensures Join([a, b, c], sep) == a + [sep] + b + [sep] + c
  {
    assert [a, b, c][1..] == [b, c];
    assert [b, c][1..] == [c];
    assert Join([c], sep) == c;
    assert Join([b, c], sep) == b + [sep] + c;
    assert a + [sep] + (b + [sep] + c) == a + [sep] + b + [sep] + c;
  }

  /** The data line of a pair splits back into its tokens. */
  lemma {:induction false} TokensOfEntry(i: nat, p: Pair)
    ensures Tokens(EntryLine(i, p)) == EntryRow(i, p)
    ensures '\n' !in EntryLine(i, p)
  {
    var a, b, c := IntToString(i + 1), IntToString(p.word + 1), IntToString(p.count);
    NoSeparators(i + 1);
    NoSeparators(p.word + 1);
    NoSeparators(p.count);
    JoinThree(a, b, c, ' ');
    SplitJoin([a, b, c], ' ');
  }

  /** The tokens of the data line of a pair add the pair to its document. */
  lemma {:induction false} RowOf(t: Table, i: nat, p: Pair)
    requires i < |t|
    ensures AddRow(t, EntryRow(i, p)) == Loaded(t[i := t[i] + [p]])
  {
    var toks := EntryRow(i, p);
    NumberOfInt(i + 1);
    NumberOfInt(p.word + 1);
    NumberOfInt(p.count);
    ReadRow(t, toks, i + 1, p.word + 1, p.count);
  }

  /** Three tokens that read as a document id in range, a word and a count add that pair. */
  lemma {:induction false} ReadRow(t: Table, toks: seq<string>, doc: int, word: int, num: int)
    requires |toks| == 3 && 1 <= doc <= |t|
    requires NumberOf(toks[0]) == Some(doc) && NumberOf(toks[1]) == Some(word) && NumberOf(toks[2]) == Some(num)
    ensures AddRow(t, toks) == Loaded(t[doc - 1 := t[doc - 1] + [Pair(word - 1, num)]])
  {
    assert Token(toks, 1) == Some(word) && Token(toks, 2) == Some(num);
  }

  /** Reading one more line. */
  lemma {:induction false} FillSnoc(t: Table, rows: seq<seq<string>>, r: seq<string>)
    ensures Fill(t, rows + [r]) == (match Fill(t, rows) case Failed(e) => Failed(e) case Loaded(t') => AddRow(t', r))
  {
    assert (rows + [r])[..|rows|] == rows;
  }

  /** Reading a + b reads a, then b from where a left off. */
  lemma {:induction false} FillAppend(t: Table, a: seq<seq<string>>, b: seq<seq<string>>)
    ensures Fill(t, a + b) == (match Fill(t, a) case Failed(e) => Failed(e) case Loaded(t') => Fill(t', b))
    decreases |b|
  {
    if b == [] {
      assert a + b == a;
    } else {
      var b' := b[..|b| - 1];
      FillAppend(t, a, b');
      assert (a + b)[..|a + b| - 1] == a + b';
    }
  }

  /** One more data line, that of the pair p of document i. */
  lemma {:induction false} FillEntry(t: Table, rows: seq<seq<string>>, u: Table, i: nat, p: Pair)
    requires Fill(t, rows) == Loaded(u) && i < |u|
    ensures Fill(t, rows + [EntryRow(i, p)]) == Loaded(u[i := u[i] + [p]])
  {
    FillSnoc(t, rows, EntryRow(i, p));
    RowOf(u, i, p);
  }

  /** The data lines of document i add its pairs to document i. */
  lemma {:induction false} FillDoc(t: Table, i: nat, d: seq<Pair>)
    requires i < |t|
    ensures Fill(t, DocRows(i, d)) == Loaded(t[i := t[i] + d])
  {
    if d == [] {
      UpdateSame(t, i, d);
    } else {
      var d', p := d[..|d| - 1], d[|d| - 1];
      FillDoc(t, i, d');
      FillDocStep(t, i, d', p, d);
    }
  }

  lemma {:induction false} FillDocStep(t: Table, i: nat, d': seq<Pair>, p: Pair, d: seq<Pair>)
    requires i < |t| && d != [] && d' == d[..|d| - 1] && p == d[|d| - 1]
    requires Fill(t, DocRows(i, d')) == Loaded(t[i := t[i] + d'])
    ensures Fill(t, DocRows(i, d)) == Loaded(t[i := t[i] + d])
  {
    var mid := t[i := t[i] + d'];
    FillEntry(t, DocRows(i, d'), mid, i, p);
    assert DocRows(i, d) == DocRows(i, d') + [EntryRow(i, p)];
    assert d == d' + [p];
    UpdateTwice(t, i, d', p, d);
  }

  /** Appending nothing to element i leaves the sequence as it was. */
  lemma {:induction false} UpdateSame<T>(t: seq<seq<T>>, i: nat, d: seq<T>)
    requires i < |t| && d == []
    ensures t[i := t[i] + d] == t
  {
    assert t[i] + d == t[i];
  }

  /** Appending d' and then p to element i appends d' + [p]. */
  lemma {:induction false} UpdateTwice<T>(t: seq<seq<T>>, i: nat, d': seq<T>, p: T, d: seq<T>)
    requires i < |t| && d == d' + [p]
    ensures var mid := t[i := t[i] + d']; mid[i := mid[i] + [p]] == t[i := t[i] + d]
  {
    assert t[i] + d' + [p] == t[i] + d;
  }

  /** The data lines of the first k documents, read into empty documents, rebuild those k. */
  lemma {:induction false} FillTable(t: Table, k: nat)
    requires k <= |t|
    ensures Fill(Empty(|t|), TableRows(t, k)) == Loaded(t[..k] + Empty(|t| - k))
  {
    if k > 0 {
      FillTable(t, k - 1);
      var before := t[..k - 1] + Empty(|t| - k + 1);
      FillAppend(Empty(|t|), TableRows(t, k - 1), DocRows(k - 1, t[k - 1]));
      FillDoc(before, k - 1, t[k - 1]);
      PlaceRow(t, k);
    }
  }

  /** Filling row k - 1 of the first k - 1 rows followed by empty ones gives the first k rows. */
  lemma {:induction false} PlaceRow(t: Table, k: nat)
    requires 0 < k <= |t|
    ensures var before := t[..k - 1] + Empty(|t| - k + 1);
      before[k - 1 := before[k - 1] + t[k - 1]] == t[..k] + Empty(|t| - k)
  {
    var before := t[..k - 1] + Empty(|t| - k + 1);
    var after := before[k - 1 := before[k - 1] + t[k - 1]];
    var want := t[..k] + Empty(|t| - k);
    assert before[k - 1] == [];
    forall x | 0 <= x < |t|
      ensures after[x] == want[x]
    {
    }
  }

  /** Tokenising lines one by one. */
  lemma {:induction false} TokenRowsAppend(a: seq<string>, b: seq<string>)
    ensures TokenRows(a + b) == TokenRows(a) + TokenRows(b)
    decreases |b|
  {
    if b == [] {
      assert a + b == a;
    } else {
      var b' := b[..|b| - 1];
      TokenRowsAppend(a, b');
      assert (a + b)[..|a + b| - 1] == a + b';
    }
  }

  /** The data lines of document i tokenise into the rows of its pairs, and hold no line break. */
  lemma {:induction false} DocTokens(i: nat, d: seq<Pair>)
    ensures TokenRows(DocLines(i, d)) == DocRows(i, d)
    ensures forall l :: l in DocLines(i, d) ==> '\n' !in l
  {
    if d != [] {
      var d', p := d[..|d| - 1], d[|d| - 1];
      DocTokens(i, d');
      TokenRowsAppend(DocLines(i, d'), [EntryLine(i, p)]);
      TokensOfEntry(i, p);
      assert TokenRows([EntryLine(i, p)]) == [EntryRow(i, p)];
      forall l | l in DocLines(i, d)
        ensures '\n' !in l
      {
        if l !in DocLines(i, d') {
          assert l == EntryLine(i, p);
        }
      }
    }
  }

  /** The data lines of the first k documents tokenise into their rows, and hold no line break. */
  lemma {:induction false} TableTokens(t: Table, k: nat)
    requires k <= |t|
    ensures TokenRows(TableLines(t, k)) == TableRows(t, k)
    ensures forall l :: l in TableLines(t, k) ==> '\n' !in l
  {
    if k > 0 {
      var a, b := TableLines(t, k - 1), DocLines(k - 1, t[k - 1]);
      TableTokens(t, k - 1);
      DocTokens(k - 1, t[k - 1]);
      TokenRowsAppend(a, b);
      forall l | l in a + b
        ensures '\n' !in l
      {
        if l !in a {
          assert l in b;
        }
      }
    }
  }

  /**
   * `loadDocwords` reads back a docword file: it skips the three header
   * lines, takes the number of documents from the first, and turns the
   * 1-based ids of each data line into 0-based ones.
   */
  lemma {:induction false} DecodeEncode(t: Table, nWords: int)
    ensures Decode(Encode(t, nWords)) == Loaded(t)
  {
    var header := [IntToString(|t|), IntToString(nWords), IntToString(PairCount(t))];
    var data := TableLines(t, |t|);
    var lines := header + data;
    NoSeparators(|t|);
    NoSeparators(nWords);
    NoSeparators(PairCount(t));
    TableTokens(t, |t|);
    forall k | 0 <= k < |lines|
      ensures '\n' !in lines[k]
    {
      if k >= 3 {
        assert lines[k] in data;
      }
    }
    SplitJoin(lines, '\n');
    assert Split(Encode(t, nWords), '\n') == lines;
    NumberOfInt(|t|);
    assert DocCount(NumberOf(lines[0])) == |t|;
    assert DataLines(lines) == data;
    assert Decode(Encode(t, nWords)) == Fill(Empty(|t|), TokenRows(data));
    FillTable(t, |t|);
    assert t[..|t|] + Empty(0) == t;
  }

  /** Blank lines anywhere among the data lines change nothing. */
  lemma {:induction false} BlankLineSkipped(t: Table, a: seq<string>, b: seq<string>)
    ensures Fill(t, TokenRows(a + [""] + b)) == Fill(t, TokenRows(a + b))
  {
    TokenRowsAppend(a + [""], b);
    TokenRowsAppend(a, [""]);
    TokenRowsAppend(a, b);
    assert TokenRows([""]) == [[]];
    FillAppend(t, TokenRows(a) + [[]], TokenRows(b));
    FillAppend(t, TokenRows(a), TokenRows(b));
    FillSnoc(t, TokenRows(a), []);
  }

  /** Reading more rows after a failed one changes nothing. */
  lemma {:induction false} FailStays(t: Table, rows: seq<seq<string>>, rest: seq<seq<string>>)
    requires Fill(t, rows).Failed?
    ensures Fill(t, rows + rest) == Fill(t, rows)
  {
    FillAppend(t, rows, rest);
  }

  /** The rows of the first k + 1 lines. */
  lemma {:induction false} RowsSnoc(lines: seq<string>, k: nat)
    requires k < |lines|
    ensures TokenRows(lines[..k + 1]) == TokenRows(lines[..k]) + [Tokens(lines[k])]
  {
    assert lines[..k + 1][..k] == lines[..k];
  }

  /** The documents hold the values t, entry by entry. */
  ghost predicate Holds(docs: seq<Doc>, t: Table)
    reads Footprint(docs)
  {
    |docs| == |t| &&
    (forall i :: 0 <= i < |docs| ==> |docs[i]| == |t[i]|) &&
    (forall i, j :: 0 <= i < |docs| && 0 <= j < |docs[i]| && j < |t[i]| ==>
      docs[i][j].word == t[i][j].word && docs[i][j].count == t[i][j].count)
  }

  /** Pushing an entry that is in no document keeps the documents apart. */
  lemma {:induction false} PushApart(docs: seq<Doc>, d: nat, e: Entry)
    requires d < |docs| && Unaliased(docs) && e !in Footprint(docs)
    ensures Unaliased(docs[d := docs[d] + [e]])
  {
    var docs' := docs[d := docs[d] + [e]];
    forall i | 0 <= i < |docs'|
      ensures Apart(docs', i)
    {
      assert Apart(docs, i);
      forall j | 0 <= j < |docs'[i]|
        ensures docs'[i][j] == e || (j < |docs[i]| && docs'[i][j] == docs[i][j])
      {
      }
      forall i', j | 0 <= i' < |docs| && 0 <= j < |docs[i']|
        ensures docs[i'][j] in Footprint(docs)
      {
      }
    }
  }

  /** Pushing an entry adds it, and nothing else, to the entries of the documents. */
  lemma {:induction false} PushFootprint(docs: seq<Doc>, d: nat, e: Entry)
    requires d < |docs|
    ensures Footprint(docs[d := docs[d] + [e]]) == Footprint(docs) + {e}
  {
    var docs' := docs[d := docs[d] + [e]];
    forall x | x in Footprint(docs')
      ensures x in Footprint(docs) + {e}
    {
      var i, j :| 0 <= i < |docs'| && 0 <= j < |docs'[i]| && docs'[i][j] == x;
      if x != e {
        assert docs[i][j] == x;
      }
    }
    forall x | x in Footprint(docs) + {e}
      ensures x in Footprint(docs')
    {
      if x == e {
        assert docs'[d][|docs[d]|] == e;
      } else {
        var i, j :| 0 <= i < |docs| && 0 <= j < |docs[i]| && docs[i][j] == x;
        assert docs'[i][j] == x;
      }
    }
  }

  /** Pushing an entry onto document d adds its values to row d. */
  lemma {:induction false} PushHolds(docs: seq<Doc>, t: Table, d: nat, e: Entry)
    requires d < |docs| && Holds(docs, t)
    ensures Holds(docs[d := docs[d] + [e]], t[d := t[d] + [Pair(e.word, e.count)]])
  {
    var docs': seq<Doc> := docs[d := docs[d] + [e]];
    var t': Table := t[d := t[d] + [Pair(e.word, e.count)]];
    forall i, j | 0 <= i < |docs'| && 0 <= j < |docs'[i]| && j < |t'[i]|
      ensures docs'[i][j].word == t'[i][j].word && docs'[i][j].count == t'[i][j].count
    {
      if i == d && j == |docs[d]| {
        assert docs'[i][j] == e;
      } else {
        assert docs'[i][j] == docs[i][j] && t'[i][j] == t[i][j];
      }
    }
  }

  /** The body of the second loop of `loadDocwords`: read one data line. */
  method ReadLine(documents: seq<Doc>, ghost t: Table, line: string)
    returns (documents': seq<Doc>, ghost t': Table, failure: Option<LoadError>)
    requires Unaliased(documents) && Holds(documents, t)
    ensures failure.Some? ==> AddRow(t, Tokens(line)) == Failed(failure.value)
    ensures failure.None? ==> AddRow(t, Tokens(line)) == Loaded(t') && Unaliased(documents') && Holds(documents', t')
    ensures forall e | e in Footprint(documents') :: e in Footprint(documents) || fresh(e)
  {
    documents', t', failure := documents, t, None;
    if |line| > 0 {
      var toks := Split(line, ' ');
      var doc := NumberOf(toks[0]);
      var word := Token(toks, 1);
      var num := Token(toks, 2);
      if doc.None? || !(1 <= doc.value <= |documents|) {
        failure := Some(NoSuchDocument);
        return;
      }
      if word.None? || num.None? {
        failure := Some(NotANumber);
        return;
      }
      var e := new Entry(word.value - 1, num.value);
      PushApart(documents, doc.value - 1, e);
      PushFootprint(documents, doc.value - 1, e);
      PushHolds(documents, t, doc.value - 1, e);
      documents' := documents[doc.value - 1 := documents[doc.value - 1] + [e]];
      t' := t[doc.value - 1 := t[doc.value - 1] + [Pair(word.value - 1, num.value)]];
    }
  }

  /**
   * `loadDocwords`: one empty document for each of the number on the first
   * line, then, after the three header lines, one fresh `[word, count]`
   * entry per non-empty line, pushed onto its document.
   */
  method LoadDocwords(text: string) returns (r: Result<seq<Doc>>)
    ensures r.Ok? <==> Decode(text).Loaded?
    ensures r.Err? ==> Decode(text).Failed? && r.msg == Message(Decode(text).error)
    ensures r.Ok? ==> Unaliased(r.value) && Holds(r.value, Decode(text).table)
    ensures r.Ok? ==> forall e | e in Footprint(r.value) :: fresh(e)
  {
    var lines := Split(text, '\n');
    var numDocs := NumberOf(lines[0]);
    var documents := EmptyDocuments(DocCount(numDocs));
    EmptyHolds(documents);
    r := ReadLines(documents, Empty(DocCount(numDocs)), DataLines(lines));
  }

  /** The first loop of `loadDocwords`: n empty documents. */
  method EmptyDocuments(n: nat) returns (documents: seq<Doc>)
    ensures |documents| == n && forall i :: 0 <= i < n ==> documents[i] == []
  {
    documents := [];
    var i := 0;
    while i < n
      invariant i <= n && |documents| == i
      invariant forall i' :: 0 <= i' < i ==> documents[i'] == []
    {
      documents := documents + [[]];
      i := i + 1;
    }
  }

  /** Empty documents share no entry and hold the empty table. */
  lemma {:induction false} EmptyHolds(documents: seq<Doc>)
    requires forall i :: 0 <= i < |documents| ==> documents[i] == []
    ensures Unaliased(documents) && Holds(documents, Empty(|documents|)) && Footprint(documents) == {}
  {
  }

  /** The second loop of `loadDocwords`: read the data lines onto documents holding start, stopping at the first bad line. */
  method ReadLines(documents0: seq<Doc>, ghost start: Table, data: seq<string>) returns (r: Result<seq<Doc>>)
    requires Unaliased(documents0) && Holds(documents0, start) && Footprint(documents0) == {}
    ensures r.Ok? <==> Fill(start, TokenRows(data)).Loaded?
    ensures r.Err? ==> Fill(start, TokenRows(data)).Failed? && r.msg == Message(Fill(start, TokenRows(data)).error)
    ensures r.Ok? ==> Unaliased(r.value) && Holds(r.value, Fill(start, TokenRows(data)).table)
    ensures r.Ok? ==> forall e | e in Footprint(r.value) :: fresh(e)
  {
    var documents := documents0;
    ghost var t := start;
    var k := 0;
    while k < |data|
      invariant k <= |data|
      invariant Fill(start, TokenRows(data[..k])) == Loaded(t)
      invariant Unaliased(documents) && Holds(documents, t)
      invariant forall e | e in Footprint(documents) :: fresh(e)
    {
      RowsSnoc(data, k);
      FillSnoc(start, TokenRows(data[..k]), Tokens(data[k]));
      var failure;
      documents, t, failure := ReadLine(documents, t, data[k]);
      if failure.Some? {
        FailRest(start, data, k);
        return Err(Message(failure.value));
      }
      k := k + 1;
    }
    assert data[..k] == data;
    r := Ok(documents);
  }

  /** A failure on line k is the failure of the whole read. */
  lemma {:induction false} FailRest(start: Table, data: seq<string>, k: nat)
    requires k < |data| && Fill(start, TokenRows(data[..k + 1])).Failed?
    ensures Fill(start, TokenRows(data)) == Fill(start, TokenRows(data[..k + 1]))
  {
    FailStays(start, TokenRows(data[..k + 1]), TokenRows(data[k + 1..]));
    TokenRowsAppend(data[..k + 1], data[k + 1..]);
    assert data[..k + 1] + data[k + 1..] == data;
  }

  /** After `subsample`, every new word number indexes the new vocabulary, and different words get different numbers. */
  lemma {:induction false} Compacted(vocab: seq<string>, ws: seq<int>)
    ensures |VocabOf(vocab, Distinct(ws))| == |Distinct(ws)|
    ensures forall w :: w in ws ==>
      w in Distinct(ws) &&
      Position(Distinct(ws), w) < |VocabOf(vocab, Distinct(ws))| &&
      VocabOf(vocab, Distinct(ws))[Position(Distinct(ws), w)] == Lookup(vocab, w)
    ensures forall w, w' :: w in ws && w' in ws && Position(Distinct(ws), w) == Position(Distinct(ws), w') ==> w == w'
  {
    DistinctWords(ws);
    VocabEntries(vocab, Distinct(ws));
  }

  /** The words of a row of pairs. */
  function RowWords(d: seq<Pair>): (ws: seq<int>)
    ensures |ws| == |d| && forall j :: 0 <= j < |d| ==> ws[j] == d[j].word
  {
    if d == [] then [] else RowWords(d[..|d| - 1]) + [d[|d| - 1].word]
  }

  /** The words of every row. */
  function TableWords(t: Table): (w: seq<seq<int>>)
    ensures |w| == |t| && forall i :: 0 <= i < |t| ==> w[i] == RowWords(t[i])
  {
    if t == [] then [] else TableWords(t[..|t| - 1]) + [RowWords(t[|t| - 1])]
  }

  /** Documents that hold t have the words of t. */
  lemma {:induction false} WordsHeld(docs: seq<Doc>, t: Table)
    requires Holds(docs, t)
    ensures WordTable(docs) == TableWords(t)
  {
    forall i | 0 <= i < |docs|
      ensures DocWords(docs[i]) == RowWords(t[i])
    {
    }
  }

  /** The first k documents hold the first k rows. */
  lemma {:induction false} HoldsPrefix(docs: seq<Doc>, t: Table, k: nat)
    requires Holds(docs, t) && k <= |docs|
    ensures Holds(docs[..k], t[..k])
  {
  }

  /** A vocabulary file's lines, each a defined entry. */
  function Defined(lines: seq<string>): (v: seq<Option<string>>)
    ensures |v| == |lines| && forall i :: 0 <= i < |lines| ==> v[i] == Some(lines[i])
  {
    if lines == [] then [] else Defined(lines[..|lines| - 1]) + [Some(lines[|lines| - 1])]
  }

  /** What `loadData` returns. */
  datatype Data = Data(vocab: seq<Option<string>>, documents: seq<Doc>)

  /**
   * `loadData` as written: the `if` without braces guards only the call of
   * `subsample`, so without nSubsample `rets[0]` reads a property of
   * `undefined` and raises a TypeError.
   */
  method LoadDataAsWritten(vocabText: string, docwordText: string, nSubsample: Option<int>) returns (r: Result<Data>)
    ensures nSubsample.None? ==> r.Err?
    ensures nSubsample.Some? ==> (r.Ok? <==> Decode(docwordText).Loaded?)
  {
    var vocab := Split(vocabText, '\n');
    var docwords := LoadDocwords(docwordText);
    if docwords.Err? {
      return Err(docwords.msg);
    }
    if nSubsample.None? {
      return Err("TypeError: Cannot read property '0' of undefined");
    }
    var newdocs, newvocab := Subsample(docwords.value, vocab, nSubsample.value);
    r := Ok(Data(newvocab, newdocs));
  }

  /**
   * `loadData` as intended: the vocabulary file's lines and the documents of
   * the docword file, cut down by `subsample` when nSubsample is given.
   */
  method LoadData(vocabText: string, docwordText: string, nSubsample: Option<int>) returns (r: Result<Data>)
    ensures r.Ok? <==> Decode(docwordText).Loaded?
    ensures r.Ok? && nSubsample.None? ==>
      r.value.vocab == Defined(Split(vocabText, '\n')) && Holds(r.value.documents, Decode(docwordText).table)
    ensures r.Ok? && nSubsample.Some? ==>
      var t := Decode(docwordText).table;
      var k := Kept(|t|, nSubsample.value);
      |r.value.documents| == k &&
      r.value.vocab == VocabOf(Split(vocabText, '\n'), Distinct(Flatten(TableWords(t), k)))
  {
    var vocab := Split(vocabText, '\n');
    var docwords := LoadDocwords(docwordText);
    if docwords.Err? {
      return Err(docwords.msg);
    }
    if nSubsample.None? {
      return Ok(Data(Defined(vocab), docwords.value));
    }
    KeptWords(docwords.value, Decode(docwordText).table, Kept(|docwords.value|, nSubsample.value));
    var newdocs, newvocab := Subsample(docwords.value, vocab, nSubsample.value);
    r := Ok(Data(newvocab, newdocs));
  }

  /** The words of the first k documents, as `subsample` visits them, are those of the first k rows they hold. */
  lemma {:induction false} KeptWords(docs: seq<Doc>, t: Table, k: nat)
    requires Holds(docs, t) && k <= |docs|
    ensures Words(docs[..k], k) == Flatten(TableWords(t), k)
  {
    HoldsPrefix(docs, t, k);
    WordsHeld(docs[..k], t[..k]);
    assert TableWords(t[..k]) == TableWords(t)[..k];
    FlattenPrefix(TableWords(t), k);
  }

  /** Flattening the first k rows sees only those rows. */
  lemma {:induction false} FlattenPrefix(t: seq<seq<int>>, k: nat)
    requires k <= |t|
    ensures Flatten(t[..k], k) == Flatten(t, k)
  {
    if k > 0 {
      FlattenPrefix(t, k - 1);
      FlattenAgree(t[..k], t, k - 1);
    }
  }

  /** Rows that agree on the first k give the same flattening of them. */
  lemma {:induction false} FlattenAgree(a: seq<seq<int>>, b: seq<seq<int>>, k: nat)
    requires k <= |a| && k <= |b| && a[..k] == b[..k]
    ensures Flatten(a, k) == Flatten(b, k)
  {
    if k > 0 {
      assert a[..k - 1] == b[..k - 1] && a[k - 1] == b[k - 1] by {
        assert a[..k][..k - 1] == a[..k - 1] && b[..k][..k - 1] == b[..k - 1];
        assert a[..k][k - 1] == a[k - 1] && b[..k][k - 1] == b[k - 1];
      }
      FlattenAgree(a, b, k - 1);
    }
  }

  // ---------------------------------------------------------------------------
  // Synthetic data.

  /** A `[word, n]` entry of a synthetic document; no word (`undefined`) once every word has been used. */
  datatype SynthEntry = SynthEntry(word: Option<nat>, count: int)

  /** What `genSynthData` returns. */
  datatype SynthData = SynthData(vocab: seq<string>, documents: seq<seq<SynthEntry>>)

  /** `Math.ceil(x)`. */
  function Ceil(x: real): int {
    -((-x).Floor)
  }

  /** `Math.floor(r * n)` for a draw r of `Math.random()` picks a place among n. */
  lemma {:induction false} FloorPick(r: real, n: nat)
    requires 0.0 <= r < 1.0 && n > 0
    ensures 0 <= (r * n as real).Floor < n
  {
    assert r * n as real < n as real by {
      assert (1.0 - r) * n as real > 0.0;
    }
  }

  /** `Math.ceil(r * w)` for a draw r is between 0 and w, and at least 1 unless r is 0. */
  lemma {:induction false} CeilPick(r: real, w: int)
    requires 0.0 <= r < 1.0 && w > 0
    ensures 0 <= Ceil(r * w as real) <= w
    ensures r > 0.0 ==> Ceil(r * w as real) >= 1
  {
    var x := r * w as real;
    assert 0.0 <= x < w as real by {
      assert (1.0 - r) * w as real > 0.0;
    }
  }

  /** The total count of the entries. */
  function Total(doc: seq<SynthEntry>): int {
    if doc == [] then 0 else Total(doc[..|doc| - 1]) + doc[|doc| - 1].count
  }

  lemma {:induction false} TotalSnoc(doc: seq<SynthEntry>, e: SynthEntry)
    ensures Total(doc + [e]) == Total(doc) + e.count
  {
    assert (doc + [e])[..|doc|] == doc;
  }

  /**
   * What `genSynthData` promises of a document when its loop ends: the
   * counts add up to nWordsPerDoc (none when it is not positive), each is
   * between 0 and what was left, the t-th entry has a word exactly when t <
   * nWords, and the words are different and below nWords.
   */
  predicate SynthDoc(doc: seq<SynthEntry>, nWords: int, nWordsPerDoc: int) {
    Total(doc) == (if nWordsPerDoc > 0 then nWordsPerDoc else 0) &&
    (forall t :: 0 <= t < |doc| ==> doc[t].count >= 0) &&
    (forall t :: 0 <= t < |doc| ==> (doc[t].word.Some? <==> t < nWords)) &&
    (forall t :: 0 <= t < |doc| && doc[t].word.Some? ==> doc[t].word.value < nWords) &&
    (forall t, t' :: 0 <= t < t' < |doc| && doc[t].word.Some? && doc[t'].word.Some? ==> doc[t].word != doc[t'].word)
  }

  /** `wordsToChoose` with place k removed (`splice(k, 1)`). */
  function Removed(pool: seq<nat>, k: nat): (r: seq<nat>)
    requires k < |pool|
    ensures |r| == |pool| - 1
    ensures forall x :: x in r <==> x in pool[..k] || x in pool[k + 1..]
  {
    pool[..k] + pool[k + 1..]
  }

  /** Removing a place keeps the pool's words different and below nWords, and drops the removed word. */
  lemma {:induction false} RemovedKeeps(pool: seq<nat>, k: nat, nWords: int)
    requires k < |pool|
    requires forall a, b :: 0 <= a < b < |pool| ==> pool[a] != pool[b]
    requires forall a :: 0 <= a < |pool| ==> pool[a] < nWords
    ensures forall a, b :: 0 <= a < b < |Removed(pool, k)| ==> Removed(pool, k)[a] != Removed(pool, k)[b]
    ensures forall a :: 0 <= a < |Removed(pool, k)| ==> Removed(pool, k)[a] < nWords
    ensures pool[k] !in Removed(pool, k)
  {
    var r := Removed(pool, k);
    forall a | 0 <= a < |r|
      ensures r[a] == pool[if a < k then a else a + 1]
    {
    }
  }

  /** The state of the inner `while` of `genSynthData`. */
  ghost predicate Drawing(doc: seq<SynthEntry>, pool: seq<nat>, wordsLeft: int, nWords: int, nWordsPerDoc: int) {
    (nWordsPerDoc > 0 ==> wordsLeft >= 0 && Total(doc) + wordsLeft == nWordsPerDoc) &&
    (nWordsPerDoc <= 0 ==> doc == [] && wordsLeft == nWordsPerDoc) &&
    |pool| == (if |doc| < nWords then nWords - |doc| else 0) &&
    (forall a, b :: 0 <= a < b < |pool| ==> pool[a] != pool[b]) &&
    (forall a :: 0 <= a < |pool| ==> pool[a] < nWords) &&
    (forall t :: 0 <= t < |doc| ==> doc[t].count >= 0) &&
    (forall t :: 0 <= t < |doc| ==> (doc[t].word.Some? <==> t < nWords)) &&
    (forall t :: 0 <= t < |doc| && doc[t].word.Some? ==> doc[t].word.value < nWords && doc[t].word.value !in pool) &&
    (forall t, t' :: 0 <= t < t' < |doc| && doc[t].word.Some? && doc[t'].word.Some? ==> doc[t].word != doc[t'].word)
  }

  /** The words `0, 1, ..., n - 1`, as the loop over j pushes them. */
  method WordPool(nWords: int) returns (pool: seq<nat>)
    ensures |pool| == (if nWords > 0 then nWords else 0)
    ensures forall a :: 0 <= a < |pool| ==> pool[a] == a
  {
    pool := [];
    var j: nat := 0;
    while j < nWords
      invariant |pool| == j && (nWords > 0 ==> j <= nWords) && (nWords <= 0 ==> j == 0)
      invariant forall a :: 0 <= a < j ==> pool[a] == a
    {
      pool := pool + [j];
      j := j + 1;
    }
  }

  /** Appending a drawn entry keeps the state of the inner `while`. */
  lemma {:induction false} DrawKeeps(doc: seq<SynthEntry>, pool: seq<nat>, pool': seq<nat>, word: Option<nat>, n: int,
                  wordsLeft: int, nWords: int, nWordsPerDoc: int)
    requires Drawing(doc, pool, wordsLeft, nWords, nWordsPerDoc)
    requires wordsLeft > 0 && 0 <= n <= wordsLeft
    requires |pool| > 0 ==> word.Some? && word.value in pool && |pool'| == |pool| - 1 && word.value !in pool'
    requires |pool| > 0 ==> (forall x :: x in pool' ==> x in pool)
    requires |pool| == 0 ==> word.None? && pool' == []
    requires forall a, b :: 0 <= a < b < |pool'| ==> pool'[a] != pool'[b]
    requires forall a :: 0 <= a < |pool'| ==> pool'[a] < nWords
    ensures Drawing(doc + [SynthEntry(word, n)], pool', wordsLeft - n, nWords, nWordsPerDoc)
  {
    var d := doc + [SynthEntry(word, n)];
    TotalSnoc(doc, SynthEntry(word, n));
    forall t | 0 <= t < |d| && d[t].word.Some?
      ensures d[t].word.value < nWords && d[t].word.value !in pool'
    {
      if t < |doc| {
        assert d[t] == doc[t];
      } else {
        assert |pool| > 0;
        var a :| 0 <= a < |pool| && pool[a] == word.value;
      }
    }
    forall t, t' | 0 <= t < t' < |d| && d[t].word.Some? && d[t'].word.Some?
      ensures d[t].word != d[t'].word
    {
      assert d[t] == doc[t];
      if t' == |doc| {
        assert word.value in pool;
        assert doc[t].word.value !in pool;
      } else {
        assert d[t'] == doc[t'];
      }
    }
    forall t | 0 <= t < |d|
      ensures (d[t].word.Some? <==> t < nWords) && d[t].count >= 0
    {
      if t < |doc| {
        assert d[t] == doc[t];
      }
    }
  }

  /** One pass of the inner `while`: draw a word from the pool and a count of at most what is left. */
  method DrawEntry(doc: seq<SynthEntry>, pool: seq<nat>, wordsLeft: int, nWords: int, nWordsPerDoc: int,
                   r1: real, r2: real)
    returns (doc': seq<SynthEntry>, pool': seq<nat>, wordsLeft': int)
    requires 0.0 <= r1 < 1.0 && 0.0 <= r2 < 1.0 && wordsLeft > 0
    requires Drawing(doc, pool, wordsLeft, nWords, nWordsPerDoc)
    ensures Drawing(doc', pool', wordsLeft', nWords, nWordsPerDoc)
    ensures |doc'| == |doc| + 1 && doc'[..|doc|] == doc
    ensures wordsLeft' <= wordsLeft && (r2 > 0.0 ==> wordsLeft' < wordsLeft)
  {
    var word: Option<nat> := None;
    pool' := pool;
    if |pool| > 0 {
      var wordIdx := (r1 * |pool| as real).Floor;
      FloorPick(r1, |pool|);
      word := Some(pool[wordIdx]);
      pool' := Removed(pool, wordIdx);
      RemovedKeeps(pool, wordIdx, nWords);
    }
    var n := Ceil(r2 * wordsLeft as real);
    CeilPick(r2, wordsLeft);
    DrawKeeps(doc, pool, pool', word, n, wordsLeft, nWords, nWordsPerDoc);
    wordsLeft' := wordsLeft - n;
    doc' := doc + [SynthEntry(word, n)];
  }

  /** Every draw is one `Math.random()` could return. */
  predicate Draws(rand: seq<real>) {
    forall i :: 0 <= i < |rand| ==> 0.0 <= rand[i] < 1.0
  }

  /** No draw is 0, so each pass of the inner `while` takes at least one word. */
  predicate Positive(rand: seq<real>) {
    forall i :: 0 <= i < |rand| ==> rand[i] > 0.0
  }

  function NonNeg(n: int): nat {
    if n > 0 then n else 0
  }

  /**
   * One document of `genSynthData`, drawing from `rand` at `from` on, two
   * draws per entry; None when the draws run out before the document is
   * complete. With positive draws, at most 2 * nWordsPerDoc are taken.
   */
  method GenDoc(nWords: int, nWordsPerDoc: int, rand: seq<real>, from: nat) returns (doc: Option<seq<SynthEntry>>, next: nat)
    requires Draws(rand) && from <= |rand|
    ensures from <= next <= |rand|
    ensures doc.Some? ==> SynthDoc(doc.value, nWords, nWordsPerDoc)
    ensures doc.None? ==> nWordsPerDoc > 0 && next + 2 > |rand|
    ensures Positive(rand) ==> next - from <= 2 * NonNeg(nWordsPerDoc)
    ensures Positive(rand) && |rand| - from >= 2 * NonNeg(nWordsPerDoc) ==> doc.Some?
  {
    var wordsLeft := nWordsPerDoc;
    var pool := WordPool(nWords);
    var entries: seq<SynthEntry> := [];
    next := from;
    while wordsLeft > 0
      invariant from <= next <= |rand|
      invariant Drawing(entries, pool, wordsLeft, nWords, nWordsPerDoc)
      invariant Positive(rand) && nWordsPerDoc > 0 ==> next - from + 2 * wordsLeft <= 2 * nWordsPerDoc
      invariant nWordsPerDoc <= 0 ==> next == from
      decreases |rand| - next
    {
      if next + 2 > |rand| {
        return None, next;
      }
      entries, pool, wordsLeft := DrawEntry(entries, pool, wordsLeft, nWords, nWordsPerDoc, rand[next], rand[next + 1]);
      next := next + 2;
    }
    doc := Some(entries);
  }

  /** The vocabulary loop of `genSynthData`: one fresh name per word. */
  method SynthVocab(nWords: int, name: nat -> string) returns (vocab: seq<string>)
    ensures |vocab| == NonNeg(nWords)
    ensures forall i :: 0 <= i < |vocab| ==> vocab[i] == name(i)
  {
    vocab := [];
    var i: nat := 0;
    while i < nWords
      invariant |vocab| == i && (nWords > 0 ==> i <= nWords) && (nWords <= 0 ==> i == 0)
      invariant forall t :: 0 <= t < i ==> vocab[t] == name(t)
    {
      vocab := vocab + [name(i)];
      i := i + 1;
    }
  }

  /**
   * `genSynthData`: the vocabulary is the names 0 .. nWords - 1 in order and
   * each of the nDocs documents is a synthetic document of nWordsPerDoc
   * words; None only when the draws run out, which cannot happen with
   * enough positive draws.
   */
  method GenSynthData(nDocs: int, nWords: int, nWordsPerDoc: int, name: nat -> string, rand: seq<real>)
    returns (r: Option<SynthData>)
    requires Draws(rand)
    ensures r.Some? ==> |r.value.vocab| == NonNeg(nWords) && forall i :: 0 <= i < |r.value.vocab| ==> r.value.vocab[i] == name(i)
    ensures r.Some? ==> |r.value.documents| == NonNeg(nDocs)
    ensures r.Some? ==> forall d :: 0 <= d < |r.value.documents| ==> SynthDoc(r.value.documents[d], nWords, nWordsPerDoc)
    ensures r.None? ==> nDocs > 0 && nWordsPerDoc > 0
    ensures Positive(rand) && |rand| >= 2 * NonNeg(nDocs) * NonNeg(nWordsPerDoc) ==> r.Some?
  {
    var vocab := SynthVocab(nWords, name);
    var docs: seq<seq<SynthEntry>> := [];
    var pos: nat := 0;
    ghost var w := NonNeg(nWordsPerDoc);
    var i: nat := 0;
    while i < nDocs
      invariant |docs| == i && (nDocs > 0 ==> i <= nDocs) && (nDocs <= 0 ==> i == 0)
      invariant pos <= |rand|
      invariant forall d :: 0 <= d < i ==> SynthDoc(docs[d], nWords, nWordsPerDoc)
      invariant Positive(rand) ==> pos <= 2 * i * w
    {
      var doc, next := GenDoc(nWords, nWordsPerDoc, rand, pos);
      if doc.None? {
        assert Positive(rand) ==> |rand| - pos < 2 * w;
        assert Positive(rand) ==> |rand| < 2 * (i + 1) * w;
        assert (i + 1) * w <= NonNeg(nDocs) * w;
        return None;
      }
      docs := docs + [doc.value];
      pos := next;
      i := i + 1;
    }
    r := Some(SynthData(vocab, docs));
  }

  // ---------------------------------------------------------------------------
  // Summaries of a topic's word distribution.

  /** An `[i, wordDistrib[i]]` pair. */
  datatype Scored = Scored(index: nat, prob: real)

  /** A `[vocabulary[i], p]` pair of the summary. */
  datatype WordProb = WordProb(word: Option<string>, prob: real)

  /** The pairs `[i, wordDistrib[i]]` for i below k, as the first loop pushes them. */
  function Indexed(wd: seq<real>, k: nat): (s: seq<Scored>)
    requires k <= |wd|
    ensures |s| == k
    ensures forall i :: 0 <= i < k ==> s[i] == Scored(i, wd[i])
  {
    if k == 0 then [] else Indexed(wd, k - 1) + [Scored(k - 1, wd[k - 1])]
  }

  /** The stable sort by decreasing probability places x after every pair of at least its probability. */
  function Insert(s: seq<Scored>, x: Scored): (r: seq<Scored>)
    ensures multiset(r) == multiset(s) + multiset{x}
    ensures |r| == |s| + 1
  {
    if s == [] then [x]
    else if s[0].prob < x.prob then [x] + s
    else
      assert s == [s[0]] + s[1..];
      [s[0]] + Insert(s[1..], x)
  }

  /** `sort(function(a, b) { return b[1] - a[1]; })`, stable as the JavaScript sort is. */
  function SortByProb(s: seq<Scored>): (r: seq<Scored>)
    ensures multiset(r) == multiset(s)
    ensures |r| == |s|
  {
    if s == [] then []
    else
      assert s == s[..|s| - 1] + [s[|s| - 1]];
      Insert(SortByProb(s[..|s| - 1]), s[|s| - 1])
  }

  /** The order a stable descending sort of indexed pairs produces: higher probability first, ties by index. */
  predicate Before(x: Scored, y: Scored) {
    x.prob > y.prob || (x.prob == y.prob && x.index < y.index)
  }

  predicate Ranked(s: seq<Scored>) {
    forall a, b :: 0 <= a < b < |s| ==> Before(s[a], s[b])
  }

  lemma {:induction false} InsertRanked(s: seq<Scored>, x: Scored)
    requires Ranked(s)
    requires forall a :: 0 <= a < |s| ==> s[a].index < x.index
    ensures Ranked(Insert(s, x))
    decreases |s|
  {
    if s == [] {
    } else if s[0].prob < x.prob {
      var r := [x] + s;
      forall a, b | 0 <= a < b < |r|
        ensures Before(r[a], r[b])
      {
        if a == 0 {
          assert r[b] == s[b - 1];
          assert Before(s[0], s[b - 1]) || b - 1 == 0;
        } else {
          assert r[a] == s[a - 1] && r[b] == s[b - 1];
        }
      }
    } else {
      var t := s[1..];
      assert Ranked(t) by {
        forall a, b | 0 <= a < b < |t|
          ensures Before(t[a], t[b])
        {
          assert t[a] == s[a + 1] && t[b] == s[b + 1];
        }
      }
      InsertRanked(t, x);
      var r := [s[0]] + Insert(t, x);
      forall a, b | 0 <= a < b < |r|
        ensures Before(r[a], r[b])
      {
        if a == 0 {
          var y := r[b];
          assert y in multiset(Insert(t, x));
          if y == x {
            assert s[0].index < x.index;
          } else {
            assert y in multiset(t);
            var c :| 0 <= c < |t| && t[c] == y;
            assert Before(s[0], s[c + 1]);
          }
        } else {
          assert r[a] == Insert(t, x)[a - 1] && r[b] == Insert(t, x)[b - 1];
        }
      }
    }
  }

  /** Sorting pairs listed by increasing index ranks them. */
  lemma {:induction false} SortRanked(s: seq<Scored>)
    requires forall a, b :: 0 <= a < b < |s| ==> s[a].index < s[b].index
    ensures Ranked(SortByProb(s))
    decreases |s|
  {
    if s != [] {
      var init := s[..|s| - 1];
      var x := s[|s| - 1];
      SortRanked(init);
      var sorted := SortByProb(init);
      forall a | 0 <= a < |sorted|
        ensures sorted[a].index < x.index
      {
        assert sorted[a] in multiset(init);
        var c :| 0 <= c < |init| && init[c] == sorted[a];
        assert s[c] == init[c];
      }
      InsertRanked(sorted, x);
    }
  }

  /** All pairs `[i, wordDistrib[i]]`, sorted. */
  function Ranking(wd: seq<real>): (s: seq<Scored>)
    ensures |s| == |wd|
  {
    SortByProb(Indexed(wd, |wd|))
  }

  /** The sorted list holds each index exactly once, with its probability, ranked. */
  lemma {:induction false} RankingSpec(wd: seq<real>)
    ensures Ranked(Ranking(wd))
    ensures forall p :: 0 <= p < |wd| ==> Ranking(wd)[p].index < |wd| && Ranking(wd)[p].prob == wd[Ranking(wd)[p].index]
    ensures forall i :: 0 <= i < |wd| ==> Scored(i, wd[i]) in Ranking(wd)
  {
    var ix := Indexed(wd, |wd|);
    var sorted := Ranking(wd);
    SortRanked(ix);
    forall p | 0 <= p < |sorted|
      ensures sorted[p].index < |wd| && sorted[p].prob == wd[sorted[p].index]
    {
      assert sorted[p] in multiset(ix);
      var c :| 0 <= c < |ix| && ix[c] == sorted[p];
    }
    forall i | 0 <= i < |wd|
      ensures Scored(i, wd[i]) in sorted
    {
      assert ix[i] in multiset(sorted);
    }
  }

  /** In a ranked list of pairs whose probability is fixed by their index, no index appears twice. */
  lemma {:induction false} RankedDistinct(wd: seq<real>, s: seq<Scored>)
    requires Ranked(s)
    requires forall p :: 0 <= p < |s| ==> s[p].index < |wd| && s[p].prob == wd[s[p].index]
    ensures forall p, q :: 0 <= p < q < |s| ==> s[p].index != s[q].index
  {
    forall p, q | 0 <= p < q < |s|
      ensures s[p].index != s[q].index
    {
      assert Before(s[p], s[q]);
    }
  }

  /** The pairs `summarizeWordDistrib` keeps: the first n of the sorted list (`splice(0, n)`). */
  function TopWords(wd: seq<real>, n: int): (top: seq<Scored>)
    ensures |top| == Kept(|wd|, n)
  {
    Ranking(wd)[..Kept(|wd|, n)]
  }

  /**
   * The kept pairs are the first n indices of wordDistrib by decreasing
   * probability: each is an index with its probability, the list is in
   * that order, no index appears twice, and an index left out has no more
   * probability than any kept one.
   */
  lemma {:induction false} TopWordsSpec(wd: seq<real>, n: int)
    ensures forall t :: 0 <= t < |TopWords(wd, n)| ==>
      TopWords(wd, n)[t].index < |wd| && TopWords(wd, n)[t].prob == wd[TopWords(wd, n)[t].index]
    ensures Ranked(TopWords(wd, n))
    ensures forall t, t' :: 0 <= t < t' < |TopWords(wd, n)| ==> TopWords(wd, n)[t].index != TopWords(wd, n)[t'].index
    ensures forall i, t ::
      (0 <= i < |wd| && 0 <= t < |TopWords(wd, n)| &&
       forall u :: 0 <= u < |TopWords(wd, n)| ==> TopWords(wd, n)[u].index != i) ==>
      wd[i] <= TopWords(wd, n)[t].prob
  {
    var sorted := Ranking(wd);
    var top := TopWords(wd, n);
    RankingSpec(wd);
    assert Ranked(top) by {
      forall a, b | 0 <= a < b < |top|
        ensures Before(top[a], top[b])
      {
        assert top[a] == sorted[a] && top[b] == sorted[b];
      }
    }
    forall t | 0 <= t < |top|
      ensures top[t].index < |wd| && top[t].prob == wd[top[t].index]
    {
      assert top[t] == sorted[t];
    }
    RankedDistinct(wd, top);
    forall i, t | 0 <= i < |wd| && 0 <= t < |top| &&
      (forall u :: 0 <= u < |top| ==> top[u].index != i)
      ensures wd[i] <= top[t].prob
    {
      forall u | 0 <= u < |top|
        ensures sorted[u] != Scored(i, wd[i])
      {
        assert top[u] == sorted[u];
      }
      var p :| 0 <= p < |sorted| && sorted[p] == Scored(i, wd[i]);
      assert t < p;
      assert Before(sorted[t], sorted[p]);
    }
  }

  /** With n at least |wordDistrib| every index is kept. */
  lemma {:induction false} TopWordsAll(wd: seq<real>, n: int)
    requires n >= |wd|
    ensures forall i :: 0 <= i < |wd| ==> Scored(i, wd[i]) in TopWords(wd, n)
  {
    RankingSpec(wd);
    assert TopWords(wd, n) == Ranking(wd);
  }

  /** `.map(function(x) { return [vocabulary[x[0]], x[1]]; })`. */
  function Label(top: seq<Scored>, vocabulary: seq<string>): (r: seq<WordProb>)
    ensures |r| == |top|
    ensures forall t :: 0 <= t < |r| ==> r[t] == WordProb(Lookup(vocabulary, top[t].index), top[t].prob)
  {
    if top == [] then [] else Label(top[..|top| - 1], vocabulary) + [WordProb(Lookup(vocabulary, top[|top| - 1].index), top[|top| - 1].prob)]
  }

  /** `summarizeWordDistrib`: the vocabulary entry and probability of each kept pair, in order. */
  method SummarizeWordDistrib(wordDistrib: seq<real>, vocabulary: seq<string>, n: int) returns (r: seq<WordProb>)
    ensures |r| == |TopWords(wordDistrib, n)|
    ensures forall t :: 0 <= t < |r| ==>
      r[t] == WordProb(Lookup(vocabulary, TopWords(wordDistrib, n)[t].index), TopWords(wordDistrib, n)[t].prob)
  {
    var distWithIndices: seq<Scored> := [];
    var i := 0;
    while i < |wordDistrib|
      invariant i <= |wordDistrib|
      invariant distWithIndices == Indexed(wordDistrib, i)
    {
      distWithIndices := distWithIndices + [Scored(i, wordDistrib[i])];
      i := i + 1;
    }
    assert distWithIndices == Indexed(wordDistrib, |wordDistrib|);
    var sorted := SortByProb(distWithIndices);
    var top := sorted[..Kept(|sorted|, n)];
    r := Label(top, vocabulary);
  }
}
