/**
 The starfield's view of the stars: the category filter applied to the star
 list, and the map of starting positions built from the filtered list.
 */
module Starfield {
  import opened Types
  import opened Text
  import opened FloatingWords
  import opened Seqs

  /** The filter's verdict for one star. */
  predicate Passes(c: Category, w: FloatingWord)
  {
    c == All || w.category == c
  }

  /** `filteredWords`: all stars for `'all'`, otherwise those of the chosen question. */
  function FilterWords(words: seq<FloatingWord>, c: Category): (r: seq<FloatingWord>)
    ensures |r| <= |words|
  {
    if c == All then words
    else if words == [] then []
    else
      var last := words[|words| - 1];
      FilterWords(words[..|words| - 1], c) + (if last.category == c then [last] else [])
  }

  /** The filter keeps exactly the stars it shows. */
  lemma {:induction false} FilterMembers(words: seq<FloatingWord>, c: Category, w: FloatingWord)
    ensures w in FilterWords(words, c) <==> w in words && Passes(c, w)
  {
    if c != All && words != [] {
      FilterMembers(words[..|words| - 1], c, w);
      LastSplit(words);
    }
  }

  /** With `'all'` nothing is filtered out. */
  lemma FilterAll(words: seq<FloatingWord>)
    ensures FilterWords(words, All) == words
  {
  }

  /** The filter works star by star: filtering a joined list filters each part. */
  lemma {:induction false} FilterAppend(a: seq<FloatingWord>, b: seq<FloatingWord>, c: Category)
    ensures FilterWords(a + b, c) == FilterWords(a, c) + FilterWords(b, c)
    decreases |b|
  {
    if c != All {
      if b == [] {
        AppendEmpty(a);
        AppendEmpty(FilterWords(a, c));
      } else {
        FilterAppend(a, b[..|b| - 1], c);
        AppendLast(a, b);
      }
    }
  }

  /**
   The filter keeps every copy of every star it shows and drops every other
   star: each star occurs as often as before, or not at all.
   */
  lemma {:induction false} FilterCounts(words: seq<FloatingWord>, c: Category, w: FloatingWord)
    ensures multiset(FilterWords(words, c))[w] == if Passes(c, w) then multiset(words)[w] else 0
  {
    if c != All && words != [] {
      var init := words[..|words| - 1];
      FilterCounts(init, c, w);
      LastSplit(words);
    }
  }

  /** A starting position, in percent of the sky. */
  datatype Position = Position(x: real, y: real)

  /** The map the loop builds: each star's id set to its starting position, later stars last. */
  function PositionsOf(words: seq<FloatingWord>): map<string, Position>
  {
    if words == [] then map[]
    else
      var last := words[|words| - 1];
      PositionsOf(words[..|words| - 1])[last.id := Position(last.x, last.y)]
  }

  /** An id is a key of the map exactly when some star carries it. */
  lemma {:induction false} PositionsKeys(words: seq<FloatingWord>, id: string)
    ensures id in PositionsOf(words) <==> exists j :: 0 <= j < |words| && words[j].id == id
  {
    if words != [] {
      var init := words[..|words| - 1];
      PositionsKeys(init, id);
      if id in PositionsOf(init) {
        var j :| 0 <= j < |init| && init[j].id == id;
        assert words[j] == init[j];
      }
      if exists j :: 0 <= j < |words| && words[j].id == id {
        var j :| 0 <= j < |words| && words[j].id == id;
        if j < |init| {
          assert init[j] == words[j];
        }
      }
    }
  }

  /** The id of star `j` maps to its position when no later star carries that id. */
  lemma {:induction false} PositionsValue(words: seq<FloatingWord>, j: nat)
    requires j < |words|
    requires forall k :: j < k < |words| ==> words[k].id != words[j].id
    ensures words[j].id in PositionsOf(words)
    ensures PositionsOf(words)[words[j].id] == Position(words[j].x, words[j].y)
  {
    var init := words[..|words| - 1];
    if j < |init| {
      assert init[j] == words[j];
      forall k | j < k < |init| ensures init[k].id != init[j].id {
        assert init[k] == words[k];
      }
      PositionsValue(init, j);
    }
  }

  /**
   The map has one key per star id, and each id is set to the position of
   the last star carrying it.
   */
  lemma PositionsOfSpec(words: seq<FloatingWord>)
    ensures forall id :: id in PositionsOf(words) <==> exists j :: 0 <= j < |words| && words[j].id == id
    ensures forall j :: 0 <= j < |words| && (forall k :: j < k < |words| ==> words[k].id != words[j].id) ==>
      (PositionsOf(words)[words[j].id] == Position(words[j].x, words[j].y))
  {
    forall id {
      PositionsKeys(words, id);
    }
    forall j | 0 <= j < |words| && (forall k :: j < k < |words| ==> words[k].id != words[j].id) {
      PositionsValue(words, j);
    }
  }

  /** Stars with pairwise different ids each keep their own starting position. */
  lemma PositionsOfDistinct(words: seq<FloatingWord>)
    requires IdsDistinct(words)
    ensures forall j :: 0 <= j < |words| ==>
      (words[j].id in PositionsOf(words) && PositionsOf(words)[words[j].id] == Position(words[j].x, words[j].y))
  {
    PositionsOfSpec(words);
  }

  /** The filter keeps the ids of the generated stars pairwise different. */
  lemma {:induction false} FilteredIdsDistinct(words: seq<FloatingWord>, c: Category)
    requires IdsDistinct(words)
    ensures IdsDistinct(FilterWords(words, c))
  {
    if c != All && words != [] {
      var init := words[..|words| - 1];
      var last := words[|words| - 1];
      assert IdsDistinct(init);
      FilteredIdsDistinct(init, c);
      var r0 := FilterWords(init, c);
      forall w <- r0 ensures w.id != last.id {
        FilterMembers(init, c, w);
        var k :| 0 <= k < |init| && init[k] == w;
        assert words[k] == w;
      }
      var r := FilterWords(words, c);
      assert r == r0 + (if last.category == c then [last] else []);
      forall a, b | 0 <= a < b < |r| ensures r[a].id != r[b].id {
        if b == |r0| {
          assert r[a] == r0[a] && r[b] == last;
          assert r0[a] in r0;
        } else {
          assert r[a] == r0[a] && r[b] == r0[b];
        }
      }
    }
  }

  /** The starting positions the component sets for the filtered stars. */
  method InitialPositions(filteredWords: seq<FloatingWord>) returns (positions: map<string, Position>)
    ensures positions == PositionsOf(filteredWords)
  {
    positions := map[];
    for i := 0 to |filteredWords|
      invariant positions == PositionsOf(filteredWords[..i])
    {
      var word := filteredWords[i];
      assert filteredWords[..i + 1][..i] == filteredWords[..i];
      positions := positions[word.id := Position(word.x, word.y)];
    }
    assert filteredWords[..|filteredWords|] == filteredWords;
  }

  /**
   End to end: the generated stars, filtered by any category, each start at
   their own drawn position.
   */
  lemma GeneratedPositions(rs: seq<Response>, kws: seq<Keyword>, rand: nat -> Draw, c: Category)
    requires ValidIndices(rs, kws)
    ensures var r := FilterWords(Place(rs, kws, rand).words, c);
      forall j :: 0 <= j < |r| ==> r[j].id in PositionsOf(r) && PositionsOf(r)[r[j].id] == Position(r[j].x, r[j].y)
  {
    var words := Place(rs, kws, rand).words;
    DistinctIds(rs, kws, rand);
    FilteredIdsDistinct(words, c);
    PositionsOfDistinct(FilterWords(words, c));
  }
}
