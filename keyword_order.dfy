/**
 The ordering step at the end of keyword extraction:
 `sort((a, b) => b.frequency - a.frequency)`. JavaScript's `Array.prototype.sort`
 is stable, so entries of equal frequency keep the order they arrived in; the
 insertion sort below has exactly that outcome.
 */
module KeywordOrder {
  import opened Types

  /** Places `k` in front of the first entry that is not more frequent than it. */
  function Insert(k: Keyword, s: seq<Keyword>): (r: seq<Keyword>)
    ensures |r| == |s| + 1
  {
    if s == [] || s[0].frequency <= k.frequency then [k] + s
    else [s[0]] + Insert(k, s[1..])
  }

  /** Stable sort by descending frequency. */
  function SortByFrequency(s: seq<Keyword>): (r: seq<Keyword>)
    ensures |r| == |s|
  {
    if s == [] then [] else Insert(s[0], SortByFrequency(s[1..]))
  }

  ghost predicate NonIncreasing(s: seq<Keyword>)
  {
    forall a, b :: 0 <= a < b < |s| ==> s[a].frequency >= s[b].frequency
  }

  /**
   `x` goes before `y`: it is more frequent, or as frequent and earlier by
   `rank`, a position given to every text.
   */
  ghost predicate Before(x: Keyword, y: Keyword, rank: map<string, nat>)
  {
    && x.text in rank && y.text in rank
    && (x.frequency > y.frequency || (x.frequency == y.frequency && rank[x.text] < rank[y.text]))
  }

  /** `s` lists its entries by descending frequency, ties by ascending `rank`. */
  ghost predicate RankedBy(s: seq<Keyword>, rank: map<string, nat>)
  {
    forall a, b :: 0 <= a < b < |s| ==> Before(s[a], s[b], rank)
  }

  /** `s` lists its entries by ascending `rank`. */
  ghost predicate ArrivesBy(s: seq<Keyword>, rank: map<string, nat>)
  {
    && (forall k <- s :: k.text in rank)
    && forall a, b :: 0 <= a < b < |s| ==> rank[s[a].text] < rank[s[b].text]
  }

  lemma InsertMembers(k: Keyword, s: seq<Keyword>, x: Keyword)
    ensures x in Insert(k, s) <==> x == k || x in s
  {
    InsertPermutes(k, s);
    assert x in Insert(k, s) <==> x in multiset(Insert(k, s));
  }

  lemma {:induction false} InsertPermutes(k: Keyword, s: seq<Keyword>)
    ensures multiset(Insert(k, s)) == multiset{k} + multiset(s)
  {
    if s != [] && s[0].frequency > k.frequency {
      InsertPermutes(k, s[1..]);
      assert s == [s[0]] + s[1..];
    }
  }

  /** The sort is a permutation of its input. */
  lemma {:induction false} SortPermutes(s: seq<Keyword>)
    ensures multiset(SortByFrequency(s)) == multiset(s)
  {
    if s != [] {
      SortPermutes(s[1..]);
      InsertPermutes(s[0], SortByFrequency(s[1..]));
      assert s == [s[0]] + s[1..];
    }
  }

  lemma {:induction false} InsertNonIncreasing(k: Keyword, s: seq<Keyword>)
    requires NonIncreasing(s)
    ensures NonIncreasing(Insert(k, s))
  {
    if s != [] && s[0].frequency > k.frequency {
      InsertNonIncreasing(k, s[1..]);
      InsertPermutes(k, s[1..]);
      var r := Insert(k, s[1..]);
      forall j | 0 <= j < |r| ensures r[j].frequency < s[0].frequency || r[j] in s[1..] {
        assert r[j] in multiset(r);
      }
    }
  }

  /** The sort leaves the entries in non-increasing order of frequency. */
  lemma {:induction false} SortNonIncreasing(s: seq<Keyword>)
    ensures NonIncreasing(SortByFrequency(s))
  {
    if s != [] {
      SortNonIncreasing(s[1..]);
      InsertNonIncreasing(s[0], SortByFrequency(s[1..]));
    }
  }

  lemma {:induction false} InsertRanked(k: Keyword, s: seq<Keyword>, rank: map<string, nat>)
    requires RankedBy(s, rank) && k.text in rank
    requires forall e <- s :: e.text in rank && rank[k.text] < rank[e.text]
    ensures RankedBy(Insert(k, s), rank)
  {
    if s == [] || s[0].frequency <= k.frequency {
      var out := [k] + s;
      forall a, b | 0 <= a < b < |out| ensures Before(out[a], out[b], rank) {
        if a == 0 {
          assert out[b] == s[b - 1];
          if b > 1 { assert Before(s[0], s[b - 1], rank); }
        } else {
          assert out[a] == s[a - 1] && out[b] == s[b - 1];
        }
      }
    } else {
      InsertRanked(k, s[1..], rank);
      var r := Insert(k, s[1..]);
      forall j | 0 <= j < |r| ensures Before(s[0], r[j], rank) {
        InsertMembers(k, s[1..], r[j]);
        if r[j] != k {
          var i :| 0 <= i < |s[1..]| && s[1..][i] == r[j];
          assert s[1 + i] == r[j];
        }
      }
      var out := [s[0]] + r;
      forall a, b | 0 <= a < b < |out| ensures Before(out[a], out[b], rank) {
        assert out[b] == r[b - 1];
        if a > 0 { assert out[a] == r[a - 1]; }
      }
    }
  }

  /**
   Stability: when the input arrives by ascending position, the sorted list is
   ordered by descending frequency and, among equal frequencies, still by
   arrival position.
   */
  lemma {:induction false} SortRanked(s: seq<Keyword>, rank: map<string, nat>)
    requires ArrivesBy(s, rank)
    ensures RankedBy(SortByFrequency(s), rank)
  {
    if s != [] {
      SortRanked(s[1..], rank);
      SortPermutes(s[1..]);
      forall e <- SortByFrequency(s[1..]) ensures e.text in rank && rank[s[0].text] < rank[e.text] {
        assert e in multiset(SortByFrequency(s[1..]));
        var j :| 0 <= j < |s[1..]| && s[1..][j] == e;
        assert s[1 + j] == e;
      }
      InsertRanked(s[0], SortByFrequency(s[1..]), rank);
    }
  }
}
