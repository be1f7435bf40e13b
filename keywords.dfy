/**
 Keyword extraction (`extractKeywords`): every (response, question) text is
 checked for every vocabulary term with `includes`; each match adds one to
 the term's count and records the response index and the question in the
 term's entry of an insertion-ordered map. The entries are then turned into
 `Keyword`s, kept when seen at least once, and stably sorted by descending
 frequency.

 The scan is specified by the sequence of its matches ("hits"), in the order
 the three nested loops meet them; the map the loops build is the fold of
 `Record` over that sequence.
 */
module Keywords {
  import opened Text
  import opened Types
  import opened KeywordOrder
  import opened Seqs
  import opened Lexicon

  // ---------------------------------------------------------------------------
  // The scan as a sequence of hits

  /** One match: vocabulary `term` occurs in the text response `index` gives to `field`. */
  datatype Hit = Hit(index: nat, field: Field, term: string)

  /** The matches of one text against the terms of `vocab`, in vocabulary order. */
  function FieldHits(index: nat, field: Field, text: string, vocab: seq<string>): seq<Hit>
  {
    if vocab == [] then []
    else
      var term := vocab[|vocab| - 1];
      FieldHits(index, field, text, vocab[..|vocab| - 1])
        + (if Contains(text, term) then [Hit(index, field, term)] else [])
  }

  /** The matches of one response, question by question in the order of `fields`. */
  function ResponseHits(index: nat, r: Response, fields: seq<Field>, vocab: seq<string>): seq<Hit>
  {
    if fields == [] then []
    else
      var field := fields[|fields| - 1];
      ResponseHits(index, r, fields[..|fields| - 1], vocab)
        + FieldHits(index, field, FieldText(r, field), vocab)
  }

  /** All matches of the scan, response by response. */
  function ScanHits(rs: seq<Response>, vocab: seq<string>): seq<Hit>
  {
    if rs == [] then []
    else ScanHits(rs[..|rs| - 1], vocab) + ResponseHits(|rs| - 1, rs[|rs| - 1], Questions, vocab)
  }

  lemma {:induction false} FieldHitsMembers(index: nat, field: Field, text: string, vocab: seq<string>, h: Hit)
    ensures h in FieldHits(index, field, text, vocab) <==>
            h.index == index && h.field == field && h.term in vocab && Contains(text, h.term)
  {
    if vocab != [] {
      var init := vocab[..|vocab| - 1];
      FieldHitsMembers(index, field, text, init, h);
      assert vocab == init + [vocab[|vocab| - 1]];
    }
  }

  lemma {:induction false} ResponseHitsMembers(index: nat, r: Response, fields: seq<Field>, vocab: seq<string>, h: Hit)
    ensures h in ResponseHits(index, r, fields, vocab) <==>
            h.index == index && h.field in fields && h.term in vocab && Contains(FieldText(r, h.field), h.term)
  {
    if fields != [] {
      var init := fields[..|fields| - 1];
      var field := fields[|fields| - 1];
      ResponseHitsMembers(index, r, init, vocab, h);
      FieldHitsMembers(index, field, FieldText(r, field), vocab, h);
      assert fields == init + [field];
    }
  }

  /** A hit is in the scan exactly when its term is listed and occurs in that answer. */
  lemma {:induction false} ScanHitsMembers(rs: seq<Response>, vocab: seq<string>, h: Hit)
    ensures h in ScanHits(rs, vocab) <==>
            h.index < |rs| && h.term in vocab && Contains(FieldText(rs[h.index], h.field), h.term)
  {
    if rs != [] {
      var init := rs[..|rs| - 1];
      ScanHitsMembers(init, vocab, h);
      ResponseHitsMembers(|rs| - 1, rs[|rs| - 1], Questions, vocab, h);
      QuestionsCoverFields(h.field);
      if h.index < |init| {
        assert init[h.index] == rs[h.index];
      }
    }
  }

  ghost predicate IndexOrdered(hits: seq<Hit>)
  {
    forall a, b :: 0 <= a < b < |hits| ==> hits[a].index <= hits[b].index
  }

  /** The scan meets the responses in index order. */
  lemma {:induction false} ScanHitsOrdered(rs: seq<Response>, vocab: seq<string>)
    ensures IndexOrdered(ScanHits(rs, vocab))
  {
    if rs != [] {
      var init := rs[..|rs| - 1];
      var last := |rs| - 1;
      ScanHitsOrdered(init, vocab);
      var early := ScanHits(init, vocab);
      var late := ResponseHits(last, rs[last], Questions, vocab);
      var all := early + late;
      forall a, b | 0 <= a < b < |all| ensures all[a].index <= all[b].index {
        if b >= |early| {
          ResponseHitsMembers(last, rs[last], Questions, vocab, all[b]);
          assert all[b] == late[b - |early|];
          assert all[b] in late;
          if a < |early| {
            assert all[a] in early;
            ScanHitsMembers(init, vocab, all[a]);
          } else {
            assert all[a] == late[a - |early|];
            assert all[a] in late;
            ResponseHitsMembers(last, rs[last], Questions, vocab, all[a]);
          }
        }
      }
    }
  }

  // ---------------------------------------------------------------------------
  // What a sequence of hits says about one term

  function HasTerm(hits: seq<Hit>, t: string): bool
  {
    hits != [] && (HasTerm(hits[..|hits| - 1], t) || hits[|hits| - 1].term == t)
  }

  /** The number of hits on `t`. */
  function CountTerm(hits: seq<Hit>, t: string): nat
  {
    if hits == [] then 0
    else CountTerm(hits[..|hits| - 1], t) + (if hits[|hits| - 1].term == t then 1 else 0)
  }

  /** The questions under which `t` was hit. */
  function FieldsOf(hits: seq<Hit>, t: string): set<Field>
  {
    if hits == [] then {}
    else FieldsOf(hits[..|hits| - 1], t) + (if hits[|hits| - 1].term == t then {hits[|hits| - 1].field} else {})
  }

  /** The responses in which `t` was hit. */
  function IndicesOf(hits: seq<Hit>, t: string): set<nat>
  {
    if hits == [] then {}
    else IndicesOf(hits[..|hits| - 1], t) + (if hits[|hits| - 1].term == t then {hits[|hits| - 1].index} else {})
  }

  /** The position of the first hit on `t`, or `|hits|` when there is none. */
  function FirstPos(hits: seq<Hit>, t: string): (p: nat)
    ensures p <= |hits|
    ensures p < |hits| <==> HasTerm(hits, t)
    ensures p < |hits| ==> hits[p].term == t
    ensures forall j :: 0 <= j < p && j < |hits| ==> hits[j].term != t
  {
    if hits == [] then 0
    else
      var init := hits[..|hits| - 1];
      var p := FirstPos(init, t);
      assert forall j :: 0 <= j < |init| ==> hits[j] == init[j];
      if p < |init| then p
      else if hits[|hits| - 1].term == t then |hits| - 1
      else |hits|
  }

  lemma {:induction false} HasTermIff(hits: seq<Hit>, t: string)
    ensures HasTerm(hits, t) <==> exists j :: 0 <= j < |hits| && hits[j].term == t
  {
    if hits != [] {
      var init := hits[..|hits| - 1];
      HasTermIff(init, t);
      assert forall j :: 0 <= j < |init| ==> hits[j] == init[j];
    }
  }

  lemma {:induction false} FieldsOfIff(hits: seq<Hit>, t: string, f: Field)
    ensures f in FieldsOf(hits, t) <==> exists j :: 0 <= j < |hits| && hits[j].term == t && hits[j].field == f
  {
    if hits != [] {
      var init := hits[..|hits| - 1];
      FieldsOfIff(init, t, f);
      assert forall j :: 0 <= j < |init| ==> hits[j] == init[j];
    }
  }

  lemma {:induction false} IndicesOfIff(hits: seq<Hit>, t: string, i: nat)
    ensures i in IndicesOf(hits, t) <==> exists j :: 0 <= j < |hits| && hits[j].term == t && hits[j].index == i
  {
    if hits != [] {
      var init := hits[..|hits| - 1];
      IndicesOfIff(init, t, i);
      assert forall j :: 0 <= j < |init| ==> hits[j] == init[j];
    }
  }

  lemma {:induction false} CountTermAppend(a: seq<Hit>, b: seq<Hit>, t: string)
    ensures CountTerm(a + b, t) == CountTerm(a, t) + CountTerm(b, t)
  {
    if b != [] {
      CountTermAppend(a, b[..|b| - 1], t);
      assert (a + b)[..|a + b| - 1] == a + b[..|b| - 1];
      assert (a + b)[|a + b| - 1] == b[|b| - 1];
    } else {
      assert a + b == a;
    }
  }

  lemma {:induction false} NoTermNoCount(hits: seq<Hit>, t: string)
    requires !HasTerm(hits, t)
    ensures CountTerm(hits, t) == 0 && FieldsOf(hits, t) == {} && IndicesOf(hits, t) == {}
  {
    if hits != [] {
      NoTermNoCount(hits[..|hits| - 1], t);
    }
  }

  // ---------------------------------------------------------------------------
  // The map the loops build

  /** What the map keeps per term: `{ count, responses: Set<number>, category: Set<string> }`. */
  datatype Tally = Tally(count: nat, responses: seq<nat>, fields: set<Field>)

  /** An insertion-ordered map: the entries, and the keys in the order they were first set. */
  datatype Ledger = Ledger(tallies: map<string, Tally>, order: seq<string>)

  /** `Set.prototype.add` on a set kept in insertion order. */
  function AddIndex(s: seq<nat>, i: nat): seq<nat>
  {
    if i in s then s else s + [i]
  }

  /** The update the innermost loop makes for one hit. */
  function Record(l: Ledger, h: Hit): (r: Ledger)
    ensures h.term in r.tallies
    ensures r.tallies[h.term].count == (if h.term in l.tallies then l.tallies[h.term].count else 0) + 1
    ensures h.index in r.tallies[h.term].responses && h.field in r.tallies[h.term].fields
  {
    var existing := if h.term in l.tallies then l.tallies[h.term] else Tally(0, [], {});
    var order := if h.term in l.tallies then l.order else l.order + [h.term];
    Ledger(l.tallies[h.term := Tally(existing.count + 1, AddIndex(existing.responses, h.index), existing.fields + {h.field})],
           order)
  }

  /** The map after recording `hits` in order, starting from the empty map. */
  function Accumulate(hits: seq<Hit>): Ledger
  {
    if hits == [] then Ledger(map[], [])
    else Record(Accumulate(hits[..|hits| - 1]), hits[|hits| - 1])
  }

  lemma AccumulateSnoc(hits: seq<Hit>, h: Hit)
    ensures Accumulate(hits + [h]) == Record(Accumulate(hits), h)
  {
    assert (hits + [h])[..|hits|] == hits;
  }

  /** An entry's count is the number of hits on its term, and its questions are theirs. */
  lemma {:induction false} AccumulateCount(hits: seq<Hit>, t: string)
    requires t in Accumulate(hits).tallies
    ensures Accumulate(hits).tallies[t].count == CountTerm(hits, t) >= 1
    ensures Accumulate(hits).tallies[t].fields == FieldsOf(hits, t) != {}
  {
    var init := hits[..|hits| - 1];
    if t in Accumulate(init).tallies {
      AccumulateCount(init, t);
    } else {
      AccumulateKeys(init, t);
      NoTermNoCount(init, t);
    }
  }

  /** An entry's responses are the indices of the hits on its term. */
  lemma {:induction false} AccumulateIndices(hits: seq<Hit>, t: string, i: nat)
    requires t in Accumulate(hits).tallies
    ensures i in Accumulate(hits).tallies[t].responses <==> i in IndicesOf(hits, t)
  {
    var init := hits[..|hits| - 1];
    if t in Accumulate(init).tallies {
      AccumulateIndices(init, t, i);
    } else {
      AccumulateKeys(init, t);
      NoTermNoCount(init, t);
    }
  }

  /** When the hits come in response order, an entry lists its responses in increasing order. */
  lemma {:induction false} AccumulateIncreasing(hits: seq<Hit>, t: string)
    requires t in Accumulate(hits).tallies && IndexOrdered(hits)
    ensures StrictlyIncreasing(Accumulate(hits).tallies[t].responses)
  {
    var init := hits[..|hits| - 1];
    var h := hits[|hits| - 1];
    assert IndexOrdered(init);
    if t in Accumulate(init).tallies {
      AccumulateIncreasing(init, t);
      if h.term == t {
        var y := Accumulate(init).tallies[t];
        forall i | i in y.responses ensures i <= h.index {
          AccumulateIndices(init, t, i);
          IndicesOfIff(init, t, i);
          var j :| 0 <= j < |init| && init[j].term == t && init[j].index == i;
          assert hits[j] == init[j];
        }
        AddIndexIncreasing(y.responses, h.index);
      }
    }
  }

  /** Adding an index no smaller than any listed keeps the list increasing. */
  lemma AddIndexIncreasing(s: seq<nat>, i: nat)
    requires StrictlyIncreasing(s) && forall x <- s :: x <= i
    ensures StrictlyIncreasing(AddIndex(s, i))
  {
    if i !in s {
      var r := s + [i];
      forall a, b | 0 <= a < b < |r| ensures r[a] < r[b] {
        assert r[a] in s;
      }
    }
  }

  /**
   The entry of a term after the fold: present exactly when the term was hit;
   then its count is the number of hits on it, its questions and responses
   are those of those hits, and the responses come in increasing order when
   the hits come in response order.
   */
  lemma AccumulateTally(hits: seq<Hit>, t: string)
    ensures t in Accumulate(hits).tallies <==> HasTerm(hits, t)
    ensures t in Accumulate(hits).tallies ==>
      var y := Accumulate(hits).tallies[t];
      && y.count == CountTerm(hits, t)
      && y.fields == FieldsOf(hits, t)
      && y.count >= 1 && y.fields != {}
      && (forall i :: i in y.responses <==> i in IndicesOf(hits, t))
      && (IndexOrdered(hits) ==> StrictlyIncreasing(y.responses))
  {
    AccumulateKeys(hits, t);
    if t in Accumulate(hits).tallies {
      AccumulateCount(hits, t);
      forall i: nat {
        AccumulateIndices(hits, t, i);
      }
      if IndexOrdered(hits) {
        AccumulateIncreasing(hits, t);
      }
    }
  }

  /** A term has an entry exactly when it was hit. */
  lemma {:induction false} AccumulateKeys(hits: seq<Hit>, t: string)
    ensures t in Accumulate(hits).tallies <==> HasTerm(hits, t)
  {
    if hits != [] {
      AccumulateKeys(hits[..|hits| - 1], t);
    }
  }

  /** The key order lists exactly the keys of the map. */
  lemma {:induction false} AccumulateOrderKeys(hits: seq<Hit>)
    ensures forall t :: t in Accumulate(hits).order <==> t in Accumulate(hits).tallies
  {
    if hits != [] {
      AccumulateOrderKeys(hits[..|hits| - 1]);
    }
  }

  /**
   The key order of the fold: exactly the keys of the map, listed by the
   position of each term's first hit.
   */
  lemma {:induction false} AccumulateOrder(hits: seq<Hit>)
    ensures forall t :: t in Accumulate(hits).order <==> t in Accumulate(hits).tallies
    ensures var order := Accumulate(hits).order;
      forall a, b :: 0 <= a < b < |order| ==> FirstPos(hits, order[a]) < FirstPos(hits, order[b])
  {
    AccumulateOrderKeys(hits);
    if hits != [] {
      var init := hits[..|hits| - 1];
      AccumulateOrder(init);
      AccumulateOrderKeys(init);
      var before := Accumulate(init).order;
      var order := Accumulate(hits).order;
      assert |before| <= |order| && forall a :: 0 <= a < |before| ==> order[a] == before[a];
      forall a | 0 <= a < |before| ensures FirstPos(hits, before[a]) == FirstPos(init, before[a]) < |init| {
        AccumulateKeys(init, before[a]);
      }
      if |before| < |order| {
        var t := order[|before|];
        AccumulateKeys(init, t);
        assert FirstPos(hits, t) == |init|;
      }
    }
  }

  lemma OrderByFirstPos(hits: seq<Hit>, a: nat, b: nat)
    requires a < b < |Accumulate(hits).order|
    ensures FirstPos(hits, Accumulate(hits).order[a]) < FirstPos(hits, Accumulate(hits).order[b])
  {
    AccumulateOrder(hits);
  }

  // ---------------------------------------------------------------------------
  // From hits back to the responses

  /** How many of the questions in `fields` get an answer from `r` that contains `t`. */
  function MatchingFields(r: Response, fields: seq<Field>, t: string): nat
  {
    if fields == [] then 0
    else
      MatchingFields(r, fields[..|fields| - 1], t)
        + (if Contains(FieldText(r, fields[|fields| - 1]), t) then 1 else 0)
  }

  /** The number of (response, question) pairs whose answer contains `t`. */
  function MatchPairs(rs: seq<Response>, t: string): nat
  {
    if rs == [] then 0 else MatchPairs(rs[..|rs| - 1], t) + MatchingFields(rs[|rs| - 1], Questions, t)
  }

  /** A response answers three questions, so it adds at most three pairs, and at least one when it mentions `t`. */
  lemma MatchingFieldsRange(r: Response, t: string)
    ensures MatchingFields(r, Questions, t) <= 3
    ensures MatchingFields(r, Questions, t) >= 1 <==> InResponse(r, t)
  {
    var b1 := Contains(FieldText(r, Q1), t);
    var b2 := Contains(FieldText(r, Q2), t);
    var b3 := Contains(FieldText(r, Q3), t);
    assert Questions[..2] == [Q1, Q2] && [Q1, Q2][..1] == [Q1] && [Q1][..0] == [];
    assert MatchingFields(r, [Q1], t) == (if b1 then 1 else 0);
    assert MatchingFields(r, [Q1, Q2], t) == (if b1 then 1 else 0) + (if b2 then 1 else 0);
    assert MatchingFields(r, Questions, t) == (if b1 then 1 else 0) + (if b2 then 1 else 0) + (if b3 then 1 else 0);
    if InResponse(r, t) {
      var f: Field :| Contains(FieldText(r, f), t);
      assert b1 || b2 || b3;
    }
    if b1 || b2 || b3 {
      var f: Field := if b1 then Q1 else if b2 then Q2 else Q3;
      assert Contains(FieldText(r, f), t);
    }
  }

  /** At most three pairs per response. */
  lemma {:induction false} MatchPairsAtMost(rs: seq<Response>, t: string)
    ensures MatchPairs(rs, t) <= 3 * |rs|
  {
    if rs != [] {
      MatchPairsAtMost(rs[..|rs| - 1], t);
      MatchingFieldsRange(rs[|rs| - 1], t);
    }
  }

  /** A response whose answer contains `t` gives at least one pair. */
  lemma {:induction false} MatchPairsAtLeast(rs: seq<Response>, t: string, i: nat)
    requires i < |rs| && InResponse(rs[i], t)
    ensures MatchPairs(rs, t) >= 1
  {
    var init := rs[..|rs| - 1];
    if i < |init| {
      assert init[i] == rs[i];
      MatchPairsAtLeast(init, t, i);
    } else {
      MatchingFieldsRange(rs[i], t);
    }
  }

  /** Some answer of `r` contains `t`. */
  ghost predicate InResponse(r: Response, t: string)
  {
    exists f: Field :: Contains(FieldText(r, f), t)
  }

  /** Some response's answer to question `f` contains `t`. */
  ghost predicate InField(rs: seq<Response>, f: Field, t: string)
  {
    exists i :: 0 <= i < |rs| && Contains(FieldText(rs[i], f), t)
  }

  /** Some answer of some response contains `t`. */
  ghost predicate Occurs(rs: seq<Response>, t: string)
  {
    exists i :: 0 <= i < |rs| && InResponse(rs[i], t)
  }

  lemma {:induction false} CountFieldHits(index: nat, field: Field, text: string, vocab: seq<string>, t: string)
    ensures CountTerm(FieldHits(index, field, text, vocab), t) == if Contains(text, t) then multiset(vocab)[t] else 0
  {
    if vocab != [] {
      var init := vocab[..|vocab| - 1];
      var term := vocab[|vocab| - 1];
      var last := if Contains(text, term) then [Hit(index, field, term)] else [];
      CountFieldHits(index, field, text, init, t);
      CountTermAppend(FieldHits(index, field, text, init), last, t);
      assert CountTerm(last, t) == if Contains(text, term) && term == t then 1 else 0;
      MultisetLast(vocab, t);
    }
  }

  lemma {:induction false} CountResponseHits(index: nat, r: Response, fields: seq<Field>, vocab: seq<string>, t: string)
    ensures CountTerm(ResponseHits(index, r, fields, vocab), t) == MatchingFields(r, fields, t) * multiset(vocab)[t]
  {
    if fields != [] {
      var init, field := fields[..|fields| - 1], fields[|fields| - 1];
      var text := FieldText(r, field);
      CountResponseHits(index, r, init, vocab, t);
      CountFieldHits(index, field, text, vocab, t);
      CountSplit(ResponseHits(index, r, fields, vocab), ResponseHits(index, r, init, vocab), FieldHits(index, field, text, vocab), t,
                 MatchingFields(r, fields, t), MatchingFields(r, init, t), if Contains(text, t) then 1 else 0, multiset(vocab)[t]);
    }
  }

  /** Counts add up over a split list: `a` times `m` before the split and `b` times `m` after it. */
  lemma CountSplit(hits: seq<Hit>, before: seq<Hit>, after: seq<Hit>, t: string, n: nat, a: nat, b: nat, m: nat)
    requires hits == before + after && n == a + b
    requires CountTerm(before, t) == a * m && CountTerm(after, t) == b * m
    ensures CountTerm(hits, t) == n * m
  {
    CountTermAppend(before, after, t);
    Distribute(a, b, m);
  }

  lemma Distribute(a: nat, b: nat, m: nat)
    ensures (a + b) * m == a * m + b * m
  {
  }

  /** A term is hit once per listing per (response, question) pair containing it. */
  lemma {:induction false} CountScanHits(rs: seq<Response>, vocab: seq<string>, t: string)
    ensures CountTerm(ScanHits(rs, vocab), t) == MatchPairs(rs, t) * multiset(vocab)[t]
  {
    if rs != [] {
      var init, r := rs[..|rs| - 1], rs[|rs| - 1];
      CountScanHits(init, vocab, t);
      CountResponseHits(|rs| - 1, r, Questions, vocab, t);
      CountSplit(ScanHits(rs, vocab), ScanHits(init, vocab), ResponseHits(|rs| - 1, r, Questions, vocab), t,
                 MatchPairs(rs, t), MatchPairs(init, t), MatchingFields(r, Questions, t), multiset(vocab)[t]);
    }
  }

  lemma ScanHasTerm(rs: seq<Response>, vocab: seq<string>, t: string)
    ensures HasTerm(ScanHits(rs, vocab), t) <==> t in vocab && Occurs(rs, t)
  {
    var hits := ScanHits(rs, vocab);
    HasTermIff(hits, t);
    if HasTerm(hits, t) {
      var j :| 0 <= j < |hits| && hits[j].term == t;
      ScanHitsMembers(rs, vocab, hits[j]);
      assert InResponse(rs[hits[j].index], t);
    }
    if t in vocab && Occurs(rs, t) {
      var i :| 0 <= i < |rs| && InResponse(rs[i], t);
      var f: Field :| Contains(FieldText(rs[i], f), t);
      ScanHitsMembers(rs, vocab, Hit(i, f, t));
      var j :| 0 <= j < |hits| && hits[j] == Hit(i, f, t);
    }
  }

  lemma ScanFields(rs: seq<Response>, vocab: seq<string>, t: string, f: Field)
    ensures f in FieldsOf(ScanHits(rs, vocab), t) <==> t in vocab && InField(rs, f, t)
  {
    var hits := ScanHits(rs, vocab);
    FieldsOfIff(hits, t, f);
    if f in FieldsOf(hits, t) {
      var j :| 0 <= j < |hits| && hits[j].term == t && hits[j].field == f;
      ScanHitsMembers(rs, vocab, hits[j]);
    }
    if t in vocab && InField(rs, f, t) {
      var i :| 0 <= i < |rs| && Contains(FieldText(rs[i], f), t);
      ScanHitsMembers(rs, vocab, Hit(i, f, t));
      var j :| 0 <= j < |hits| && hits[j] == Hit(i, f, t);
    }
  }

  lemma ScanIndices(rs: seq<Response>, vocab: seq<string>, t: string, i: nat)
    ensures i in IndicesOf(ScanHits(rs, vocab), t) <==> t in vocab && i < |rs| && InResponse(rs[i], t)
  {
    var hits := ScanHits(rs, vocab);
    IndicesOfIff(hits, t, i);
    if i in IndicesOf(hits, t) {
      var j :| 0 <= j < |hits| && hits[j].term == t && hits[j].index == i;
      ScanHitsMembers(rs, vocab, hits[j]);
    }
    if t in vocab && i < |rs| && InResponse(rs[i], t) {
      var f: Field :| Contains(FieldText(rs[i], f), t);
      ScanHitsMembers(rs, vocab, Hit(i, f, t));
      var j :| 0 <= j < |hits| && hits[j] == Hit(i, f, t);
    }
  }

  // ---------------------------------------------------------------------------
  // From the map to the keyword list

  lemma TwoElements(fields: set<Field>, f: Field, g: Field)
    requires f in fields && g in fields && f != g
    ensures |fields| >= 2
  {
    assert fields == (fields - {f}) + {f};
    assert g in fields - {f};
  }

  lemma SingleField(fields: set<Field>)
    requires fields != {} && |fields| <= 1
    ensures Q1 in fields || Q2 in fields || Q3 in fields
    ensures forall f, g :: f in fields && g in fields ==> f == g
  {
    var e :| e in fields;
    forall f, g | f in fields && g in fields ensures f == g {
      if f != g {
        TwoElements(fields, f, g);
        assert false;
      }
    }
  }

  lemma TwoFields(fields: set<Field>)
    ensures |fields| > 1 <==> exists f, g :: f in fields && g in fields && f != g
  {
    if |fields| > 1 {
      var f :| f in fields;
      assert |fields - {f}| > 0;
      var g :| g in fields - {f};
    }
    if exists f, g :: f in fields && g in fields && f != g {
      var f, g :| f in fields && g in fields && f != g;
      TwoElements(fields, f, g);
    }
  }

  /**
   The category of a term: `'all'` when it was seen under more than one
   question, otherwise the one question it was seen under.
   */
  function Collapse(fields: set<Field>): (c: Category)
    requires fields != {}
    ensures c == All <==> |fields| > 1
    ensures c != All ==> forall f: Field :: f in fields <==> f == c
  {
    if |fields| > 1 then All
    else
      SingleField(fields);
      if Q1 in fields then Q1 else if Q2 in fields then Q2 else Q3
  }

  function Summary(t: string, y: Tally): Keyword
    requires y.fields != {}
  {
    Keyword(t, y.count, Collapse(y.fields), y.responses)
  }

  /** `Array.from(keywordMap.entries()).map(...)`: one keyword per key, in key order. */
  function Entries(order: seq<string>, tallies: map<string, Tally>): (ks: seq<Keyword>)
    requires forall t <- order :: t in tallies && tallies[t].fields != {}
    ensures |ks| == |order|
    ensures forall j :: 0 <= j < |order| ==> ks[j] == Summary(order[j], tallies[order[j]])
  {
    if order == [] then []
    else [Summary(order[0], tallies[order[0]])] + Entries(order[1..], tallies)
  }

  /** `filter(keyword => keyword.frequency >= 1)`. */
  function AtLeastOnce(ks: seq<Keyword>): seq<Keyword>
  {
    if ks == [] then []
    else (if ks[0].frequency >= 1 then [ks[0]] else []) + AtLeastOnce(ks[1..])
  }

  /** The frequency filter keeps everything when every count is positive. */
  lemma {:induction false} AtLeastOnceKeepsAll(ks: seq<Keyword>)
    requires forall k <- ks :: k.frequency >= 1
    ensures AtLeastOnce(ks) == ks
  {
    if ks != [] {
      AtLeastOnceKeepsAll(ks[1..]);
    }
  }

  lemma AccumulateSettled(hits: seq<Hit>)
    ensures forall t <- Accumulate(hits).order ::
      t in Accumulate(hits).tallies && Accumulate(hits).tallies[t].count >= 1
      && Accumulate(hits).tallies[t].fields != {}
  {
    AccumulateOrder(hits);
    forall t <- Accumulate(hits).order
      ensures t in Accumulate(hits).tallies && Accumulate(hits).tallies[t].count >= 1
           && Accumulate(hits).tallies[t].fields != {}
    {
      AccumulateTally(hits, t);
    }
  }

  /** The keyword list computed from the scan of `rs` for the terms of `vocab`. */
  function Extracted(rs: seq<Response>, vocab: seq<string>): seq<Keyword>
  {
    var l := Accumulate(ScanHits(rs, vocab));
    AccumulateSettled(ScanHits(rs, vocab));
    SortByFrequency(AtLeastOnce(Entries(l.order, l.tallies)))
  }

  // ---------------------------------------------------------------------------
  // What the keyword list means

  /**
   `k` describes its term truthfully: its frequency is the number of
   (response, question) pairs containing the term, times the number of times
   the vocabulary lists it; its category is `'all'` exactly when two questions
   have answers containing the term, and otherwise the one question that does;
   its responses are, in increasing order, exactly the responses with an answer
   containing the term.
   */
  ghost predicate Describes(rs: seq<Response>, vocab: seq<string>, k: Keyword)
  {
    && k.frequency == MatchPairs(rs, k.text) * multiset(vocab)[k.text]
    && (k.category == All <==> exists f: Field, g: Field :: f != g && InField(rs, f, k.text) && InField(rs, g, k.text))
    && (k.category != All ==> forall f: Field :: InField(rs, f, k.text) <==> f == k.category)
    && StrictlyIncreasing(k.responses)
    && (forall i :: i in k.responses <==> 0 <= i < |rs| && InResponse(rs[i], k.text))
  }

  /** `ks` holds one keyword per vocabulary term that occurs somewhere, and no other. */
  ghost predicate ListsExactly(rs: seq<Response>, vocab: seq<string>, ks: seq<Keyword>)
  {
    && (forall t :: (exists j :: 0 <= j < |ks| && ks[j].text == t) <==> t in vocab && Occurs(rs, t))
    && (forall a, b :: 0 <= a < b < |ks| ==> ks[a].text != ks[b].text)
  }

  /** The position in the scan at which `t` is first matched. */
  ghost function FirstScan(rs: seq<Response>, vocab: seq<string>, t: string): nat
  {
    FirstPos(ScanHits(rs, vocab), t)
  }

  /**
   `ks` is ordered by descending frequency, and keywords of equal frequency by
   the point of the scan at which their term was first matched.
   */
  ghost predicate RankedByScan(rs: seq<Response>, vocab: seq<string>, ks: seq<Keyword>)
  {
    forall a, b :: 0 <= a < b < |ks| ==>
      || ks[a].frequency > ks[b].frequency
      || (ks[a].frequency == ks[b].frequency && FirstScan(rs, vocab, ks[a].text) < FirstScan(rs, vocab, ks[b].text))
  }

  /** Every entry built from the map describes its term truthfully. */
  lemma EntryDescribes(rs: seq<Response>, vocab: seq<string>, t: string)
    requires t in Accumulate(ScanHits(rs, vocab)).tallies
    ensures Accumulate(ScanHits(rs, vocab)).tallies[t].fields != {}
    ensures Describes(rs, vocab, Summary(t, Accumulate(ScanHits(rs, vocab)).tallies[t]))
  {
    var hits := ScanHits(rs, vocab);
    var y := Accumulate(hits).tallies[t];
    AccumulateTally(hits, t);
    ScanHasTerm(rs, vocab, t);
    CountScanHits(rs, vocab, t);
    ScanHitsOrdered(rs, vocab);
    forall f: Field ensures f in y.fields <==> InField(rs, f, t) {
      ScanFields(rs, vocab, t, f);
    }
    forall i: nat ensures i in y.responses <==> i < |rs| && InResponse(rs[i], t) {
      ScanIndices(rs, vocab, t, i);
    }
    TwoFields(y.fields);
    var k := Summary(t, y);
    assert k.category == All <==> exists f: Field, g: Field :: f != g && InField(rs, f, t) && InField(rs, g, t);
  }

  /** The map's entries in key order, the list before it is sorted. */
  function ExtractedEntries(rs: seq<Response>, vocab: seq<string>): seq<Keyword>
  {
    var l := Accumulate(ScanHits(rs, vocab));
    AccumulateSettled(ScanHits(rs, vocab));
    Entries(l.order, l.tallies)
  }

  /** The sorted list holds the entries and nothing else. */
  lemma ExtractedMembers(rs: seq<Response>, vocab: seq<string>)
    ensures var entries := ExtractedEntries(rs, vocab);
      && Extracted(rs, vocab) == SortByFrequency(entries)
      && (forall k <- Extracted(rs, vocab) :: exists j :: 0 <= j < |entries| && entries[j] == k)
      && (forall j :: 0 <= j < |entries| ==> entries[j] in Extracted(rs, vocab))
  {
    var hits := ScanHits(rs, vocab);
    AccumulateSettled(hits);
    var entries := ExtractedEntries(rs, vocab);
    AtLeastOnceKeepsAll(entries);
    var out := SortByFrequency(entries);
    SortPermutes(entries);
    forall k <- out ensures exists j :: 0 <= j < |entries| && entries[j] == k {
      assert k in multiset(out);
      assert k in multiset(entries);
    }
    forall j | 0 <= j < |entries| ensures entries[j] in out {
      assert entries[j] in multiset(entries);
      assert entries[j] in multiset(out);
    }
  }

  lemma ExtractedDescribes(rs: seq<Response>, vocab: seq<string>)
    ensures forall k <- Extracted(rs, vocab) :: Describes(rs, vocab, k)
  {
    ExtractedMembers(rs, vocab);
    var entries := ExtractedEntries(rs, vocab);
    forall k <- Extracted(rs, vocab) ensures Describes(rs, vocab, k) {
      var j :| 0 <= j < |entries| && entries[j] == k;
      EntryAtDescribes(rs, vocab, j);
    }
  }

  /** The `j`-th entry built from the map describes its term truthfully. */
  lemma EntryAtDescribes(rs: seq<Response>, vocab: seq<string>, j: nat)
    requires j < |ExtractedEntries(rs, vocab)|
    ensures Describes(rs, vocab, ExtractedEntries(rs, vocab)[j])
  {
    var l := Accumulate(ScanHits(rs, vocab));
    AccumulateOrder(ScanHits(rs, vocab));
    EntryDescribes(rs, vocab, l.order[j]);
  }

  /** The position of each listed term's first hit in the scan. */
  ghost function ScanRank(rs: seq<Response>, vocab: seq<string>): map<string, nat>
  {
    var hits := ScanHits(rs, vocab);
    map t | t in Accumulate(hits).order :: FirstPos(hits, t)
  }

  /** Before sorting, the entries come by position of first hit. */
  lemma EntriesArrive(rs: seq<Response>, vocab: seq<string>)
    ensures ArrivesBy(ExtractedEntries(rs, vocab), ScanRank(rs, vocab))
  {
    var hits := ScanHits(rs, vocab);
    var l := Accumulate(hits);
    AccumulateOrder(hits);
    AccumulateSettled(hits);
    var rank := ScanRank(rs, vocab);
    forall a, b | 0 <= a < b < |l.order| ensures rank[l.order[a]] < rank[l.order[b]] {
      OrderByFirstPos(hits, a, b);
    }
    EntriesArriveBy(l.order, l.tallies, rank);
  }

  /** Entries built in key order arrive by any rank that orders the keys. */
  lemma EntriesArriveBy(order: seq<string>, tallies: map<string, Tally>, rank: map<string, nat>)
    requires forall t <- order :: t in tallies && tallies[t].fields != {}
    requires forall t <- order :: t in rank
    requires forall a, b :: 0 <= a < b < |order| ==> rank[order[a]] < rank[order[b]]
    ensures ArrivesBy(Entries(order, tallies), rank)
  {
    var entries := Entries(order, tallies);
    forall k <- entries ensures k.text in rank {
      var j :| 0 <= j < |entries| && entries[j] == k;
      assert k.text == order[j] && order[j] in order;
    }
  }

  /** The entries have pairwise different terms. */
  lemma EntriesDistinct(rs: seq<Response>, vocab: seq<string>)
    ensures forall i, j :: 0 <= i < j < |ExtractedEntries(rs, vocab)| ==>
      ExtractedEntries(rs, vocab)[i].text != ExtractedEntries(rs, vocab)[j].text
  {
    EntriesArrive(rs, vocab);
  }

  lemma ExtractedRanked(rs: seq<Response>, vocab: seq<string>)
    ensures RankedByScan(rs, vocab, Extracted(rs, vocab))
  {
    var entries := ExtractedEntries(rs, vocab);
    var rank := ScanRank(rs, vocab);
    var out := Extracted(rs, vocab);
    ExtractedMembers(rs, vocab);
    EntriesArrive(rs, vocab);
    SortRanked(entries, rank);
    forall a, b | 0 <= a < b < |out|
      ensures || out[a].frequency > out[b].frequency
              || (out[a].frequency == out[b].frequency
                  && FirstScan(rs, vocab, out[a].text) < FirstScan(rs, vocab, out[b].text))
    {
      assert Before(out[a], out[b], rank);
    }
  }

  lemma ExtractedDistinct(rs: seq<Response>, vocab: seq<string>)
    ensures forall a, b :: 0 <= a < b < |Extracted(rs, vocab)| ==>
      Extracted(rs, vocab)[a].text != Extracted(rs, vocab)[b].text
  {
    var entries := ExtractedEntries(rs, vocab);
    var rank := ScanRank(rs, vocab);
    var out := Extracted(rs, vocab);
    ExtractedMembers(rs, vocab);
    EntriesArrive(rs, vocab);
    SortRanked(entries, rank);
    var l := Accumulate(ScanHits(rs, vocab));
    AccumulateSettled(ScanHits(rs, vocab));
    forall k <- out ensures k.text in l.tallies && l.tallies[k.text].fields != {} && k == Summary(k.text, l.tallies[k.text]) {
      var j :| 0 <= j < |entries| && entries[j] == k;
      assert k.text == l.order[j] && l.order[j] in l.order;
    }
    forall a, b | 0 <= a < b < |out| ensures out[a].text != out[b].text {
      assert Before(out[a], out[b], rank);
      assert out[a] in out && out[b] in out;
    }
  }

  /** Each term that occurs has an entry, and each entry's term occurs. */
  lemma EntriesList(rs: seq<Response>, vocab: seq<string>, t: string)
    ensures (exists i :: 0 <= i < |ExtractedEntries(rs, vocab)| && ExtractedEntries(rs, vocab)[i].text == t)
            <==> t in vocab && Occurs(rs, t)
  {
    var hits := ScanHits(rs, vocab);
    var l := Accumulate(hits);
    AccumulateOrder(hits);
    AccumulateSettled(hits);
    ScanHasTerm(rs, vocab, t);
    AccumulateTally(hits, t);
    var entries := ExtractedEntries(rs, vocab);
    if t in l.order {
      var i :| 0 <= i < |l.order| && l.order[i] == t;
      assert entries[i].text == t;
    }
  }

  lemma ExtractedLists(rs: seq<Response>, vocab: seq<string>)
    ensures forall t :: (exists j :: 0 <= j < |Extracted(rs, vocab)| && Extracted(rs, vocab)[j].text == t)
                        <==> t in vocab && Occurs(rs, t)
  {
    ExtractedMembers(rs, vocab);
    var entries := ExtractedEntries(rs, vocab);
    var out := Extracted(rs, vocab);
    forall t ensures (exists j :: 0 <= j < |out| && out[j].text == t) <==> t in vocab && Occurs(rs, t) {
      EntriesList(rs, vocab, t);
      if exists j :: 0 <= j < |out| && out[j].text == t {
        var j :| 0 <= j < |out| && out[j].text == t;
        assert out[j] in out;
        var i :| 0 <= i < |entries| && entries[i] == out[j];
      }
      if exists i :: 0 <= i < |entries| && entries[i].text == t {
        var i :| 0 <= i < |entries| && entries[i].text == t;
        assert entries[i] in out;
        var j :| 0 <= j < |out| && out[j] == entries[i];
      }
    }
  }

  /** The keyword list lists exactly the occurring terms, describes each truthfully, and is ranked. */
  lemma ExtractedSpec(rs: seq<Response>, vocab: seq<string>)
    ensures ListsExactly(rs, vocab, Extracted(rs, vocab))
    ensures forall k <- Extracted(rs, vocab) :: Describes(rs, vocab, k)
    ensures RankedByScan(rs, vocab, Extracted(rs, vocab))
  {
    ExtractedLists(rs, vocab);
    ExtractedDistinct(rs, vocab);
    ExtractedRanked(rs, vocab);
    ExtractedDescribes(rs, vocab);
  }

  /**
   A listed keyword's term is in the vocabulary, and its frequency is the
   number of matching (response, question) pairs, at least one and at most
   three per response, times the number of times the vocabulary lists it.
   */
  lemma ExtractedFrequency(rs: seq<Response>, vocab: seq<string>, k: Keyword)
    requires k in Extracted(rs, vocab)
    ensures k.text in vocab && k.frequency == MatchPairs(rs, k.text) * multiset(vocab)[k.text]
    ensures 1 <= MatchPairs(rs, k.text) <= 3 * |rs|
  {
    ExtractedSpec(rs, vocab);
    var t := k.text;
    assert t in vocab && Occurs(rs, t) && k.frequency == MatchPairs(rs, t) * multiset(vocab)[t];
    var i :| 0 <= i < |rs| && InResponse(rs[i], t);
    MatchPairsAtLeast(rs, t, i);
    MatchPairsAtMost(rs, t);
  }

  /**
   Every listed keyword occurs at least once, and at most three times per
   response for each time the vocabulary lists it.
   */
  lemma ExtractedFrequencyRange(rs: seq<Response>, vocab: seq<string>, k: Keyword)
    requires k in Extracted(rs, vocab)
    ensures 1 <= k.frequency <= 3 * |rs| * multiset(vocab)[k.text]
  {
    ExtractedFrequency(rs, vocab, k);
    ScaleBounds(MatchPairs(rs, k.text), multiset(vocab)[k.text], 3 * |rs|);
  }

  /**
   Over a vocabulary without repeats, a keyword's frequency is the number of
   (response, question) pairs whose answer includes its term: at least one,
   and at most three per response.
   */
  lemma ExtractedFrequencyDistinct(rs: seq<Response>, vocab: seq<string>, k: Keyword)
    requires Distinct(vocab) && k in Extracted(rs, vocab)
    ensures k.frequency == MatchPairs(rs, k.text)
    ensures 1 <= k.frequency <= 3 * |rs|
  {
    ExtractedFrequency(rs, vocab, k);
    DistinctOnce(vocab, k.text);
    ScaleOne(k.frequency, MatchPairs(rs, k.text), multiset(vocab)[k.text]);
  }

  lemma ScaleOne(product: int, n: int, m: int)
    requires product == n * m && m == 1
    ensures product == n
  {
  }

  /** The frequencies `extractKeywords` reports, for its fixed vocabulary. */
  lemma VocabularyFrequency(rs: seq<Response>, k: Keyword)
    requires k in Extracted(rs, Vocabulary)
    ensures k.frequency == MatchPairs(rs, k.text)
    ensures 1 <= k.frequency <= 3 * |rs|
  {
    VocabularyDistinct();
    ExtractedFrequencyDistinct(rs, Vocabulary, k);
  }

  /** The same, for every keyword `extractKeywords` lists. */
  lemma VocabularyFrequencies(rs: seq<Response>)
    ensures forall k <- Extracted(rs, Vocabulary) :: k.frequency == MatchPairs(rs, k.text) && 1 <= k.frequency <= 3 * |rs|
  {
    forall k <- Extracted(rs, Vocabulary) ensures k.frequency == MatchPairs(rs, k.text) && 1 <= k.frequency <= 3 * |rs| {
      VocabularyFrequency(rs, k);
    }
  }

  /** Scaling `1 <= n <= hi` by a positive factor keeps both bounds. */
  lemma ScaleBounds(n: nat, m: nat, hi: nat)
    requires 1 <= n <= hi && m >= 1
    ensures 1 <= n * m <= hi * m
  {
  }

  // ---------------------------------------------------------------------------
  // The extraction itself

  lemma FieldHitsStep(before: seq<Hit>, index: nat, field: Field, text: string, vocab: seq<string>, k: nat)
    requires k < |vocab|
    ensures before + FieldHits(index, field, text, vocab[..k + 1])
         == before + FieldHits(index, field, text, vocab[..k])
            + (if Contains(text, vocab[k]) then [Hit(index, field, vocab[k])] else [])
  {
    assert vocab[..k + 1][..k] == vocab[..k];
  }

  lemma ResponseHitsStep(before: seq<Hit>, index: nat, r: Response, fields: seq<Field>, vocab: seq<string>, q: nat)
    requires q < |fields|
    ensures before + ResponseHits(index, r, fields[..q + 1], vocab)
         == before + ResponseHits(index, r, fields[..q], vocab) + FieldHits(index, fields[q], FieldText(r, fields[q]), vocab)
  {
    assert fields[..q + 1][..q] == fields[..q];
  }

  /** One turn of the innermost loop, on the fold: the map changes exactly when the answer contains the term. */
  lemma ScanStep(before: seq<Hit>, index: nat, category: Field, text: string, vocab: seq<string>, k: nat)
    requires k < |vocab|
    ensures Accumulate(before + FieldHits(index, category, text, vocab[..k + 1]))
         == if Contains(text, vocab[k])
            then Record(Accumulate(before + FieldHits(index, category, text, vocab[..k])), Hit(index, category, vocab[k]))
            else Accumulate(before + FieldHits(index, category, text, vocab[..k]))
  {
    var prefix := before + FieldHits(index, category, text, vocab[..k]);
    FieldHitsStep(before, index, category, text, vocab, k);
    if Contains(text, vocab[k]) {
      AccumulateSnoc(prefix, Hit(index, category, vocab[k]));
    } else {
      AppendEmpty(prefix);
    }
  }

  /**
   The innermost loop of `extractKeywords`: every term of `vocab` that `text`
   contains is recorded in the map, term by term.
   */
  method ScanText(tallies0: map<string, Tally>, order0: seq<string>, index: nat, category: Field,
                  text: string, vocab: seq<string>, ghost before: seq<Hit>)
    returns (tallies: map<string, Tally>, order: seq<string>)
    requires Ledger(tallies0, order0) == Accumulate(before)
    ensures Ledger(tallies, order) == Accumulate(before + FieldHits(index, category, text, vocab))
  {
    tallies, order := tallies0, order0;
    assert vocab[..0] == [];
    AppendEmpty(before);
    for k := 0 to |vocab|
      invariant Ledger(tallies, order) == Accumulate(before + FieldHits(index, category, text, vocab[..k]))
    {
      var keyword := vocab[k];
      ScanStep(before, index, category, text, vocab, k);
      if Contains(text, keyword) {
        var updated := Record(Ledger(tallies, order), Hit(index, category, keyword));
        tallies, order := updated.tallies, updated.order;
      }
    }
    assert vocab[..|vocab|] == vocab;
  }

  /** The middle loop: the three answers of response `index`, question by question. */
  method ScanResponse(tallies0: map<string, Tally>, order0: seq<string>, index: nat, response: Response,
                      vocab: seq<string>, ghost before: seq<Hit>)
    returns (tallies: map<string, Tally>, order: seq<string>)
    requires Ledger(tallies0, order0) == Accumulate(before)
    ensures Ledger(tallies, order) == Accumulate(before + ResponseHits(index, response, Questions, vocab))
  {
    tallies, order := tallies0, order0;
    assert before + ResponseHits(index, response, Questions[..0], vocab) == before;
    for q := 0 to |Questions|
      invariant Ledger(tallies, order) == Accumulate(before + ResponseHits(index, response, Questions[..q], vocab))
    {
      var category := Questions[q];
      ghost var sofar := before + ResponseHits(index, response, Questions[..q], vocab);
      tallies, order := ScanText(tallies, order, index, category, FieldText(response, category), vocab, sofar);
      ResponseHitsStep(before, index, response, Questions, vocab, q);
    }
    assert Questions[..|Questions|] == Questions;
  }

  /**
   `extractKeywords` over the vocabulary `vocab`: the nested loops fill the
   insertion-ordered map, which is then listed, filtered and sorted.
   */
  method ExtractKeywordsFrom(responses: seq<Response>, vocab: seq<string>) returns (keywords: seq<Keyword>)
    ensures keywords == Extracted(responses, vocab)
    ensures ListsExactly(responses, vocab, keywords)
    ensures forall k <- keywords :: Describes(responses, vocab, k)
    ensures RankedByScan(responses, vocab, keywords)
  {
    var tallies: map<string, Tally> := map[];
    var order: seq<string> := [];
    for index := 0 to |responses|
      invariant Ledger(tallies, order) == Accumulate(ScanHits(responses[..index], vocab))
    {
      ghost var done := ScanHits(responses[..index], vocab);
      tallies, order := ScanResponse(tallies, order, index, responses[index], vocab, done);
      assert responses[..index + 1][..index] == responses[..index];
      assert ScanHits(responses[..index + 1], vocab) == done + ResponseHits(index, responses[index], Questions, vocab);
    }
    assert responses[..|responses|] == responses;
    AccumulateSettled(ScanHits(responses, vocab));
    keywords := SortByFrequency(AtLeastOnce(Entries(order, tallies)));
    ExtractedSpec(responses, vocab);
  }

  /**
   `extractKeywords`: the extraction over the fixed vocabulary. What the
   result means is `ExtractedSpec` for `Vocabulary`.
   */
  method ExtractKeywords(responses: seq<Response>) returns (keywords: seq<Keyword>)
    ensures keywords == Extracted(responses, Vocabulary)
    ensures forall k <- keywords :: k.frequency == MatchPairs(responses, k.text) && 1 <= k.frequency <= 3 * |responses|
  {
    keywords := ExtractKeywordsFrom(responses, Vocabulary);
    VocabularyFrequencies(responses);
  }
}
