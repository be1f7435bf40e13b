/**
 `generateFloatingWords`: walks the keyword list in order and gives each
 keyword at most one star, tied to the first answer (by response, then by
 question) that contains the keyword and has not been shown yet, until
 seventy stars exist. `Math.random` is not modelled as a source of
 randomness: the four draws made for the star with counter `k` are `rand(k)`.
 */
module FloatingWords {
  import opened Types
  import opened Text
  import opened Seqs

  /** The number of stars the generator stops at. */
  const MaxWords: nat := 70

  /** Where a star's answer comes from: response `index`, question `field`. */
  datatype Pick = Pick(index: nat, field: Field)

  /** Every response index a keyword lists names a response. */
  ghost predicate ValidIndices(rs: seq<Response>, kws: seq<Keyword>)
  {
    forall n, j :: 0 <= n < |kws| && 0 <= j < |kws[n].responses| ==> kws[n].responses[j] < |rs|
  }

  /** The answer of `r` to `f` contains `t` and has not been shown yet. */
  predicate Fits(r: Response, f: Field, t: string, used: set<string>)
  {
    Contains(FieldText(r, f), t) && FieldText(r, f) !in used
  }

  /** The first question of `fields` whose answer in `r` fits. */
  function FirstField(r: Response, fields: seq<Field>, t: string, used: set<string>): (o: Option<Field>)
    ensures o.None? <==> forall f <- fields :: !Fits(r, f, t, used)
    ensures o.Some? ==> o.value in fields && Fits(r, o.value, t, used)
  {
    if fields == [] then None
    else if Fits(r, fields[0], t, used) then Some(fields[0])
    else FirstField(r, fields[1..], t, used)
  }

  /** No question before the chosen one fits. */
  lemma {:induction false} FirstFieldEarliest(r: Response, fields: seq<Field>, t: string, used: set<string>)
    requires FirstField(r, fields, t, used).Some?
    ensures exists q :: 0 <= q < |fields| && fields[q] == FirstField(r, fields, t, used).value
                        && forall p :: 0 <= p < q ==> !Fits(r, fields[p], t, used)
  {
    if !Fits(r, fields[0], t, used) {
      var rest := fields[1..];
      FirstFieldEarliest(r, rest, t, used);
      var q :| 0 <= q < |rest| && rest[q] == FirstField(r, rest, t, used).value
               && forall p :: 0 <= p < q ==> !Fits(r, rest[p], t, used);
      assert fields[q + 1] == rest[q];
      forall p | 0 <= p < q + 1 ensures !Fits(r, fields[p], t, used) {
        if p > 0 { assert fields[p] == rest[p - 1]; }
      }
    } else {
      assert fields[0] == FirstField(r, fields, t, used).value;
    }
  }

  /**
   The first response of `idxs` with a fitting answer, and the first fitting
   question of it.
   */
  function FirstPick(rs: seq<Response>, idxs: seq<nat>, t: string, used: set<string>): (o: Option<Pick>)
    requires forall j :: 0 <= j < |idxs| ==> idxs[j] < |rs|
    ensures o.None? <==> forall i <- idxs, f: Field :: !Fits(rs[i], f, t, used)
    ensures o.Some? ==> o.value.index in idxs && o.value.index < |rs| && Fits(rs[o.value.index], o.value.field, t, used)
  {
    if idxs == [] then None
    else match FirstField(rs[idxs[0]], Questions, t, used)
      case Some(f) => Some(Pick(idxs[0], f))
      case None =>
        var o := FirstPick(rs, idxs[1..], t, used);
        NoFieldFits(rs[idxs[0]], t, used);
        assert idxs == [idxs[0]] + idxs[1..];
        o
  }

  /** When no question of `r` fits, no field of it does. */
  lemma NoFieldFits(r: Response, t: string, used: set<string>)
    requires FirstField(r, Questions, t, used).None?
    ensures forall f: Field :: !Fits(r, f, t, used)
  {
    forall f: Field ensures !Fits(r, f, t, used) {
      QuestionsCoverFields(f);
    }
  }

  /**
   The pick is the earliest: no response listed before the chosen one has a
   fitting answer, and the chosen question is the first fitting one of its response.
   */
  lemma {:induction false} FirstPickEarliest(rs: seq<Response>, idxs: seq<nat>, t: string, used: set<string>)
    requires forall j :: 0 <= j < |idxs| ==> idxs[j] < |rs|
    requires FirstPick(rs, idxs, t, used).Some?
    ensures var p := FirstPick(rs, idxs, t, used).value;
      && FirstField(rs[p.index], Questions, t, used) == Some(p.field)
      && exists n :: 0 <= n < |idxs| && idxs[n] == p.index
                     && forall m, f: Field :: 0 <= m < n ==> !Fits(rs[idxs[m]], f, t, used)
  {
    var p := FirstPick(rs, idxs, t, used).value;
    if FirstField(rs[idxs[0]], Questions, t, used).None? {
      var rest := idxs[1..];
      FirstPickEarliest(rs, rest, t, used);
      var n :| 0 <= n < |rest| && rest[n] == p.index
               && forall m, f: Field :: 0 <= m < n ==> !Fits(rs[rest[m]], f, t, used);
      assert idxs[n + 1] == p.index;
      forall m, f: Field | 0 <= m < n + 1 ensures !Fits(rs[idxs[m]], f, t, used) {
        if m > 0 {
          assert idxs[m] == rest[m - 1];
        } else {
          NoFieldFits(rs[idxs[0]], t, used);
        }
      }
    } else {
      assert idxs[0] == p.index;
    }
  }

  /** `` `word-${k}` ``. */
  function WordId(k: nat): string
  {
    "word-" + NatToString(k)
  }

  /** The star the generator pushes: counter `k`, keyword `kw`, answer `p`, draws `d`. */
  function MakeWord(k: nat, kw: Keyword, p: Pick, fullText: string, d: Draw): (w: FloatingWord)
    ensures Drawn(w, k, d)
    ensures 0.0 <= d.x < 1.0 && 0.0 <= d.y < 1.0 ==> 7.5 <= w.x < 92.5 && 7.5 <= w.y < 92.5
    ensures w.size >= 18.0
  {
    FloatingWord(WordId(k), kw.text, d.x * 85.0 + 7.5, d.y * 85.0 + 7.5, 0.2 + d.speed * 0.3,
                 18.0 + (kw.frequency as real) * 2.5, 0.5 + d.opacity * 0.5, p.field, p.index, fullText)
  }

  /**
   What the generator holds after a number of keywords: the stars, the set of
   answers shown, and, for the proofs, the keyword position each star came from.
   */
  datatype Layout = Layout(words: seq<FloatingWord>, used: set<string>, origin: seq<nat>)

  /**
   One turn of the outer loop, for keyword `kw` at position `pos`: nothing
   once seventy stars exist, otherwise a star for the first fitting answer, if any.
   */
  function Advance(rs: seq<Response>, l: Layout, kw: Keyword, pos: nat, rand: nat -> Draw): Layout
    requires forall j :: 0 <= j < |kw.responses| ==> kw.responses[j] < |rs|
  {
    if |l.words| >= MaxWords then l
    else match FirstPick(rs, kw.responses, kw.text, l.used)
      case None => l
      case Some(p) =>
        var text := FieldText(rs[p.index], p.field);
        Layout(l.words + [MakeWord(|l.words|, kw, p, text, rand(|l.words|))], l.used + {text}, l.origin + [pos])
  }

  /** The generator's state after the keywords `kws`, one keyword at a time. */
  function Place(rs: seq<Response>, kws: seq<Keyword>, rand: nat -> Draw): Layout
    requires ValidIndices(rs, kws)
  {
    if kws == [] then Layout([], {}, [])
    else Advance(rs, Place(rs, kws[..|kws| - 1], rand), kws[|kws| - 1], |kws| - 1, rand)
  }

  // ---------------------------------------------------------------------------
  // What the stars are

  /** Star `w` shows keyword `kw` through a fitting answer of one of its responses. */
  ghost predicate Shows(rs: seq<Response>, kw: Keyword, w: FloatingWord)
  {
    && w.text == kw.text
    && w.size == 18.0 + (kw.frequency as real) * 2.5
    && w.responseIndex in kw.responses && w.responseIndex < |rs|
    && w.fullText == FieldText(rs[w.responseIndex], w.category)
    && Contains(w.fullText, w.text)
  }

  /** Star `w` is star number `k`, placed with the draws `d`. */
  ghost predicate Drawn(w: FloatingWord, k: nat, d: Draw)
  {
    && w.id == WordId(k)
    && w.x == d.x * 85.0 + 7.5 && w.y == d.y * 85.0 + 7.5
    && w.speed == 0.2 + d.speed * 0.3 && w.opacity == 0.5 + d.opacity * 0.5
  }

  /** Every answer of `kw`'s responses that contains its text is among `used`. */
  ghost predicate Exhausted(rs: seq<Response>, kw: Keyword, used: set<string>)
  {
    forall i, f: Field :: i in kw.responses && i < |rs| && Contains(FieldText(rs[i], f), kw.text) ==>
      FieldText(rs[i], f) in used
  }

  /**
   At most seventy stars and at most one per keyword: star `j` comes from
   keyword `origin[j]`, and the origins increase.
   */
  ghost predicate Counted(kws: seq<Keyword>, l: Layout)
  {
    && |l.words| <= MaxWords && |l.words| == |l.origin| <= |kws|
    && StrictlyIncreasing(l.origin)
    && forall j :: 0 <= j < |l.origin| ==> l.origin[j] < |kws|
  }

  /** Star `j` shows keyword `origin[j]` and is drawn with `rand(j)`. */
  ghost predicate Shown(rs: seq<Response>, kws: seq<Keyword>, rand: nat -> Draw, l: Layout)
  {
    forall j :: 0 <= j < |l.words| ==>
      j < |l.origin| && l.origin[j] < |kws| && Shows(rs, kws[l.origin[j]], l.words[j]) && Drawn(l.words[j], j, rand(j))
  }

  /** The shown answers are exactly the stars' answers, and no answer is shown twice. */
  ghost predicate UsedOnce(l: Layout)
  {
    && (forall t :: t in l.used <==> exists j :: 0 <= j < |l.words| && l.words[j].fullText == t)
    && (forall a, b :: 0 <= a < b < |l.words| ==> l.words[a].fullText != l.words[b].fullText)
  }

  /**
   Unless seventy stars were placed, every keyword that got no star had no
   unshown answer left that contains it.
   */
  ghost predicate Greedy(rs: seq<Response>, kws: seq<Keyword>, l: Layout)
  {
    |l.words| < MaxWords ==>
      forall i :: 0 <= i < |kws| && i !in l.origin ==> Exhausted(rs, kws[i], l.used)
  }

  lemma AdvanceCounted(rs: seq<Response>, kws: seq<Keyword>, l: Layout, rand: nat -> Draw)
    requires kws != [] && ValidIndices(rs, kws)
    requires Counted(kws[..|kws| - 1], l)
    ensures Counted(kws, Advance(rs, l, kws[|kws| - 1], |kws| - 1, rand))
  {
  }

  lemma AdvanceShown(rs: seq<Response>, kws: seq<Keyword>, l: Layout, rand: nat -> Draw)
    requires kws != [] && ValidIndices(rs, kws)
    requires Shown(rs, kws[..|kws| - 1], rand, l) && |l.origin| == |l.words|
    ensures Shown(rs, kws, rand, Advance(rs, l, kws[|kws| - 1], |kws| - 1, rand))
  {
    var l' := Advance(rs, l, kws[|kws| - 1], |kws| - 1, rand);
    ShownExtends(rs, kws, rand, l);
    if l' != l {
      ShownAppend(rs, kws, rand, l, l'.words[|l.words|], l');
    }
  }

  /** What the stars show stays true when more keywords follow. */
  lemma ShownExtends(rs: seq<Response>, kws: seq<Keyword>, rand: nat -> Draw, l: Layout)
    requires kws != [] && Shown(rs, kws[..|kws| - 1], rand, l)
    ensures Shown(rs, kws, rand, l)
  {
    var init := kws[..|kws| - 1];
    forall j | 0 <= j < |l.words|
      ensures j < |l.origin| && l.origin[j] < |kws| && Shows(rs, kws[l.origin[j]], l.words[j])
              && Drawn(l.words[j], j, rand(j))
    {
      ShownStar(rs, init, rand, l, j);
      assert kws[l.origin[j]] == init[l.origin[j]];
    }
  }

  /** What `Shown` says of star `j`. */
  lemma ShownStar(rs: seq<Response>, kws: seq<Keyword>, rand: nat -> Draw, l: Layout, j: nat)
    requires Shown(rs, kws, rand, l) && j < |l.words|
    ensures j < |l.origin| && l.origin[j] < |kws| && Shows(rs, kws[l.origin[j]], l.words[j])
    ensures Drawn(l.words[j], j, rand(j))
  {
  }

  /** A new last star that shows the last keyword and took the next draw keeps `Shown`. */
  lemma ShownAppend(rs: seq<Response>, kws: seq<Keyword>, rand: nat -> Draw, l: Layout, w: FloatingWord, l': Layout)
    requires kws != [] && Shown(rs, kws, rand, l) && |l.origin| == |l.words|
    requires l'.words == l.words + [w] && l'.origin == l.origin + [|kws| - 1]
    requires Shows(rs, kws[|kws| - 1], w) && Drawn(w, |l.words|, rand(|l.words|))
    ensures Shown(rs, kws, rand, l')
  {
    forall j | 0 <= j < |l'.words|
      ensures j < |l'.origin| && l'.origin[j] < |kws| && Shows(rs, kws[l'.origin[j]], l'.words[j])
              && Drawn(l'.words[j], j, rand(j))
    {
      if j < |l.words| {
        assert l'.words[j] == l.words[j] && l'.origin[j] == l.origin[j];
      }
    }
  }

  lemma AdvanceUsedOnce(rs: seq<Response>, kw: Keyword, l: Layout, pos: nat, rand: nat -> Draw)
    requires forall j :: 0 <= j < |kw.responses| ==> kw.responses[j] < |rs|
    requires UsedOnce(l)
    ensures UsedOnce(Advance(rs, l, kw, pos, rand))
  {
    var l' := Advance(rs, l, kw, pos, rand);
    if l' != l {
      var w := l'.words[|l.words|];
      assert w.fullText !in l.used;
      UsedOnceAppend(l, w, l');
    }
  }

  /** Adding a star whose answer was not yet shown, and recording that answer, keeps `UsedOnce`. */
  lemma UsedOnceAppend(l: Layout, w: FloatingWord, l': Layout)
    requires UsedOnce(l) && w.fullText !in l.used
    requires l'.words == l.words + [w] && l'.used == l.used + {w.fullText}
    ensures UsedOnce(l')
  {
    forall t ensures t in l'.used <==> exists j :: 0 <= j < |l'.words| && l'.words[j].fullText == t {
      if t in l.used {
        var j :| 0 <= j < |l.words| && l.words[j].fullText == t;
        assert l'.words[j] == l.words[j];
      }
      if t == w.fullText {
        assert l'.words[|l.words|] == w;
      }
      if exists j :: 0 <= j < |l'.words| && l'.words[j].fullText == t {
        var j :| 0 <= j < |l'.words| && l'.words[j].fullText == t;
        if j < |l.words| {
          assert l'.words[j] == l.words[j];
        }
      }
    }
    forall a, b | 0 <= a < b < |l'.words| ensures l'.words[a].fullText != l'.words[b].fullText {
      assert l'.words[a] == l.words[a];
      if b < |l.words| {
        assert l'.words[b] == l.words[b];
      }
    }
  }

  lemma ExhaustedGrows(rs: seq<Response>, kw: Keyword, used: set<string>, more: set<string>)
    requires Exhausted(rs, kw, used) && used <= more
    ensures Exhausted(rs, kw, more)
  {
  }

  lemma PickNoneExhausted(rs: seq<Response>, kw: Keyword, used: set<string>)
    requires forall j :: 0 <= j < |kw.responses| ==> kw.responses[j] < |rs|
    requires FirstPick(rs, kw.responses, kw.text, used).None?
    ensures Exhausted(rs, kw, used)
  {
    forall i, f: Field | i in kw.responses && i < |rs| && Contains(FieldText(rs[i], f), kw.text)
      ensures FieldText(rs[i], f) in used
    {
      assert !Fits(rs[i], f, kw.text, used);
    }
  }

  lemma AdvanceGreedy(rs: seq<Response>, kws: seq<Keyword>, l: Layout, rand: nat -> Draw)
    requires kws != [] && ValidIndices(rs, kws)
    requires Greedy(rs, kws[..|kws| - 1], l) && Counted(kws[..|kws| - 1], l)
    ensures Greedy(rs, kws, Advance(rs, l, kws[|kws| - 1], |kws| - 1, rand))
  {
    var init := kws[..|kws| - 1];
    var kw := kws[|kws| - 1];
    var l' := Advance(rs, l, kw, |kws| - 1, rand);
    if |l'.words| < MaxWords {
      assert |l.words| < MaxWords;
      forall i | 0 <= i < |kws| && i !in l'.origin ensures Exhausted(rs, kws[i], l'.used) {
        if i < |init| {
          assert kws[i] == init[i];
          assert i !in l.origin;
          ExhaustedGrows(rs, kws[i], l.used, l'.used);
        } else {
          assert l' == l;
          PickNoneExhausted(rs, kw, l.used);
        }
      }
    }
  }

  /** The layout the generator reaches keeps all four properties. */
  lemma {:induction false} PlaceSound(rs: seq<Response>, kws: seq<Keyword>, rand: nat -> Draw)
    requires ValidIndices(rs, kws)
    ensures var l := Place(rs, kws, rand);
      Counted(kws, l) && Shown(rs, kws, rand, l) && UsedOnce(l) && Greedy(rs, kws, l)
  {
    if kws != [] {
      var init := kws[..|kws| - 1];
      PlaceSound(rs, init, rand);
      var l := Place(rs, init, rand);
      AdvanceCounted(rs, kws, l, rand);
      AdvanceShown(rs, kws, l, rand);
      AdvanceUsedOnce(rs, kws[|kws| - 1], l, |kws| - 1, rand);
      AdvanceGreedy(rs, kws, l, rand);
    }
  }

  /** Placing one more keyword is one more turn of the outer loop. */
  lemma PlaceNext(rs: seq<Response>, kws: seq<Keyword>, i: nat, rand: nat -> Draw)
    requires ValidIndices(rs, kws) && i < |kws|
    ensures forall j :: 0 <= j < |kws[i].responses| ==> kws[i].responses[j] < |rs|
    ensures Place(rs, kws[..i + 1], rand) == Advance(rs, Place(rs, kws[..i], rand), kws[i], i, rand)
  {
    assert kws[..i + 1][..i] == kws[..i];
  }

  /** Once seventy stars exist, further keywords change nothing. */
  lemma {:induction false} PlaceFull(rs: seq<Response>, kws: seq<Keyword>, n: nat, rand: nat -> Draw)
    requires ValidIndices(rs, kws) && n <= |kws|
    requires |Place(rs, kws[..n], rand).words| >= MaxWords
    ensures Place(rs, kws, rand) == Place(rs, kws[..n], rand)
    decreases |kws| - n
  {
    if n < |kws| {
      assert kws[..n + 1][..n] == kws[..n];
      PlaceFull(rs, kws, n + 1, rand);
    } else {
      assert kws[..n] == kws;
    }
  }

  /** No two stars share an id. */
  ghost predicate IdsDistinct(words: seq<FloatingWord>)
  {
    forall a, b :: 0 <= a < b < |words| ==> words[a].id != words[b].id
  }

  /** The stars have pairwise different ids. */
  lemma DistinctIds(rs: seq<Response>, kws: seq<Keyword>, rand: nat -> Draw)
    requires ValidIndices(rs, kws)
    ensures IdsDistinct(Place(rs, kws, rand).words)
  {
    PlaceSound(rs, kws, rand);
    var words := Place(rs, kws, rand).words;
    forall a, b | 0 <= a < b < |words| ensures words[a].id != words[b].id {
      if words[a].id == words[b].id {
        WordIdInjective(a, b);
      }
    }
  }

  /** Different counters give different star ids. */
  lemma WordIdInjective(a: nat, b: nat)
    requires WordId(a) == WordId(b)
    ensures a == b
  {
    assert NatToString(a) == ("word-" + NatToString(a))[5..];
    assert NatToString(b) == ("word-" + NatToString(b))[5..];
    NatToStringInjective(a, b);
  }

  /**
   With draws in `[0, 1)`, as `Math.random` gives, a star starts inside
   7.5%–92.5% of the sky, drifts at 0.2–0.5 and is 0.5–1.0 opaque.
   */
  lemma DrawnRanges(w: FloatingWord, k: nat, d: Draw)
    requires Drawn(w, k, d)
    requires 0.0 <= d.x < 1.0 && 0.0 <= d.y < 1.0 && 0.0 <= d.speed < 1.0 && 0.0 <= d.opacity < 1.0
    ensures 7.5 <= w.x < 92.5 && 7.5 <= w.y < 92.5
    ensures 0.2 <= w.speed < 0.5 && 0.5 <= w.opacity < 1.0
  {
  }

  // ---------------------------------------------------------------------------
  // The generator

  /**
   The two inner loops: the responses of `keyword` in order, and in each the
   three questions in order, until an answer fits.
   */
  method FindUnusedText(responses: seq<Response>, keyword: Keyword, usedTexts: set<string>) returns (pick: Option<Pick>)
    requires forall j :: 0 <= j < |keyword.responses| ==> keyword.responses[j] < |responses|
    ensures pick == FirstPick(responses, keyword.responses, keyword.text, usedTexts)
  {
    pick := None;
    var idxs := keyword.responses;
    var found := false;
    for n := 0 to |idxs|
      invariant !found && pick == None
      invariant FirstPick(responses, idxs, keyword.text, usedTexts)
                          == FirstPick(responses, idxs[n..], keyword.text, usedTexts)
    {
      var responseIndex := idxs[n];
      var response := responses[responseIndex];
      assert idxs[n..][1..] == idxs[n + 1..];
      for q := 0 to |Questions|
        invariant !found && pick == None
        invariant FirstField(response, Questions, keyword.text, usedTexts)
                            == FirstField(response, Questions[q..], keyword.text, usedTexts)
      {
        var category := Questions[q];
        var text := FieldText(response, category);
        assert Questions[q..][1..] == Questions[q + 1..];
        if Contains(text, keyword.text) && text !in usedTexts {
          pick := Some(Pick(responseIndex, category));
          found := true;
          assert idxs[n..][0] == responseIndex;
          assert pick == FirstPick(responses, idxs, keyword.text, usedTexts);
          break;
        }
      }
      if found {
        break;
      }
      assert Questions[|Questions|..] == [];
      assert idxs[n..][0] == responseIndex;
    }
    if !found {
      assert idxs[|idxs|..] == [];
    }
  }

  /**
   `generateFloatingWords`: gives the keywords stars in order, one per keyword
   with an unshown answer, until seventy exist or the keywords run out.
   */
  method GenerateFloatingWords(responses: seq<Response>, keywords: seq<Keyword>, rand: nat -> Draw)
    returns (words: seq<FloatingWord>)
    requires ValidIndices(responses, keywords)
    ensures words == Place(responses, keywords, rand).words
  {
    words := [];
    var idCounter := 0;
    var usedTexts: set<string> := {};
    var keywordIndex := 0;
    ghost var origin: seq<nat> := [];
    while |words| < MaxWords && keywordIndex < |keywords|
      invariant keywordIndex <= |keywords| && idCounter == |words|
      invariant Place(responses, keywords[..keywordIndex], rand) == Layout(words, usedTexts, origin)
    {
      var keyword := keywords[keywordIndex];
      PlaceNext(responses, keywords, keywordIndex, rand);
      keywordIndex := keywordIndex + 1;
      var pick := FindUnusedText(responses, keyword, usedTexts);
      if pick.Some? {
        var text := FieldText(responses[pick.value.index], pick.value.field);
        usedTexts := usedTexts + {text};
        words := words + [MakeWord(idCounter, keyword, pick.value, text, rand(idCounter))];
        origin := origin + [keywordIndex - 1];
        idCounter := idCounter + 1;
      }
    }
    if keywordIndex < |keywords| {
      PlaceFull(responses, keywords, keywordIndex, rand);
    } else {
      assert keywords[..keywordIndex] == keywords;
    }
  }
}
