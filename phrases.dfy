/**
 `generatePoetryPhrases`: the short sentences of every response. The three
 answers are joined with spaces, cut at the Chinese and ASCII sentence marks,
 and each piece is kept, trimmed, when its trimmed length lies strictly
 between 3 and 50.
 */
module Phrases {
  import opened Types
  import opened Text
  import opened Seqs

  /** `` `${question1} ${question2} ${question3}` ``. */
  function AllText(r: Response): string
  {
    r.question1 + " " + r.question2 + " " + r.question3
  }

  /** The joined text holds each of the three answers. */
  lemma AllTextHoldsAnswers(r: Response, f: Field)
    ensures Contains(AllText(r), FieldText(r, f))
  {
    JoinedHoldsParts(r.question1, r.question2, r.question3);
  }

  /** Each of three texts joined with single spaces occurs in the joined text. */
  lemma JoinedHoldsParts(a: string, b: string, c: string)
    ensures var s := a + " " + b + " " + c;
      Contains(s, a) && Contains(s, b) && Contains(s, c)
  {
    var s := a + " " + b + " " + c;
    assert s[0..|a|] == a;
    ContainsSlice(s, 0, |a|);
    assert s[|a| + 1..|a| + 1 + |b|] == b;
    ContainsSlice(s, |a| + 1, |a| + 1 + |b|);
    assert s[|a| + |b| + 2..|s|] == c;
    ContainsSlice(s, |a| + |b| + 2, |s|);
  }

  /** `filter(s => s.trim().length > 0)`. */
  function NonBlank(ss: seq<string>): seq<string>
  {
    if ss == [] then []
    else NonBlank(ss[..|ss| - 1]) + (if |Trim(ss[|ss| - 1])| > 0 then [ss[|ss| - 1]] else [])
  }

  /** The length test a trimmed sentence must pass. */
  predicate GoodLength(t: string)
  {
    3 < |t| < 50
  }

  /** The trimmed sentences of `ss` that pass the length test, in order. */
  function KeepPhrases(ss: seq<string>): seq<string>
  {
    if ss == [] then []
    else KeepPhrases(ss[..|ss| - 1]) + (if GoodLength(Trim(ss[|ss| - 1])) then [Trim(ss[|ss| - 1])] else [])
  }

  /** The phrases one response contributes. */
  function ResponsePhrases(r: Response): seq<string>
  {
    KeepPhrases(NonBlank(Split(AllText(r))))
  }

  /** The lists joined one after the other. */
  function Flatten(lists: seq<seq<string>>): seq<string>
  {
    if lists == [] then []
    else Flatten(lists[..|lists| - 1]) + lists[|lists| - 1]
  }

  /** The phrases of all responses, response by response. */
  function Phrases(rs: seq<Response>): seq<string>
  {
    Flatten(seq(|rs|, i requires 0 <= i < |rs| => ResponsePhrases(rs[i])))
  }

  // ---------------------------------------------------------------------------
  // Properties

  lemma {:induction false} KeepPhrasesAppend(a: seq<string>, b: seq<string>)
    ensures KeepPhrases(a + b) == KeepPhrases(a) + KeepPhrases(b)
    decreases |b|
  {
    if b == [] {
      AppendEmpty(a);
      AppendEmpty(KeepPhrases(a));
    } else {
      KeepPhrasesAppend(a, b[..|b| - 1]);
      AppendLast(a, b);
    }
  }

  /**
   The blank filter changes nothing: a sentence that trims to nothing would
   fail the length test anyway.
   */
  lemma {:induction false} NonBlankRedundant(ss: seq<string>)
    ensures KeepPhrases(NonBlank(ss)) == KeepPhrases(ss)
  {
    if ss != [] {
      var init := ss[..|ss| - 1];
      var last := ss[|ss| - 1];
      NonBlankRedundant(init);
      KeepPhrasesAppend(NonBlank(init), if |Trim(last)| > 0 then [last] else []);
      assert KeepPhrases([last]) == KeepPhrases([]) + (if GoodLength(Trim(last)) then [Trim(last)] else []);
    }
  }

  /** A phrase is the trimmed form of a sentence that passes the length test, and every such sentence gives one. */
  lemma {:induction false} KeepPhrasesIff(ss: seq<string>, p: string)
    ensures p in KeepPhrases(ss) <==> exists s <- ss :: p == Trim(s) && GoodLength(p)
  {
    if ss != [] {
      var init := ss[..|ss| - 1];
      var last := ss[|ss| - 1];
      KeepPhrasesIff(init, p);
      assert ss == init + [last];
      if exists s <- ss :: p == Trim(s) && GoodLength(p) {
        var s :| s in ss && p == Trim(s) && GoodLength(p);
        if s != last {
          assert s in init;
        }
      }
    }
  }

  /** Trimming a piece without separators leaves a piece without separators. */
  lemma TrimNoBreak(s: string)
    requires NoBreak(s)
    ensures NoBreak(Trim(s))
  {
    TrimSpec(s);
    var i, j :| 0 <= i <= j <= |s| && Trim(s) == s[i..j];
    assert forall k :: 0 <= k < |Trim(s)| ==> Trim(s)[k] == s[i + k];
  }

  /**
   Every phrase of a response is trimmed, passes the length test, holds no
   sentence mark, and is a piece of the joined answers.
   */
  lemma ResponsePhraseShape(r: Response, p: string)
    requires p in ResponsePhrases(r)
    ensures IsTrimmed(p) && GoodLength(p) && NoBreak(p) && Contains(AllText(r), p)
  {
    var pieces := Split(AllText(r));
    NonBlankRedundant(pieces);
    KeepPhrasesIff(pieces, p);
    var s :| s in pieces && p == Trim(s) && GoodLength(p);
    var k :| 0 <= k < |pieces| && pieces[k] == s;
    TrimSpec(s);
    TrimNoBreak(s);
    SplitInside(AllText(r), k);
    TrimInside(s);
    ContainsTransitive(AllText(r), s, p);
  }

  /** The phrases of one response are exactly the good trimmed pieces of its joined answers. */
  lemma ResponsePhrasesIff(r: Response, p: string)
    ensures p in ResponsePhrases(r) <==> exists s <- Split(AllText(r)) :: p == Trim(s) && GoodLength(p)
  {
    NonBlankRedundant(Split(AllText(r)));
    KeepPhrasesIff(Split(AllText(r)), p);
  }

  /** A string is in the joined lists exactly when it is in one of them. */
  lemma {:induction false} FlattenIff(lists: seq<seq<string>>, p: string)
    ensures p in Flatten(lists) <==> exists i :: 0 <= i < |lists| && p in lists[i]
  {
    if lists != [] {
      var init := lists[..|lists| - 1];
      var n := |lists| - 1;
      FlattenIff(init, p);
      if p in Flatten(init) {
        var i :| 0 <= i < |init| && p in init[i];
        assert lists[i] == init[i];
      }
      if exists i :: 0 <= i < |lists| && p in lists[i] {
        var i :| 0 <= i < |lists| && p in lists[i];
        if i < n {
          assert init[i] == lists[i];
        }
      }
    }
  }

  /** The phrases of all responses are the phrases of each response. */
  lemma PhrasesIff(rs: seq<Response>, p: string)
    ensures p in Phrases(rs) <==> exists i :: 0 <= i < |rs| && p in ResponsePhrases(rs[i])
  {
    var lists := seq(|rs|, i requires 0 <= i < |rs| => ResponsePhrases(rs[i]));
    assert Phrases(rs) == Flatten(lists);
    FlattenIff(lists, p);
    if p in Phrases(rs) {
      var i :| 0 <= i < |lists| && p in lists[i];
      assert p in ResponsePhrases(rs[i]);
    }
    if exists i :: 0 <= i < |rs| && p in ResponsePhrases(rs[i]) {
      var i :| 0 <= i < |rs| && p in ResponsePhrases(rs[i]);
      assert p in lists[i];
    }
  }

  /**
   Every phrase of the whole survey is trimmed, passes the length test, holds
   no sentence mark, and is a piece of some response's joined answers.
   */
  lemma PhrasesShape(rs: seq<Response>, p: string)
    requires p in Phrases(rs)
    ensures IsTrimmed(p) && GoodLength(p) && NoBreak(p)
    ensures exists i :: 0 <= i < |rs| && Contains(AllText(rs[i]), p)
  {
    PhrasesIff(rs, p);
    var i :| 0 <= i < |rs| && p in ResponsePhrases(rs[i]);
    ResponsePhraseShape(rs[i], p);
  }

  /** One more sentence examined is one more step of the phrase filter. */
  lemma KeepPhrasesNext(ss: seq<string>, k: nat)
    requires k < |ss|
    ensures KeepPhrases(ss[..k + 1]) == KeepPhrases(ss[..k]) + (if GoodLength(Trim(ss[k])) then [Trim(ss[k])] else [])
  {
    assert ss[..k + 1][..k] == ss[..k];
  }

  /** One more response examined adds its phrases at the end. */
  lemma PhrasesNext(rs: seq<Response>, i: nat)
    requires i < |rs|
    ensures Phrases(rs[..i + 1]) == Phrases(rs[..i]) + ResponsePhrases(rs[i])
  {
    var lists := seq(i + 1, j requires 0 <= j < i + 1 => ResponsePhrases(rs[..i + 1][j]));
    assert lists[..i] == seq(i, j requires 0 <= j < i => ResponsePhrases(rs[..i][j]));
  }

  // ---------------------------------------------------------------------------
  // The generator

  /** `generatePoetryPhrases`: collects the phrases response by response. */
  method GeneratePoetryPhrases(responses: seq<Response>) returns (phrases: seq<string>)
    ensures phrases == Phrases(responses)
  {
    phrases := [];
    for i := 0 to |responses|
      invariant phrases == Phrases(responses[..i])
    {
      var allText := AllText(responses[i]);
      var sentences := NonBlank(Split(allText));
      ghost var before := phrases;
      for k := 0 to |sentences|
        invariant phrases == before + KeepPhrases(sentences[..k])
      {
        var trimmed := Trim(sentences[k]);
        KeepPhrasesNext(sentences, k);
        if 3 < |trimmed| < 50 {
          phrases := phrases + [trimmed];
        }
      }
      assert sentences[..|sentences|] == sentences;
      PhrasesNext(responses, i);
    }
    assert responses[..|responses|] == responses;
  }
}
