/**
 The home page's state and its event handlers: the loaded responses and
 stars, the pause flag, the speed and category controls, the star whose
 paragraph is open, and the list of collected paragraphs.
 */
module Session {
  import opened Types
  import opened RawData
  import opened Keywords
  import opened FloatingWords
  import opened Seqs
  import opened Lexicon

  // ---------------------------------------------------------------------------
  // The collection list

  /** `s.filter(x => x !== t)`. */
  function RemoveAll(s: seq<string>, t: string): (r: seq<string>)
    ensures |r| <= |s|
  {
    if s == [] then []
    else RemoveAll(s[..|s| - 1], t) + (if s[|s| - 1] != t then [s[|s| - 1]] else [])
  }

  /** The filter keeps exactly the entries other than `t`. */
  lemma {:induction false} RemoveAllMembers(s: seq<string>, t: string, x: string)
    ensures x in RemoveAll(s, t) <==> x != t && x in s
  {
    if s != [] {
      var init := s[..|s| - 1];
      RemoveAllMembers(init, t, x);
      LastSplit(s);
    }
  }

  /** The filter drops every copy of `t` and keeps every other copy. */
  lemma {:induction false} RemoveAllCounts(s: seq<string>, t: string)
    ensures multiset(RemoveAll(s, t)) == multiset(s)[t := 0]
  {
    if s != [] {
      var init := s[..|s| - 1];
      RemoveAllCounts(init, t);
      LastSplit(s);
    }
  }

  /** Filtering out a text that is not there changes nothing. */
  lemma {:induction false} RemoveAllAbsent(s: seq<string>, t: string)
    requires t !in s
    ensures RemoveAll(s, t) == s
  {
    if s != [] {
      var init := s[..|s| - 1];
      assert t !in init;
      RemoveAllAbsent(init, t);
      LastSplit(s);
    }
  }

  /** The filter works entry by entry, so it keeps the order of what it keeps. */
  lemma {:induction false} RemoveAllAppend(a: seq<string>, b: seq<string>, t: string)
    ensures RemoveAll(a + b, t) == RemoveAll(a, t) + RemoveAll(b, t)
    decreases |b|
  {
    if b == [] {
      AppendEmpty(a);
      AppendEmpty(RemoveAll(a, t));
    } else {
      var b' := b[..|b| - 1];
      RemoveAllAppend(a, b', t);
      AppendLast(a, b);
    }
  }

  /** `handleCollect`'s update: append `t` when absent, otherwise filter it out. */
  function Toggle(s: seq<string>, t: string): (r: seq<string>)
    ensures t in r <==> t !in s
    ensures forall x :: x != t ==> (x in r <==> x in s)
  {
    if t !in s then s + [t]
    else
      assert forall x :: x in RemoveAll(s, t) <==> x != t && x in s by {
        forall x { RemoveAllMembers(s, t, x); }
      }
      RemoveAll(s, t)
  }

  lemma {:induction false} RemoveAllDistinct(s: seq<string>, t: string)
    requires Distinct(s)
    ensures Distinct(RemoveAll(s, t))
    ensures t in s ==> |RemoveAll(s, t)| == |s| - 1
  {
    if s != [] {
      var init := s[..|s| - 1];
      var last := s[|s| - 1];
      assert Distinct(init);
      RemoveAllDistinct(init, t);
      assert last !in init;
      if last == t {
        RemoveAllAbsent(init, t);
      } else {
        var r := RemoveAll(init, t) + [last];
        RemoveAllMembers(init, t, last);
        forall i, j | 0 <= i < j < |r| ensures r[i] != r[j] {
          if j == |r| - 1 {
            assert r[i] in RemoveAll(init, t);
          }
        }
        if t in s {
          assert t in init;
        }
      }
    }
  }

  /**
   Toggling keeps a list free of repeats, and changes its length by exactly
   one: it grows when the text was absent and shrinks when it was present.
   */
  lemma ToggleDistinct(s: seq<string>, t: string)
    requires Distinct(s)
    ensures Distinct(Toggle(s, t))
    ensures |Toggle(s, t)| == if t in s then |s| - 1 else |s| + 1
  {
    if t in s {
      RemoveAllDistinct(s, t);
    } else {
      var r := s + [t];
      forall i, j | 0 <= i < j < |r| ensures r[i] != r[j] {
        if j == |s| {
          assert r[i] in s;
        }
      }
    }
  }

  /** Collecting a new text and toggling it again restores the list. */
  lemma ToggleTwice(s: seq<string>, t: string)
    requires t !in s
    ensures Toggle(Toggle(s, t), t) == s
  {
    RemoveAllAbsent(s, t);
    var r := s + [t];
    assert r[..|r| - 1] == s;
  }

  /** In a list without repeats, the text at `i` appears nowhere else. */
  lemma OnlyAt(s: seq<string>, i: nat)
    requires Distinct(s) && i < |s|
    ensures s[i] !in s[..i] && s[i] !in s[i + 1..]
  {
  }

  /** Filtering out a text found only at `i` cuts out just that entry. */
  lemma RemoveAllCutsEntry(s: seq<string>, i: nat)
    requires i < |s| && s[i] !in s[..i] && s[i] !in s[i + 1..]
    ensures RemoveAll(s, s[i]) == s[..i] + s[i + 1..]
  {
    var t, pre, post := s[i], s[..i], s[i + 1..];
    var rest := [t] + post;
    RemoveAllAbsent(pre, t);
    RemoveAllAbsent(post, t);
    RemoveAllAppend(pre, rest, t);
    RemoveAllAppend([t], post, t);
    assert RemoveAll([t], t) == [] by {
      assert [t][..0] == [];
    }
    assert RemoveAll(rest, t) == post;
    SplitAround(s, i);
  }

  /**
   Uncollecting a text of a list without repeats cuts out exactly its one
   entry and leaves the others in their order.
   */
  lemma ToggleCutsEntry(s: seq<string>, i: nat)
    requires Distinct(s) && i < |s|
    ensures Toggle(s, s[i]) == s[..i] + s[i + 1..]
  {
    OnlyAt(s, i);
    RemoveAllCutsEntry(s, i);
  }

  /** `s.filter((_, j) => j !== i)`. */
  function RemoveAt(s: seq<string>, i: int): (r: seq<string>)
    ensures |r| == if 0 <= i < |s| then |s| - 1 else |s|
  {
    if s == [] then []
    else RemoveAt(s[..|s| - 1], i) + (if |s| - 1 != i then [s[|s| - 1]] else [])
  }

  /**
   Removing position `i` cuts exactly that entry out when it exists, and
   changes nothing for any other index.
   */
  lemma {:induction false} RemoveAtSpec(s: seq<string>, i: int)
    ensures 0 <= i < |s| ==> RemoveAt(s, i) == s[..i] + s[i + 1..]
    ensures !(0 <= i < |s|) ==> RemoveAt(s, i) == s
  {
    if s != [] {
      var init, last := s[..|s| - 1], s[|s| - 1];
      RemoveAtSpec(init, i);
      assert RemoveAt(s, i) == RemoveAt(init, i) + (if |s| - 1 != i then [last] else []);
      if i == |s| - 1 {
        assert s[..i] == init && s[i + 1..] == [];
      } else if 0 <= i < |s| - 1 {
        assert s[..i] == init[..i];
        assert s[i + 1..] == init[i + 1..] + [last];
      } else {
        assert s == init + [last];
      }
    }
  }

  /** Removing an entry keeps a list free of repeats. */
  lemma RemoveAtDistinct(s: seq<string>, i: int)
    requires Distinct(s)
    ensures Distinct(RemoveAt(s, i))
  {
    RemoveAtSpec(s, i);
    if 0 <= i < |s| {
      var r := s[..i] + s[i + 1..];
      forall a, b | 0 <= a < b < |r| ensures r[a] != r[b] {
        var a' := if a < i then a else a + 1;
        var b' := if b < i then b else b + 1;
        assert r[a] == s[a'] && r[b] == s[b'];
      }
    }
  }

  // ---------------------------------------------------------------------------
  // Loading

  /** Every keyword the extraction lists points at existing responses only. */
  lemma ExtractedIndicesValid(rs: seq<Response>, vocab: seq<string>)
    ensures ValidIndices(rs, Extracted(rs, vocab))
  {
    var kws := Extracted(rs, vocab);
    ExtractedDescribes(rs, vocab);
    forall n, j | 0 <= n < |kws| && 0 <= j < |kws[n].responses| ensures kws[n].responses[j] < |rs| {
      assert kws[n] in kws;
      var k := kws[n];
      assert Describes(rs, vocab, k);
      assert k.responses[j] in k.responses;
    }
  }

  /**
   The loading effect's pipeline: normalise the rows, extract the keywords
   with the fixed vocabulary, and generate the stars from them.
   */
  method LoadSurvey(rows: seq<Row>, rand: nat -> Draw) returns (loadedResponses: seq<Response>, floatingWords: seq<FloatingWord>)
    ensures loadedResponses == ProcessRawData(rows)
    ensures ValidIndices(loadedResponses, Extracted(loadedResponses, Vocabulary))
    ensures floatingWords == Place(loadedResponses, Extracted(loadedResponses, Vocabulary), rand).words
  {
    loadedResponses := ProcessRawData(rows);
    var keywords := ExtractKeywords(loadedResponses);
    ExtractedIndicesValid(loadedResponses, Vocabulary);
    floatingWords := GenerateFloatingWords(loadedResponses, keywords, rand);
  }

  // ---------------------------------------------------------------------------
  // The page

  class Home {
    var responses: seq<Response>
    var words: seq<FloatingWord>
    var isPaused: bool
    var speedMultiplier: real
    var filterCategory: Category
    var selectedWord: Option<FloatingWord>
    var collectedTexts: seq<string>
    var showCollection: bool

    /** The collection never holds the same paragraph twice. */
    ghost predicate Valid()
      reads this
    {
      Distinct(collectedTexts)
    }

    /** The state before the data is loaded. */
    constructor()
      ensures Valid()
      ensures responses == [] && words == []
      ensures !isPaused && speedMultiplier == 0.6 && filterCategory == All
      ensures selectedWord == None && collectedTexts == [] && !showCollection
    {
      responses := [];
      words := [];
      isPaused := false;
      speedMultiplier := 0.6;
      filterCategory := All;
      selectedWord := None;
      collectedTexts := [];
      showCollection := false;
    }

    /**
     The loading effect: normalises the rows, extracts the keywords and
     generates the stars from them.
     */
    method Load(rows: seq<Row>, rand: nat -> Draw)
      modifies `responses, `words
      ensures responses == ProcessRawData(rows)
      ensures ValidIndices(responses, Extracted(responses, Vocabulary))
      ensures words == Place(responses, Extracted(responses, Vocabulary), rand).words
    {
      responses, words := LoadSurvey(rows, rand);
    }

    /** `handleWordClick`: opens the star's paragraph and pauses the sky. */
    method WordClick(word: FloatingWord)
      modifies this
      ensures selectedWord == Some(word) && isPaused
      ensures responses == old(responses) && words == old(words)
      ensures speedMultiplier == old(speedMultiplier) && filterCategory == old(filterCategory)
      ensures collectedTexts == old(collectedTexts) && showCollection == old(showCollection)
    {
      selectedWord := Some(word);
      isPaused := true;
    }

    /** `handleCloseModal`: closes the paragraph and resumes the sky, whatever the pause state was. */
    method CloseModal()
      modifies this
      ensures selectedWord == None && !isPaused
      ensures responses == old(responses) && words == old(words)
      ensures speedMultiplier == old(speedMultiplier) && filterCategory == old(filterCategory)
      ensures collectedTexts == old(collectedTexts) && showCollection == old(showCollection)
    {
      selectedWord := None;
      isPaused := false;
    }

    /**
     `handleCollect`: collects `text`, or uncollects it when already
     collected. The list stays free of repeats and grows or shrinks by one;
     for the open paragraph, `isCollected` flips.
     */
    method Collect(text: string)
      requires Valid()
      modifies this
      ensures Valid()
      ensures collectedTexts == Toggle(old(collectedTexts), text)
      ensures CollectedCount() == if text in old(collectedTexts) then old(CollectedCount()) - 1
                                  else old(CollectedCount()) + 1
      ensures selectedWord.Some? && selectedWord.value.fullText == text ==> IsCollected() == !old(IsCollected())
      ensures responses == old(responses) && words == old(words) && isPaused == old(isPaused)
      ensures speedMultiplier == old(speedMultiplier) && filterCategory == old(filterCategory)
      ensures selectedWord == old(selectedWord) && showCollection == old(showCollection)
    {
      ToggleDistinct(collectedTexts, text);
      if text !in collectedTexts {
        collectedTexts := collectedTexts + [text];
      } else {
        collectedTexts := RemoveAll(collectedTexts, text);
      }
    }

    /** `handleRemoveCollection`: drops the entry at `index`, if there is one. */
    method RemoveCollection(index: int)
      requires Valid()
      modifies this
      ensures Valid()
      ensures 0 <= index < |old(collectedTexts)| ==>
        collectedTexts == old(collectedTexts)[..index] + old(collectedTexts)[index + 1..]
      ensures !(0 <= index < |old(collectedTexts)|) ==> collectedTexts == old(collectedTexts)
      ensures responses == old(responses) && words == old(words) && isPaused == old(isPaused)
      ensures speedMultiplier == old(speedMultiplier) && filterCategory == old(filterCategory)
      ensures selectedWord == old(selectedWord) && showCollection == old(showCollection)
    {
      RemoveAtSpec(collectedTexts, index);
      RemoveAtDistinct(collectedTexts, index);
      collectedTexts := RemoveAt(collectedTexts, index);
    }

    /** The control panel's pause button. */
    method TogglePause()
      modifies this
      ensures isPaused == !old(isPaused)
      ensures responses == old(responses) && words == old(words)
      ensures speedMultiplier == old(speedMultiplier) && filterCategory == old(filterCategory)
      ensures selectedWord == old(selectedWord) && collectedTexts == old(collectedTexts)
      ensures showCollection == old(showCollection)
    {
      isPaused := !isPaused;
    }

    /** The control panel's speed control. */
    method SetSpeed(speed: real)
      modifies this
      ensures speedMultiplier == speed
      ensures responses == old(responses) && words == old(words) && isPaused == old(isPaused)
      ensures filterCategory == old(filterCategory) && selectedWord == old(selectedWord)
      ensures collectedTexts == old(collectedTexts) && showCollection == old(showCollection)
    {
      speedMultiplier := speed;
    }

    /** The control panel's category filter. */
    method SetFilter(category: Category)
      modifies this
      ensures filterCategory == category
      ensures responses == old(responses) && words == old(words) && isPaused == old(isPaused)
      ensures speedMultiplier == old(speedMultiplier) && selectedWord == old(selectedWord)
      ensures collectedTexts == old(collectedTexts) && showCollection == old(showCollection)
    {
      filterCategory := category;
    }

    /** Opens (`true`) or closes (`false`) the collection dialog. */
    method SetShowCollection(show: bool)
      modifies this
      ensures showCollection == show
      ensures responses == old(responses) && words == old(words) && isPaused == old(isPaused)
      ensures speedMultiplier == old(speedMultiplier) && filterCategory == old(filterCategory)
      ensures selectedWord == old(selectedWord) && collectedTexts == old(collectedTexts)
    {
      showCollection := show;
    }

    /** `isCollected`: a paragraph is open and its full text is in the collection. */
    function IsCollected(): (b: bool)
      reads this
      ensures b <==> selectedWord.Some? &&
                     exists j :: 0 <= j < |collectedTexts| && collectedTexts[j] == selectedWord.value.fullText
      ensures b ==> CollectedCount() >= 1
    {
      selectedWord.Some? && selectedWord.value.fullText in collectedTexts
    }

    /** `collectedCount`, shown on the control panel. */
    function CollectedCount(): (n: nat)
      reads this
      ensures n >= |set t | t in collectedTexts|
      ensures Valid() ==> n == |set t | t in collectedTexts|
    {
      DistinctCard(collectedTexts);
      |collectedTexts|
    }

    /**
     `selectedResponse`: the response of the open star; none when no star is
     open or its index names no response (`undefined` in the page).
     */
    function SelectedResponse(): (o: Option<Response>)
      reads this
      ensures o.Some? ==> selectedWord.Some? && selectedWord.value.responseIndex < |responses|
                          && o.value == responses[selectedWord.value.responseIndex]
      ensures o.None? ==> selectedWord.None? || selectedWord.value.responseIndex >= |responses|
    {
      if selectedWord.Some? && selectedWord.value.responseIndex < |responses|
      then Some(responses[selectedWord.value.responseIndex])
      else None
    }
  }
}
