/**
 The JavaScript string built-ins that the survey pipeline relies on, written
 out so that the rest of the model can reason about them:
 `String.prototype.includes`, `String.prototype.trim`, `split` on a character
 class, and the decimal rendering of a counter inside a template literal.
 */
module Text {

  /** `p` is a prefix of `s`. */
  predicate IsPrefix(p: string, s: string)
  {
    |p| <= |s| && s[..|p|] == p
  }

  /** `term` occurs in `text` starting at offset `i`. */
  ghost predicate OccursAt(text: string, term: string, i: int)
  {
    0 <= i && i + |term| <= |text| && text[i..i + |term|] == term
  }

  /** `text.includes(term)`: some offset of `text` starts a copy of `term`. */
  predicate Contains(text: string, term: string): (b: bool)
    ensures b ==> |term| <= |text|
    ensures IsPrefix(term, text) ==> b
    decreases |text|
  {
    IsPrefix(term, text) || (|text| > 0 && Contains(text[1..], term))
  }

  /** `Contains` holds exactly when `term` occurs at some offset of `text`. */
  lemma {:induction false} ContainsIff(text: string, term: string)
    ensures Contains(text, term) <==> exists i :: OccursAt(text, term, i)
    decreases |text|
  {
    if Contains(text, term) {
      if IsPrefix(term, text) {
        assert OccursAt(text, term, 0);
      } else {
        ContainsIff(text[1..], term);
        var i :| OccursAt(text[1..], term, i);
        OccursShift(text, term, i);
      }
    }
    if exists i :: OccursAt(text, term, i) {
      var i :| OccursAt(text, term, i);
      if i > 0 {
        OccursShift(text, term, i - 1);
        ContainsIff(text[1..], term);
      }
    }
  }

  /** An occurrence in the text without its first character is one offset further on in the text. */
  lemma OccursShift(text: string, term: string, i: int)
    requires |text| > 0
    ensures OccursAt(text[1..], term, i) <==> i >= 0 && OccursAt(text, term, i + 1)
  {
    if 0 <= i && i + |term| <= |text| - 1 {
      assert text[1..][i..i + |term|] == text[i + 1..i + 1 + |term|];
    }
  }

  /** A text contains every piece cut out of it. */
  lemma ContainsSlice(text: string, i: nat, j: nat)
    requires i <= j <= |text|
    ensures Contains(text, text[i..j])
  {
    assert OccursAt(text, text[i..j], i);
    ContainsIff(text, text[i..j]);
  }

  /** Containment is transitive: a piece of a piece is a piece. */
  lemma ContainsTransitive(a: string, b: string, c: string)
    requires Contains(a, b) && Contains(b, c)
    ensures Contains(a, c)
  {
    ContainsIff(a, b);
    ContainsIff(b, c);
    var i :| OccursAt(a, b, i);
    var j :| OccursAt(b, c, j);
    assert c == a[i + j..i + j + |c|] by {
      forall k | 0 <= k < |c| ensures c[k] == a[i + j + k] {
        assert c[k] == b[j + k] == a[i + j + k];
      }
    }
    assert OccursAt(a, c, i + j);
    ContainsIff(a, c);
  }

  // ---------------------------------------------------------------------------
  // trim

  /**
   The characters `String.prototype.trim` removes: the ECMAScript WhiteSpace
   and LineTerminator characters.
   */
  predicate IsSpace(c: char)
  {
    || c == '\t' || c == '\n' || c == '\U{000B}' || c == '\U{000C}' || c == '\r'
    || c == ' ' || c == '\U{00A0}' || c == '\U{1680}'
    || ('\U{2000}' <= c <= '\U{200A}')
    || c == '\U{2028}' || c == '\U{2029}' || c == '\U{202F}' || c == '\U{205F}'
    || c == '\U{3000}' || c == '\U{FEFF}'
  }

  ghost predicate AllSpace(s: string)
  {
    forall k :: 0 <= k < |s| ==> IsSpace(s[k])
  }

  /** No leading and no trailing white space. */
  predicate IsTrimmed(s: string)
  {
    s == [] || (!IsSpace(s[0]) && !IsSpace(s[|s| - 1]))
  }

  /** The length of the white-space run at the start of `s`. */
  function LeadingSpace(s: string): (k: nat)
    ensures k <= |s|
  {
    if s != [] && IsSpace(s[0]) then 1 + LeadingSpace(s[1..]) else 0
  }

  /** The run is all white space and as long as it can be. */
  lemma {:induction false} LeadingSpaceMaximal(s: string)
    ensures AllSpace(s[..LeadingSpace(s)])
    ensures LeadingSpace(s) < |s| ==> !IsSpace(s[LeadingSpace(s)])
  {
    if s != [] && IsSpace(s[0]) {
      LeadingSpaceMaximal(s[1..]);
      var k := LeadingSpace(s);
      assert s[..k] == [s[0]] + s[1..][..k - 1];
    }
  }

  /** The length of the white-space run at the end of `s`. */
  function TrailingSpace(s: string): (k: nat)
    ensures k <= |s|
  {
    if s != [] && IsSpace(s[|s| - 1]) then 1 + TrailingSpace(s[..|s| - 1]) else 0
  }

  /** The run is all white space and as long as it can be. */
  lemma {:induction false} TrailingSpaceMaximal(s: string)
    ensures AllSpace(s[|s| - TrailingSpace(s)..])
    ensures TrailingSpace(s) < |s| ==> !IsSpace(s[|s| - TrailingSpace(s) - 1])
  {
    if s != [] && IsSpace(s[|s| - 1]) {
      TrailingSpaceMaximal(s[..|s| - 1]);
      var k := TrailingSpace(s);
      assert s[|s| - k..] == s[..|s| - 1][|s| - k..] + [s[|s| - 1]];
    }
  }

  /** `s.trim()`: `s` without its leading and trailing white space. */
  function Trim(s: string): (r: string)
    ensures |r| <= |s|
    ensures |r| == |s| <==> IsTrimmed(s)
  {
    var rest := s[LeadingSpace(s)..];
    rest[..|rest| - TrailingSpace(rest)]
  }

  /**
   `Trim` cuts off white space only, and leaves a trimmed string: `s` is the
   trimmed result with all-white-space text on either side.
   */
  lemma TrimSpec(s: string)
    ensures IsTrimmed(Trim(s))
    ensures exists i, j :: 0 <= i <= j <= |s| && Trim(s) == s[i..j]
                           && AllSpace(s[..i]) && AllSpace(s[j..])
  {
    var i := LeadingSpace(s);
    var rest := s[i..];
    var t := TrailingSpace(rest);
    LeadingSpaceMaximal(s);
    TrailingSpaceMaximal(rest);
    var j := i + |rest| - t;
    assert Trim(s) == s[i..j];
    assert s[j..] == rest[|rest| - t..];
    if i < j {
      assert Trim(s)[0] == s[i];
      assert Trim(s)[|Trim(s)| - 1] == rest[|rest| - t - 1];
    }
  }

  /** Trimming a trimmed string changes nothing. */
  lemma TrimTrimmed(s: string)
    requires IsTrimmed(s)
    ensures Trim(s) == s
  {
    assert LeadingSpace(s) == 0;
    assert TrailingSpace(s) == 0;
  }

  /** The trimmed form of a string is a piece of it. */
  lemma TrimInside(s: string)
    ensures Contains(s, Trim(s))
  {
    TrimSpec(s);
    var i, j :| 0 <= i <= j <= |s| && Trim(s) == s[i..j];
    ContainsSlice(s, i, j);
  }

  // ---------------------------------------------------------------------------
  // split on a set of single-character separators

  /** The separators of the character class `[。，、！？\n]`. */
  predicate IsBreak(c: char)
  {
    c == '。' || c == '，' || c == '、' || c == '！' || c == '？' || c == '\n'
  }

  ghost predicate NoBreak(s: string)
  {
    forall k :: 0 <= k < |s| ==> !IsBreak(s[k])
  }

  /** The separator characters of `s`, in order. */
  function BreaksOf(s: string): seq<char>
  {
    if s == [] then []
    else (if IsBreak(s[0]) then [s[0]] else []) + BreaksOf(s[1..])
  }

  /** `s.split(/[。，、！？\n]/)`: the maximal runs between separators. */
  function Split(s: string): (pieces: seq<string>)
    ensures |pieces| == |BreaksOf(s)| + 1
    ensures forall p <- pieces :: NoBreak(p)
  {
    if s == [] then [""]
    else
      var rest := Split(s[1..]);
      if IsBreak(s[0]) then [""] + rest
      else
        var first := [s[0]] + rest[0];
        assert NoBreak(first) by {
          assert NoBreak(rest[0]);
          forall k | 0 < k < |first| ensures !IsBreak(first[k]) {
            assert first[k] == rest[0][k - 1];
          }
        }
        [first] + rest[1..]
  }

  /** Puts the separators back between the pieces. */
  function Unsplit(pieces: seq<string>, seps: seq<char>): string
    requires |pieces| == |seps| + 1
  {
    if seps == [] then pieces[0]
    else pieces[0] + [seps[0]] + Unsplit(pieces[1..], seps[1..])
  }

  /** Splitting loses nothing: the pieces and the separators rebuild the text. */
  lemma {:induction false} SplitUnsplit(s: string)
    ensures Unsplit(Split(s), BreaksOf(s)) == s
  {
    if s != [] {
      SplitUnsplit(s[1..]);
      var rest := Split(s[1..]);
      var seps := BreaksOf(s[1..]);
      assert s == [s[0]] + s[1..];
      if IsBreak(s[0]) {
        assert (Split(s))[1..] == rest;
        assert BreaksOf(s) == [s[0]] + seps;
      } else {
        assert Split(s)[0] == [s[0]] + rest[0];
        assert Split(s)[1..] == rest[1..];
        assert BreaksOf(s) == seps;
        if seps != [] {
          assert Unsplit(Split(s), seps)
              == [s[0]] + (rest[0] + [seps[0]] + Unsplit(rest[1..], seps[1..]));
        }
      }
    }
  }

  /** Every piece of a split is a piece of the text. */
  lemma {:induction false} SplitInside(s: string, k: nat)
    requires k < |Split(s)|
    ensures Contains(s, Split(s)[k])
  {
    if s != [] {
      var rest := Split(s[1..]);
      if IsBreak(s[0]) {
        if k == 0 {
          ContainsSlice(s, 0, 0);
        } else {
          SplitInside(s[1..], k - 1);
          ContainsTransitive(s, s[1..], rest[k - 1]);
          ContainsSlice(s, 1, |s|);
        }
      } else if k == 0 {
        SplitFirstIsPrefix(s[1..]);
        assert Split(s)[0] == s[..1 + |rest[0]|];
        ContainsSlice(s, 0, 1 + |rest[0]|);
      } else {
        SplitInside(s[1..], k);
        ContainsSlice(s, 1, |s|);
        ContainsTransitive(s, s[1..], rest[k]);
      }
    } else {
      ContainsSlice(s, 0, 0);
    }
  }

  /** The first piece of a split is a prefix of the text. */
  lemma {:induction false} SplitFirstIsPrefix(s: string)
    ensures IsPrefix(Split(s)[0], s)
  {
    if s != [] && !IsBreak(s[0]) {
      SplitFirstIsPrefix(s[1..]);
    }
  }

  // ---------------------------------------------------------------------------
  // decimal rendering of a counter (`${n}` in a template literal)

  function DigitChar(d: nat): (c: char)
    requires d < 10
    ensures '0' <= c <= '9'
  {
    ['0', '1', '2', '3', '4', '5', '6', '7', '8', '9'][d]
  }

  function DigitValue(c: char): nat
    requires '0' <= c <= '9'
  {
    (c as int - '0' as int) as nat
  }

  ghost predicate AllDigits(s: string)
  {
    forall k :: 0 <= k < |s| ==> '0' <= s[k] <= '9'
  }

  /** The decimal numeral of `n`, without leading zeros. */
  function NatToString(n: nat): (s: string)
    ensures |s| >= 1 && AllDigits(s)
    ensures |s| > 1 ==> s[0] != '0'
  {
    if n < 10 then [DigitChar(n)]
    else NatToString(n / 10) + [DigitChar(n % 10)]
  }

  /** Reads a decimal numeral back. */
  function ParseNat(s: string): nat
    requires AllDigits(s)
  {
    if s == [] then 0
    else 10 * ParseNat(s[..|s| - 1]) + DigitValue(s[|s| - 1])
  }

  /** Reading back a rendered counter gives the counter. */
  lemma {:induction false} ParseNatToString(n: nat)
    ensures ParseNat(NatToString(n)) == n
  {
    var s := NatToString(n);
    if n < 10 {
      assert s[..0] == [];
    } else {
      ParseNatToString(n / 10);
      assert s[..|s| - 1] == NatToString(n / 10);
    }
  }

  /** Distinct counters render as distinct numerals. */
  lemma NatToStringInjective(a: nat, b: nat)
    requires NatToString(a) == NatToString(b)
    ensures a == b
  {
    ParseNatToString(a);
    ParseNatToString(b);
  }
}
