/** The profanity filter: a fixed list of moderated words, a test for a
    whole-word, case-insensitive occurrence of any of them, and a filter that
    masks every such occurrence with as many `*` as the word has letters.
    Each per-word test is the regular expression `\bword\b` with the `gi`
    flags, so a match is an occurrence whose ends are word boundaries in the
    ASCII sense of `\b` and whose letters agree with the word after ASCII
    case folding. */
module Profanity {
  import opened Common

  const BadWords: seq<string> :=
    ["badword1", "badword2", "offensive", "inappropriate",
     "hate", "violence", "abuse", "stupid", "idiot"]

  /** A character of the regular-expression class `\w`. */
  predicate IsWordChar(c: char)
  {
    'a' <= c <= 'z' || 'A' <= c <= 'Z' || '0' <= c <= '9' || c == '_'
  }

  /** Position `i` holds a word character (positions outside the text do not). */
  predicate WordAt(t: string, i: int)
  {
    0 <= i < |t| && IsWordChar(t[i])
  }

  /** The assertion `\b` holds at position `i`. */
  predicate Boundary(t: string, i: int)
  {
    WordAt(t, i - 1) != WordAt(t, i)
  }

  /** `\bw\b` with the `i` flag matches `t` at position `p`. */
  predicate WholeWordAt(t: string, p: int, w: string)
  {
    0 <= p && p + |w| <= |t| &&
    Boundary(t, p) && Boundary(t, p + |w|) &&
    forall k :: 0 <= k < |w| ==> LowerChar(t[p + k]) == LowerChar(w[k])
  }

  /** A word the filter can be asked about: non-empty and made of word characters,
      as every listed word is. */
  predicate WellFormedWord(w: string)
  {
    |w| > 0 && forall k :: 0 <= k < |w| ==> IsWordChar(w[k])
  }

  predicate AllWellFormed(ws: seq<string>)
  {
    forall i :: 0 <= i < |ws| ==> WellFormedWord(ws[i])
  }

  lemma BadWordsWellFormed()
    ensures AllWellFormed(BadWords)
  {
    assert WellFormedWord("badword1");
    assert WellFormedWord("badword2");
    assert WellFormedWord("offensive");
    assert WellFormedWord("inappropriate");
    assert WellFormedWord("hate");
    assert WellFormedWord("violence");
    assert WellFormedWord("abuse");
    assert WellFormedWord("stupid");
    assert WellFormedWord("idiot");
  }

  // ---------------------------------------------------------------------
  // containsProfanity

  /** `regex.test(t)` for a freshly built `\bw\b` regex: some match at or after `from`. */
  function TestFrom(t: string, w: string, from: nat): (r: bool)
    requires from <= |t| + 1
    ensures r <==> exists q :: from <= q && WholeWordAt(t, q, w)
    decreases |t| + 1 - from
  {
    if from > |t| then false
    else WholeWordAt(t, from, w) || TestFrom(t, w, from + 1)
  }

  /** `ws.some(word => regex.test(t))`. */
  function SomeWordOccurs(t: string, ws: seq<string>): (r: bool)
    ensures r <==> exists i, q :: 0 <= i < |ws| && WholeWordAt(t, q, ws[i])
  {
    if ws == [] then false
    else if TestFrom(t, ws[0], 0) then true
    else
      var r := SomeWordOccurs(t, ws[1..]);
      assert forall i, q :: 1 <= i < |ws| && WholeWordAt(t, q, ws[i]) ==> WholeWordAt(t, q, ws[1..][i - 1]);
      r
  }

  /** `containsProfanity(text)`: false for the empty text, otherwise whether some
      listed word occurs in it as a whole word, ignoring case. */
  function ContainsProfanity(text: string): (r: bool)
    ensures text == "" ==> !r
    ensures r <==> exists i, q :: 0 <= i < |BadWords| && WholeWordAt(text, q, BadWords[i])
  {
    BadWordsWellFormed();
    if text == "" then false else SomeWordOccurs(text, BadWords)
  }

  /** The same test applied to a request field that may be absent
      (`containsProfanity(undefined)` is false). */
  function ContainsProfanityOpt(text: Option<string>): (r: bool)
    ensures text.None? ==> !r
    ensures r <==> text.Some? && exists i, q :: 0 <= i < |BadWords| && WholeWordAt(text.value, q, BadWords[i])
  {
    text.Some? && ContainsProfanity(text.value)
  }

  /** `containsProfanity` on any JavaScript value: the `typeof text !== 'string'`
      guard makes it false for everything but a string. */
  function ContainsProfanityValue(v: JsValue): (r: bool)
    ensures !v.JsString? ==> !r
    ensures r <==> v.JsString? && exists i, q :: 0 <= i < |BadWords| && WholeWordAt(v.s, q, BadWords[i])
  {
    v.JsString? && ContainsProfanity(v.s)
  }

  // ---------------------------------------------------------------------
  // filter

  function Stars(n: nat): (r: string)
    ensures |r| == n && forall i :: 0 <= i < n ==> r[i] == '*'
  {
    if n == 0 then "" else Stars(n - 1) + "*"
  }

  /** `t.replace(/\bw\b/gi, stars)` restricted to the suffix that starts at `p`:
      the scan tries every position from left to right, replaces a match and
      resumes after it. Matching always looks at the original text `t`. */
  function ReplaceFrom(t: string, w: string, p: nat): (r: string)
    requires |w| > 0 && p <= |t|
    ensures |r| == |t| - p
    decreases |t| - p
  {
    if p == |t| then ""
    else if WholeWordAt(t, p, w) then Stars(|w|) + ReplaceFrom(t, w, p + |w|)
    else [t[p]] + ReplaceFrom(t, w, p + 1)
  }

  /** One step of the filter's loop: every match of `w` masked. */
  function MaskWord(t: string, w: string): (r: string)
    requires |w| > 0
    ensures |r| == |t|
    ensures WellFormedWord(w) ==> forall k :: 0 <= k < |t| ==> r[k] == if Covered(t, w, k) then '*' else t[k]
  {
    assert WellFormedWord(w) ==> forall k :: 0 <= k < |t| ==> ReplaceFrom(t, w, 0)[k] == if Covered(t, w, k) then '*' else t[k] by {
      if WellFormedWord(w) {
        forall k | 0 <= k < |t| ensures ReplaceFrom(t, w, 0)[k] == if Covered(t, w, k) then '*' else t[k] {
          ReplaceFromAt(t, w, 0, k);
          assert CoveredFrom(t, w, k, 0) <==> Covered(t, w, k);
        }
      }
    }
    ReplaceFrom(t, w, 0)
  }

  /** What the filter's loop computes: the words of `ws` masked one after the other. */
  function FilterWith(t: string, ws: seq<string>): (r: string)
    requires AllWellFormed(ws)
    ensures |r| == |t|
    decreases |ws|
  {
    if ws == [] then t else FilterWith(MaskWord(t, ws[0]), ws[1..])
  }

  /** `filter(text)`: the early return for the empty text, then the loop that
      reassigns `filteredText` once per listed word. */
  method Filter(text: string) returns (r: string)
    ensures |r| == |text|
    ensures r == MaskSet(text, MaskedSet(text, BadWords))
  {
    BadWordsWellFormed();
    if text == "" {
      return text;
    }
    r := text;
    var i := 0;
    while i < |BadWords|
      invariant 0 <= i <= |BadWords|
      invariant FilterWith(r, BadWords[i..]) == FilterWith(text, BadWords)
    {
      assert BadWords[i..][1..] == BadWords[i + 1..];
      r := MaskWord(r, BadWords[i]);
      i := i + 1;
    }
    FilterWithMasks(text, BadWords);
  }

  /** `filter` on any JavaScript value: anything but a string comes back as it
      is; a string is filtered. */
  method FilterValue(v: JsValue) returns (r: JsValue)
    ensures !v.JsString? ==> r == v
    ensures v.JsString? ==> r.JsString? && |r.s| == |v.s| && r.s == MaskSet(v.s, MaskedSet(v.s, BadWords))
  {
    if !v.JsString? {
      return v;
    }
    var f := Filter(v.s);
    r := JsString(f);
  }

  // ---------------------------------------------------------------------
  // What a match covers

  /** Position `k` lies inside some match of `w` in `t`. */
  ghost predicate Covered(t: string, w: string, k: int)
  {
    exists q :: q <= k < q + |w| && WholeWordAt(t, q, w)
  }

  /** Position `k` lies inside a match of `w` that starts at or after `p`. */
  ghost predicate CoveredFrom(t: string, w: string, k: int, p: int)
  {
    exists q :: p <= q <= k < q + |w| && WholeWordAt(t, q, w)
  }

  /** The positions of `t` that lie inside a match of one of `ws`. */
  ghost function MaskedSet(t: string, ws: seq<string>): set<int>
  {
    set k | 0 <= k < |t| && MaskedAt(t, ws, k)
  }

  /** Position `k` lies inside a match of one of `ws`. */
  ghost predicate MaskedAt(t: string, ws: seq<string>, k: int)
  {
    exists i :: 0 <= i < |ws| && Covered(t, ws[i], k)
  }

  /** `t` with the positions in `s` replaced by `*`. */
  ghost function MaskSet(t: string, s: set<int>): (r: string)
    ensures |r| == |t|
  {
    seq(|t|, k requires 0 <= k < |t| => if k in s then '*' else t[k])
  }

  /** Positions of an occurrence of a well-formed word hold word characters. */
  lemma MatchedCharsAreWordChars(t: string, q: int, w: string)
    requires WellFormedWord(w) && WholeWordAt(t, q, w)
    ensures forall j :: q <= j < q + |w| ==> WordAt(t, j)
  {
    forall j | q <= j < q + |w| ensures WordAt(t, j) {
      assert LowerChar(t[j]) == LowerChar(w[j - q]);
    }
  }

  /** Two matches that overlap are the same maximal run of word characters. */
  lemma {:induction false} MatchesCoincide(t: string, q1: int, w1: string, q2: int, w2: string)
    requires WellFormedWord(w1) && WellFormedWord(w2)
    requires WholeWordAt(t, q1, w1) && WholeWordAt(t, q2, w2)
    requires q1 <= q2 < q1 + |w1|
    ensures q1 == q2 && |w1| == |w2|
  {
    MatchedCharsAreWordChars(t, q1, w1);
    MatchedCharsAreWordChars(t, q2, w2);
  }

  /** Past a match, the positions covered from its start are those covered
      from its end. */
  lemma CoveredPastMatch(t: string, w: string, p: nat, k: int)
    requires WellFormedWord(w) && WholeWordAt(t, p, w) && p + |w| <= k
    ensures CoveredFrom(t, w, k, p) <==> CoveredFrom(t, w, k, p + |w|)
  {
    if CoveredFrom(t, w, k, p) {
      var q :| p <= q <= k < q + |w| && WholeWordAt(t, q, w);
      if q < p + |w| {
        MatchesCoincide(t, p, w, q, w);
      }
      assert CoveredFrom(t, w, k, p + |w|);
    }
  }

  /** Where no match starts, the positions covered from there are those
      covered from the next one. */
  lemma CoveredPastMiss(t: string, w: string, p: nat, k: int)
    requires !WholeWordAt(t, p, w) && p < k
    ensures CoveredFrom(t, w, k, p) <==> CoveredFrom(t, w, k, p + 1)
  {
    if CoveredFrom(t, w, k, p) {
      var q :| p <= q <= k < q + |w| && WholeWordAt(t, q, w);
      assert q != p;
      assert CoveredFrom(t, w, k, p + 1);
    }
  }

  lemma {:induction false} ReplaceFromAt(t: string, w: string, p: nat, k: int)
    requires WellFormedWord(w) && p <= k < |t|
    ensures ReplaceFrom(t, w, p)[k - p] == if CoveredFrom(t, w, k, p) then '*' else t[k]
    decreases |t| - p
  {
    if WholeWordAt(t, p, w) {
      var rest := ReplaceFrom(t, w, p + |w|);
      assert ReplaceFrom(t, w, p) == Stars(|w|) + rest;
      if k < p + |w| {
        assert CoveredFrom(t, w, k, p);
      } else {
        ReplaceFromAt(t, w, p + |w|, k);
        CoveredPastMatch(t, w, p, k);
        assert ReplaceFrom(t, w, p)[k - p] == rest[k - p - |w|];
      }
    } else {
      var rest := ReplaceFrom(t, w, p + 1);
      assert ReplaceFrom(t, w, p) == [t[p]] + rest;
      if k > p {
        ReplaceFromAt(t, w, p + 1, k);
        CoveredPastMiss(t, w, p, k);
        assert ReplaceFrom(t, w, p)[k - p] == rest[k - p - 1];
      } else {
        assert !CoveredFrom(t, w, k, p);
      }
    }
  }

  /** Masking one word replaces exactly the positions its matches cover. */
  lemma MaskWordIsMaskSet(t: string, w: string)
    requires WellFormedWord(w)
    ensures MaskWord(t, w) == MaskSet(t, MaskedSet(t, [w]))
  {
    var r := MaskWord(t, w);
    var m := MaskSet(t, MaskedSet(t, [w]));
    forall k | 0 <= k < |t| ensures r[k] == m[k] {
      ReplaceFromAt(t, w, 0, k);
      assert CoveredFrom(t, w, k, 0) <==> Covered(t, w, k);
      assert k in MaskedSet(t, [w]) <==> Covered(t, w, k) by {
        assert [w][0] == w;
      }
    }
  }

  /** A set of positions that consists of whole runs of word characters. */
  ghost predicate RunClosed(t: string, s: set<int>)
  {
    forall k :: k in s ==> WordAt(t, k) && (WordAt(t, k + 1) ==> k + 1 in s) && (WordAt(t, k - 1) ==> k - 1 in s)
  }

  lemma MaskedSetRunClosed(t: string, ws: seq<string>)
    requires AllWellFormed(ws)
    ensures RunClosed(t, MaskedSet(t, ws))
  {
    var s := MaskedSet(t, ws);
    forall k | k in s
      ensures WordAt(t, k) && (WordAt(t, k + 1) ==> k + 1 in s) && (WordAt(t, k - 1) ==> k - 1 in s)
    {
      var i :| 0 <= i < |ws| && Covered(t, ws[i], k);
      var q :| q <= k < q + |ws[i]| && WholeWordAt(t, q, ws[i]);
      MatchedCharsAreWordChars(t, q, ws[i]);
      if WordAt(t, k + 1) {
        assert k + 1 < q + |ws[i]|;
        assert Covered(t, ws[i], k + 1);
      }
      if WordAt(t, k - 1) {
        assert q <= k - 1;
        assert Covered(t, ws[i], k - 1);
      }
    }
  }

  /** A run-closed set that contains some position of a match contains its start. */
  lemma {:induction false} RunClosedReachesStart(t: string, s: set<int>, q: int, w: string, j: int)
    requires WellFormedWord(w) && WholeWordAt(t, q, w) && RunClosed(t, s)
    requires q <= j < q + |w| && j in s
    ensures q in s
    decreases j - q
  {
    if j > q {
      MatchedCharsAreWordChars(t, q, w);
      assert WordAt(t, j - 1);
      RunClosedReachesStart(t, s, q, w, j - 1);
    }
  }

  /** After masking a run-closed set of positions, a word matches exactly where it
      matched before at a position that was not masked. */
  lemma MatchAfterMask(t: string, s: set<int>, q: int, w: string)
    requires WellFormedWord(w) && RunClosed(t, s)
    ensures WholeWordAt(MaskSet(t, s), q, w) <==> WholeWordAt(t, q, w) && q !in s
  {
    var m := MaskSet(t, s);
    if WholeWordAt(m, q, w) {
      MatchedCharsAreWordChars(m, q, w);
      forall j | q <= j < q + |w| ensures j !in s && m[j] == t[j] {
        assert WordAt(m, j);
      }
      assert forall k :: 0 <= k < |w| ==> LowerChar(t[q + k]) == LowerChar(w[k]) by {
        forall k | 0 <= k < |w| ensures LowerChar(t[q + k]) == LowerChar(w[k]) {
          assert m[q + k] == t[q + k];
        }
      }
      assert q - 1 !in s;
      assert q + |w| !in s;
      assert WordAt(t, q - 1) == WordAt(m, q - 1);
      assert WordAt(t, q + |w|) == WordAt(m, q + |w|);
      assert WordAt(t, q) == WordAt(m, q);
      assert WordAt(t, q + |w| - 1) == WordAt(m, q + |w| - 1);
    } else if WholeWordAt(t, q, w) && q !in s {
      MatchedCharsAreWordChars(t, q, w);
      forall j | q <= j < q + |w| ensures j !in s {
        if j in s {
          RunClosedReachesStart(t, s, q, w, j);
        }
      }
      assert forall j :: q <= j < q + |w| ==> m[j] == t[j];
      assert false;
    }
  }

  /** The words masked one after the other mask exactly the positions covered by a
      match, in the original text, of one of them. */
  lemma {:induction false} FilterWithMasks(t: string, ws: seq<string>)
    requires AllWellFormed(ws)
    ensures FilterWith(t, ws) == MaskSet(t, MaskedSet(t, ws))
    decreases |ws|
  {
    if ws == [] {
      assert MaskSet(t, MaskedSet(t, ws)) == t;
    } else {
      var a, rest := ws[0], ws[1..];
      var sa := MaskedSet(t, [a]);
      var m := MaskWord(t, a);
      MaskWordIsMaskSet(t, a);
      MaskedSetRunClosed(t, [a]);
      FilterWithMasks(m, rest);
      var lhs := MaskSet(m, MaskedSet(m, rest));
      var rhs := MaskSet(t, MaskedSet(t, ws));
      forall k | 0 <= k < |t| ensures lhs[k] == rhs[k] {
        if k in sa {
          assert [a][0] == a;
          assert Covered(t, ws[0], k);
          assert k in MaskedSet(t, ws);
        } else {
          assert m[k] == t[k];
          CoveredAfterMask(t, sa, a, rest, k);
          assert k in MaskedSet(m, rest) <==> k in MaskedSet(t, ws) by {
            assert k !in MaskedSet(t, [a]);
            assert !Covered(t, ws[0], k) by { assert [a][0] == a; }
            assert forall i :: 1 <= i < |ws| ==> ws[i] == rest[i - 1];
          }
        }
      }
    }
  }

  /** Helper of FilterWithMasks: outside the positions masked for `a`, the later words
      cover the same positions in the masked text as in the original. */
  lemma CoveredAfterMask(t: string, sa: set<int>, a: string, rest: seq<string>, k: int)
    requires WellFormedWord(a) && AllWellFormed(rest)
    requires sa == MaskedSet(t, [a]) && RunClosed(t, sa)
    requires 0 <= k < |t| && k !in sa
    ensures (exists i :: 0 <= i < |rest| && Covered(MaskSet(t, sa), rest[i], k))
        <==> (exists i :: 0 <= i < |rest| && Covered(t, rest[i], k))
  {
    var m := MaskSet(t, sa);
    if i :| 0 <= i < |rest| && Covered(m, rest[i], k) {
      var q :| q <= k < q + |rest[i]| && WholeWordAt(m, q, rest[i]);
      MatchAfterMask(t, sa, q, rest[i]);
      assert Covered(t, rest[i], k);
    }
    if i :| 0 <= i < |rest| && Covered(t, rest[i], k) {
      var q :| q <= k < q + |rest[i]| && WholeWordAt(t, q, rest[i]);
      if q in sa {
        assert [a][0] == a;
        var qa :| qa <= q < qa + |a| && WholeWordAt(t, qa, a);
        MatchesCoincide(t, qa, a, q, rest[i]);
        assert false;
      }
      MatchAfterMask(t, sa, q, rest[i]);
      assert Covered(m, rest[i], k);
    }
  }

  // ---------------------------------------------------------------------
  // Properties of the filter

  /** `filter` keeps the length of the text. */
  lemma FilterKeepsLength(text: string)
    ensures |MaskSet(text, MaskedSet(text, BadWords))| == |text|
  {
  }

  /** `filter` only changes characters covered by a whole-word match of a listed
      word, and turns each of those into `*`. */
  lemma FilterChangesOnlyMatches(text: string, k: int)
    requires 0 <= k < |text|
    ensures var f := MaskSet(text, MaskedSet(text, BadWords));
      f[k] == (if exists i :: 0 <= i < |BadWords| && Covered(text, BadWords[i], k) then '*' else text[k])
  {
  }

  /** A text without profanity passes the filter unchanged. */
  lemma {:induction false} CleanTextUnchanged(text: string)
    requires !ContainsProfanity(text)
    ensures MaskSet(text, MaskedSet(text, BadWords)) == text
  {
    assert MaskedSet(text, BadWords) == {};
  }

  /** No listed word survives the filter. */
  lemma {:induction false} FilterRemovesEveryMatch(text: string)
    ensures !ContainsProfanity(MaskSet(text, MaskedSet(text, BadWords)))
  {
    BadWordsWellFormed();
    var s := MaskedSet(text, BadWords);
    var f := MaskSet(text, s);
    MaskedSetRunClosed(text, BadWords);
    if ContainsProfanity(f) {
      var i, q :| 0 <= i < |BadWords| && WholeWordAt(f, q, BadWords[i]);
      MatchAfterMask(text, s, q, BadWords[i]);
      assert Covered(text, BadWords[i], q);
    }
  }

  /** Filtering twice is filtering once. */
  lemma FilterIdempotent(text: string)
    ensures var f := MaskSet(text, MaskedSet(text, BadWords));
      MaskSet(f, MaskedSet(f, BadWords)) == f
  {
    FilterRemovesEveryMatch(text);
    CleanTextUnchanged(MaskSet(text, MaskedSet(text, BadWords)));
  }

  /** In a text made only of word characters, a match spans the whole text. */
  lemma MatchInWordOnlyText(t: string, q: int, w: string)
    requires forall j :: 0 <= j < |t| ==> IsWordChar(t[j])
    requires |w| > 0
    ensures WholeWordAt(t, q, w) ==> q == 0 && |w| == |t| && LowerChar(t[0]) == LowerChar(w[0])
  {
    assert 0 < q < |t| ==> WordAt(t, q - 1) && WordAt(t, q);
    assert 0 < q + |w| < |t| ==> WordAt(t, q + |w| - 1) && WordAt(t, q + |w|);
  }

  /** A listed word inside a longer word is neither detected nor masked. */
  lemma EmbeddedWordIgnored()
    ensures !ContainsProfanity("stupidity")
    ensures MaskSet("stupidity", MaskedSet("stupidity", BadWords)) == "stupidity"
  {
    var t := "stupidity";
    BadWordsWellFormed();
    forall i, q | 0 <= i < |BadWords| ensures !WholeWordAt(t, q, BadWords[i]) {
      MatchInWordOnlyText(t, q, BadWords[i]);
      assert |BadWords[i]| == 9 ==> i == 2;
    }
    CleanTextUnchanged(t);
  }
}
