/** The two text keys the content scripts compare labels with:
    `normalizeText` (lower-case, collapse white space, trim) and
    `normalizeComparableText` (the same after Unicode NFD and removal of combining marks). */
module Normalize {
  import opened Wrappers
  import opened Text

  /** No white space at either end. */
  predicate Trimmed(s: string) {
    |s| == 0 || (!IsSpace(s[0]) && !IsSpace(s[|s| - 1]))
  }

  /** Every white-space character is a plain space and no two are adjacent. */
  predicate Collapsed(s: string) {
    forall i | 0 <= i < |s| && IsSpace(s[i]) :: s[i] == ' ' && (i + 1 < |s| ==> !IsSpace(s[i + 1]))
  }

  /** `toLowerCase` leaves every character unchanged. */
  predicate LowerFixed(s: string) {
    forall i | 0 <= i < |s| :: Lower(s[i]) == s[i]
  }

  /** The shape of every `normalizeText` result. */
  predicate Normalized(s: string) {
    Trimmed(s) && Collapsed(s) && LowerFixed(s)
  }

  /** `s.toLowerCase()`. */
  function LowerAll(s: string): (r: string)
    ensures |r| == |s| && forall i | 0 <= i < |s| :: r[i] == Lower(s[i])
  {
    seq(|s|, i requires 0 <= i < |s| => Lower(s[i]))
  }

  /** Drops the leading white space. */
  function TrimStart(s: string): (r: string)
    ensures |r| <= |s| && r == s[|s| - |r|..]
    ensures forall k | 0 <= k < |s| - |r| :: IsSpace(s[k])
    ensures |r| > 0 ==> !IsSpace(r[0])
  {
    if |s| > 0 && IsSpace(s[0]) then TrimStart(s[1..]) else s
  }

  /** The index of the first non-white-space character at or after `i` (or `|s|`). */
  function SpacesFrom(s: string, i: nat): (n: nat)
    requires i <= |s|
    ensures i <= n <= |s| && (n < |s| ==> !IsSpace(s[n]))
    ensures forall k | i <= k < n :: IsSpace(s[k])
    decreases |s| - i
  {
    if i < |s| && IsSpace(s[i]) then SpacesFrom(s, i + 1) else i
  }

  /** The end of `s[a..j]` once its trailing white space is dropped. */
  function SpacesBefore(s: string, a: nat, j: nat): (n: nat)
    requires a <= j <= |s|
    ensures a <= n <= j && (n > a ==> !IsSpace(s[n - 1]))
    ensures forall k | n <= k < j :: IsSpace(s[k])
  {
    if j > a && IsSpace(s[j - 1]) then SpacesBefore(s, a, j - 1) else j
  }

  /** `s.trim()`: the result is the slice of `s` left after removing white space from both
      ends, and nothing else. */
  function Trim(s: string): (r: string)
    ensures Trimmed(r)
    ensures (exists a, b | 0 <= a <= b <= |s| :: (r == s[a..b]
      && (forall k | 0 <= k < a :: IsSpace(s[k])) && (forall k | b <= k < |s| :: IsSpace(s[k]))))
    ensures forall c | c in r :: c in s
  {
    var a := SpacesFrom(s, 0);
    var b := SpacesBefore(s, a, |s|);
    var r := s[a..b];
    assert |r| > 0 ==> r[0] == s[a] && r[|r| - 1] == s[b - 1];
    SliceChars(s, a, b);
    r
  }

  /** Every character of a slice is a character of the string. */
  lemma SliceChars(s: string, a: nat, b: nat)
    requires a <= b <= |s|
    ensures forall c | c in s[a..b] :: c in s
  {
    forall c | c in s[a..b] ensures c in s {
      var i :| 0 <= i < b - a && s[a..b][i] == c;
      assert s[a + i] == c;
    }
  }

  /** `s.replace(/\s+/g, " ")`: every maximal white-space run becomes one plain space. */
  function CollapseSpaces(s: string): (r: string)
    decreases |s|
    ensures Collapsed(r)
    ensures forall c | c in r :: c == ' ' || c in s
    ensures |s| > 0 && !IsSpace(s[0]) ==> |r| > 0 && r[0] == s[0]
  {
    if |s| == 0 then ""
    else if IsSpace(s[0]) then
      var t := TrimStart(s[1..]);
      var rest := CollapseSpaces(t);
      assert forall c | c in t :: c in s;
      CollapsedCons(' ', rest);
      " " + rest
    else
      var rest := CollapseSpaces(s[1..]);
      assert forall c | c in s[1..] :: c in s;
      CollapsedCons(s[0], rest);
      [s[0]] + rest
  }

  /** One more character in front keeps a string collapsed unless it starts a run. */
  lemma CollapsedCons(c: char, rest: string)
    requires Collapsed(rest)
    requires IsSpace(c) ==> c == ' ' && (|rest| > 0 ==> !IsSpace(rest[0]))
    ensures Collapsed([c] + rest)
  {
    var r := [c] + rest;
    forall i | 0 <= i < |r| && IsSpace(r[i]) ensures r[i] == ' ' && (i + 1 < |r| ==> !IsSpace(r[i + 1])) {
      if i > 0 {
        assert r[i] == rest[i - 1];
      }
    }
  }

  /** `normalizeText` (src/content/navan.js and src/content/provider_flow.js define it
      identically). */
  function NormalizeText(s: string): (r: string)
    ensures Normalized(r)
    ensures forall c | c in r :: c == ' ' || c in LowerAll(s)
  {
    var c := CollapseSpaces(LowerAll(s));
    var r := Trim(c);
    assert forall ch | ch in r :: ch == ' ' || ch in LowerAll(s) by {
      forall ch | ch in r ensures ch == ' ' || ch in LowerAll(s) {
        assert ch in c;
      }
    }
    var a, b :| 0 <= a <= b <= |c| && r == c[a..b];
    SliceCollapsed(c, a, b);
    LowerAllFixed(s, r);
    r
  }

  /** A slice of a collapsed string is collapsed. */
  lemma SliceCollapsed(s: string, a: nat, b: nat)
    requires Collapsed(s) && a <= b <= |s|
    ensures Collapsed(s[a..b])
  {
    var t := s[a..b];
    forall i | 0 <= i < |t| && IsSpace(t[i]) ensures t[i] == ' ' && (i + 1 < |t| ==> !IsSpace(t[i + 1])) {
      assert t[i] == s[a + i];
      if i + 1 < |t| {
        assert t[i + 1] == s[a + i + 1];
      }
    }
  }

  lemma LowerAllFixed(s: string, r: string)
    requires forall c | c in r :: c == ' ' || c in LowerAll(s)
    ensures LowerFixed(r)
  {
    forall i | 0 <= i < |r| ensures Lower(r[i]) == r[i] {
      if r[i] != ' ' {
        assert r[i] in r;
        var j :| 0 <= j < |s| && LowerAll(s)[j] == r[i];
      }
    }
  }

  /** A collapsed string is a fixed point of `CollapseSpaces`. */
  lemma {:induction false} CollapseFixed(s: string)
    requires Collapsed(s)
    ensures CollapseSpaces(s) == s
    decreases |s|
  {
    if |s| > 0 {
      assert Collapsed(s[1..]);
      if IsSpace(s[0]) {
        assert TrimStart(s[1..]) == s[1..];
      }
      CollapseFixed(s[1..]);
    }
  }

  /** A normalized string is a fixed point of `normalizeText`; with the contract of
      `NormalizeText` this makes the fixed points exactly the normalized strings. */
  lemma NormalizedFixed(s: string)
    requires Normalized(s)
    ensures NormalizeText(s) == s
  {
    assert LowerAll(s) == s;
    CollapseFixed(s);
    TrimFixed(s);
  }

  /** A trimmed string is its own `trim()`. */
  lemma TrimFixed(s: string)
    requires Trimmed(s)
    ensures Trim(s) == s
  {
    assert SpacesFrom(s, 0) == 0;
    assert SpacesBefore(s, 0, |s|) == |s|;
  }

  /** `normalizeText` is idempotent, and a string is its own key exactly when it is
      normalized (trimmed, collapsed, lower-case). */
  lemma NormalizeTextIdempotent(s: string)
    ensures NormalizeText(NormalizeText(s)) == NormalizeText(s)
    ensures NormalizeText(s) == s <==> Normalized(s)
  {
    NormalizedFixed(NormalizeText(s));
    if Normalized(s) {
      NormalizedFixed(s);
    }
  }

  /** Two non-empty normalized strings joined by one space are normalized. */
  lemma JoinNormalized(a: string, b: string)
    requires Normalized(a) && Normalized(b) && |a| > 0 && |b| > 0
    ensures Normalized(a + " " + b)
  {
    var s := a + " " + b;
    forall i | 0 <= i < |s| && IsSpace(s[i]) ensures s[i] == ' ' && (i + 1 < |s| ==> !IsSpace(s[i + 1])) {
      if i < |a| {
        assert s[i] == a[i];
        assert s[i + 1] == if i + 1 < |a| then a[i + 1] else ' ';
      } else if i > |a| {
        assert s[i] == b[i - |a| - 1];
      } else {
        assert s[i + 1] == b[0];
      }
    }
    forall i | 0 <= i < |s| ensures Lower(s[i]) == s[i] {
      if i < |a| {
        assert s[i] == a[i];
      } else if i > |a| {
        assert s[i] == b[i - |a| - 1];
      }
    }
    assert s[|s| - 1] == b[|b| - 1];
  }

  /** A string of digits and dashes is normalized. */
  lemma AsciiNormalized(s: string)
    requires forall k | 0 <= k < |s| :: IsDigit(s[k]) || s[k] == '-'
    ensures Normalized(s)
  {
  }

  /** A string that lower-cases onto a normalized string has it as its key. */
  lemma FoldedKey(t: string, s: string)
    requires CaseFolds(t, s) && Normalized(s)
    ensures NormalizeText(t) == s
  {
    assert LowerAll(t) == s == LowerAll(s);
    NormalizedFixed(s);
  }

  /** A character left unchanged by decomposition, mark removal and lower-casing. */
  predicate Plain(c: char) {
    Decompose(c).None? && !IsMark(c) && Lower(c) == c
  }

  /** The table only covers Latin-1 letters and maps each to an ASCII base letter and a
      combining mark, so neither part decomposes further. */
  lemma DecomposeParts(c: char)
    ensures Decompose(c).Some? ==>
      ('\U{00C0}' <= c <= '\U{00FF}' && Decompose(c).value.0 <= 'z' && IsMark(Decompose(c).value.1))
  {
  }

  /** Characters outside the Latin-1 letters never decompose. */
  lemma DecomposeOutside(c: char)
    requires c < '\U{00C0}' || IsMark(c)
    ensures Decompose(c).None?
  {
    DecomposeParts(c);
  }

  /** Lower-casing a character that neither decomposes nor is a mark gives a plain one. */
  lemma LowerKeepsPlain(c: char)
    requires Decompose(c).None? && !IsMark(c)
    ensures Plain(Lower(c))
  {
  }

  /** `str.normalize("NFD")`, by the Latin-1 table. */
  function Nfd(s: string): (r: string)
    ensures forall i | 0 <= i < |r| :: Decompose(r[i]).None?
    ensures (forall i | 0 <= i < |s| :: Decompose(s[i]).None?) ==> r == s
  {
    if |s| == 0 then ""
    else
      var head := match Decompose(s[0]) case Some(p) => [p.0, p.1] case None => [s[0]];
      DecomposeParts(s[0]);
      if Decompose(s[0]).Some? then
        DecomposeOutside(Decompose(s[0]).value.0);
        DecomposeOutside(Decompose(s[0]).value.1);
        head + Nfd(s[1..])
      else head + Nfd(s[1..])
  }

  /** `str.replace(/[̀-ͯ]/g, "")`. */
  function StripMarks(s: string): (r: string)
    ensures forall c | c in r :: !IsMark(c) && c in s
    ensures (forall i | 0 <= i < |s| :: !IsMark(s[i])) ==> r == s
  {
    if |s| == 0 then ""
    else if IsMark(s[0]) then StripMarks(s[1..])
    else [s[0]] + StripMarks(s[1..])
  }

  lemma KeysArePlain(n: string, t: string, r: string)
    requires forall i | 0 <= i < |n| :: Decompose(n[i]).None?
    requires forall c | c in t :: !IsMark(c) && c in n
    requires forall c | c in r :: c == ' ' || c in LowerAll(t)
    ensures forall i | 0 <= i < |r| :: Plain(r[i])
  {
    forall i | 0 <= i < |r| ensures Plain(r[i]) {
      if r[i] != ' ' {
        assert r[i] in r;
        var j :| 0 <= j < |t| && LowerAll(t)[j] == r[i];
        assert t[j] in t;
        var k :| 0 <= k < |n| && n[k] == t[j];
        LowerKeepsPlain(t[j]);
      }
    }
  }

  /** `normalizeComparableText`: NFD, drop the combining marks, then `normalizeText`. */
  function NormalizeComparableText(s: string): (r: string)
    ensures Normalized(r)
    ensures forall i | 0 <= i < |r| :: Plain(r[i])
  {
    var n := Nfd(s);
    var t := StripMarks(n);
    var r := NormalizeText(t);
    KeysArePlain(n, t, r);
    r
  }

  /** `normalizeComparableText` is idempotent: its keys contain no decomposable letter, no
      combining mark, no upper-case letter and no white-space run. */
  lemma ComparableIdempotent(s: string)
    ensures NormalizeComparableText(NormalizeComparableText(s)) == NormalizeComparableText(s)
  {
    var t := NormalizeComparableText(s);
    assert Nfd(t) == t;
    assert StripMarks(t) == t;
    NormalizedFixed(t);
  }

  /** Precomposed and decomposed spellings of a label compare equal. */
  lemma ComparableIgnoresComposition(s: string)
    ensures NormalizeComparableText(Nfd(s)) == NormalizeComparableText(s)
  {
    assert Nfd(Nfd(s)) == Nfd(s);
  }

  // ----- What the keys ignore: case and the length of white-space runs -----

  /** Strings that lower-case alike have the same key. */
  lemma SameLowerSameKey(a: string, b: string)
    requires LowerAll(a) == LowerAll(b)
    ensures NormalizeText(a) == NormalizeText(b)
  {
  }

  /** Leading white space is all `TrimStart` removes. */
  lemma {:induction false} TrimStartSpaces(w: string, y: string)
    requires forall k | 0 <= k < |w| :: IsSpace(w[k])
    ensures TrimStart(w + y) == TrimStart(y)
  {
    if |w| > 0 {
      assert (w + y)[0] == w[0] && (w + y)[1..] == w[1..] + y;
      TrimStartSpaces(w[1..], y);
    } else {
      assert w + y == y;
    }
  }

  /** Once a non-space character is reached, whatever follows is kept as it is. */
  lemma {:induction false} TrimStartAppend(x: string, z: string)
    requires |TrimStart(x)| > 0
    ensures TrimStart(x + z) == TrimStart(x) + z
  {
    if IsSpace(x[0]) {
      assert (x + z)[0] == x[0] && (x + z)[1..] == x[1..] + z;
      TrimStartAppend(x[1..], z);
    }
  }

  /** Two tails that start with white space and agree from their first word on collapse
      alike behind any prefix. */
  lemma {:induction false} CollapseTails(x: string, z1: string, z2: string)
    requires |z1| > 0 && IsSpace(z1[0]) && |z2| > 0 && IsSpace(z2[0])
    requires TrimStart(z1) == TrimStart(z2)
    ensures CollapseSpaces(x + z1) == CollapseSpaces(x + z2)
    decreases |x|
  {
    if |x| == 0 {
      assert x + z1 == z1 && x + z2 == z2;
      CollapseSpaceStart(z1);
      CollapseSpaceStart(z2);
    } else if !IsSpace(x[0]) {
      CollapseTails(x[1..], z1, z2);
      CollapseNonSpaceHead(x, z1);
      CollapseNonSpaceHead(x, z2);
    } else {
      var t := TrimStart(x[1..]);
      if |t| == 0 {
        CollapseSpaceHeadRun(x, z1);
        CollapseSpaceHeadRun(x, z2);
        TrimStartSpaces(x[1..], z1);
        TrimStartSpaces(x[1..], z2);
      } else {
        CollapseTails(t, z1, z2);
        CollapseSpaceHead(x, z1);
        CollapseSpaceHead(x, z2);
      }
    }
  }

  /** A non-empty white-space run collapses exactly as a single space does. */
  lemma CollapseRun(x: string, w: string, y: string)
    requires |w| > 0 && forall k | 0 <= k < |w| :: IsSpace(w[k])
    ensures CollapseSpaces(x + w + y) == CollapseSpaces(x + " " + y)
  {
    var z1, z2 := w + y, " " + y;
    assert z1[0] == w[0] && z2[0] == ' ';
    TrimStartSpaces(w, y);
    TrimStartSpaces(" ", y);
    CollapseTails(x, z1, z2);
    ConcatAssoc(x, w, y);
    ConcatAssoc(x, " ", y);
  }

  /** Concatenation is associative. */
  lemma ConcatAssoc(a: string, b: string, c: string)
    ensures a + b + c == a + (b + c)
  {
  }

  /** A non-space first character is kept and the rest collapsed after it. */
  lemma CollapseNonSpaceHead(x: string, z: string)
    requires |x| > 0 && !IsSpace(x[0])
    ensures CollapseSpaces(x + z) == [x[0]] + CollapseSpaces(x[1..] + z)
  {
    assert (x + z)[0] == x[0] && (x + z)[1..] == x[1..] + z;
  }

  /** A white-space first character whose run reaches into a tail that starts with white
      space: one space, then the tail from its first word on. */
  lemma CollapseSpaceHeadRun(x: string, z: string)
    requires |x| > 0 && IsSpace(x[0]) && |TrimStart(x[1..])| == 0
    ensures CollapseSpaces(x + z) == " " + CollapseSpaces(TrimStart(x[1..] + z))
  {
    var s := x + z;
    assert s[0] == x[0] && s[1..] == x[1..] + z;
    CollapseSpaceStart(s);
  }

  /** A white-space first character whose run ends inside `x`: one space, then the rest
      of `x` from its next word on, then `z`. */
  lemma CollapseSpaceHead(x: string, z: string)
    requires |x| > 0 && IsSpace(x[0]) && |TrimStart(x[1..])| > 0
    ensures CollapseSpaces(x + z) == " " + CollapseSpaces(TrimStart(x[1..]) + z)
  {
    var s := x + z;
    assert s[0] == x[0] && s[1..] == x[1..] + z;
    CollapseSpaceStart(s);
    TrimStartAppend(x[1..], z);
  }

  /** The step of `CollapseSpaces` at a white-space character. */
  lemma CollapseSpaceStart(s: string)
    requires |s| > 0 && IsSpace(s[0])
    ensures CollapseSpaces(s) == " " + CollapseSpaces(TrimStart(s[1..]))
    ensures TrimStart(s[1..]) == TrimStart(s)
  {
  }

  /** Lower-casing works character by character. */
  lemma LowerAllConcat(a: string, w: string, b: string)
    ensures LowerAll(a + w + b) == LowerAll(a) + LowerAll(w) + LowerAll(b)
  {
  }

  /** The key of a label does not depend on how long, or of which white-space characters,
      the run between two parts is: any such run counts as one space. */
  lemma WhiteSpaceRunsAreOne(a: string, w1: string, w2: string, b: string)
    requires |w1| > 0 && forall k | 0 <= k < |w1| :: IsSpace(w1[k])
    requires |w2| > 0 && forall k | 0 <= k < |w2| :: IsSpace(w2[k])
    ensures NormalizeText(a + w1 + b) == NormalizeText(a + w2 + b)
  {
    LowerAllConcat(a, w1, b);
    LowerAllConcat(a, w2, b);
    var l1, l2 := LowerAll(w1), LowerAll(w2);
    assert forall k | 0 <= k < |l1| :: IsSpace(l1[k]);
    assert forall k | 0 <= k < |l2| :: IsSpace(l2[k]);
    CollapseRun(LowerAll(a), l1, LowerAll(b));
    CollapseRun(LowerAll(a), l2, LowerAll(b));
  }

  /** Decomposition works character by character. */
  lemma {:induction false} NfdConcat(x: string, y: string)
    ensures Nfd(x + y) == Nfd(x) + Nfd(y)
  {
    if |x| > 0 {
      var xy := x + y;
      assert xy[0] == x[0] && xy[1..] == x[1..] + y;
      NfdConcat(x[1..], y);
      var head := match Decompose(x[0]) case Some(p) => [p.0, p.1] case None => [x[0]];
      assert Nfd(xy) == head + Nfd(xy[1..]);
    } else {
      assert x + y == y;
    }
  }

  /** Mark removal works character by character. */
  lemma {:induction false} StripMarksConcat(x: string, y: string)
    ensures StripMarks(x + y) == StripMarks(x) + StripMarks(y)
  {
    if |x| > 0 {
      var xy := x + y;
      assert xy[0] == x[0] && xy[1..] == x[1..] + y;
      StripMarksConcat(x[1..], y);
    } else {
      assert x + y == y;
    }
  }

  /** White space neither decomposes nor is a combining mark. */
  lemma SpacesArePlain(w: string)
    requires forall k | 0 <= k < |w| :: IsSpace(w[k])
    ensures Nfd(w) == w && StripMarks(w) == w
  {
    forall k | 0 <= k < |w| ensures Decompose(w[k]).None? && !IsMark(w[k]) {
      DecomposeParts(w[k]);
    }
  }

  /** The comparable key, too, treats every white-space run as one space. */
  lemma ComparableWhiteSpaceRunsAreOne(a: string, w1: string, w2: string, b: string)
    requires |w1| > 0 && forall k | 0 <= k < |w1| :: IsSpace(w1[k])
    requires |w2| > 0 && forall k | 0 <= k < |w2| :: IsSpace(w2[k])
    ensures NormalizeComparableText(a + w1 + b) == NormalizeComparableText(a + w2 + b)
  {
    var pa, pb := StripMarks(Nfd(a)), StripMarks(Nfd(b));
    assert StripMarks(Nfd(a + w1 + b)) == pa + w1 + pb by {
      NfdConcat(a + w1, b);
      NfdConcat(a, w1);
      SpacesArePlain(w1);
      StripMarksConcat(Nfd(a) + w1, Nfd(b));
      StripMarksConcat(Nfd(a), w1);
    }
    assert StripMarks(Nfd(a + w2 + b)) == pa + w2 + pb by {
      NfdConcat(a + w2, b);
      NfdConcat(a, w2);
      SpacesArePlain(w2);
      StripMarksConcat(Nfd(a) + w2, Nfd(b));
      StripMarksConcat(Nfd(a), w2);
    }
    WhiteSpaceRunsAreOne(pa, w1, w2, pb);
  }

  /** On text with no decomposable letter and no combining mark the comparable key is
      the plain `normalizeText` key. */
  lemma ComparableOfPlainText(s: string)
    requires forall i | 0 <= i < |s| :: Decompose(s[i]).None? && !IsMark(s[i])
    ensures NormalizeComparableText(s) == NormalizeText(s)
  {
    assert Nfd(s) == s;
    assert StripMarks(s) == s;
  }

  /** Decomposition and mark removal work part by part. */
  lemma PlainOfParts(x: string, mid: string, y: string)
    ensures StripMarks(Nfd(x + mid + y)) == StripMarks(Nfd(x)) + StripMarks(Nfd(mid)) + StripMarks(Nfd(y))
  {
    NfdConcat(x + mid, y);
    NfdConcat(x, mid);
    StripMarksConcat(Nfd(x) + Nfd(mid), Nfd(y));
    StripMarksConcat(Nfd(x), Nfd(mid));
  }

  /** An accented letter leaves the same trace as its base letter once decomposed and
      stripped of its mark. */
  lemma AccentStripsToBase(c: char)
    requires Decompose(c).Some?
    ensures StripMarks(Nfd([c])) == [Decompose(c).value.0] == StripMarks(Nfd([Decompose(c).value.0]))
  {
    var b, m := Decompose(c).value.0, Decompose(c).value.1;
    DecomposeParts(c);
    DecomposeOutside(b);
    assert [c][1..] == [] && [b][1..] == [];
    assert Nfd([c]) == [b, m];
    assert Nfd([b]) == [b];
    assert [b, m][1..] == [m];
    assert StripMarks([b, m]) == [b];
  }

  /** The comparable key ignores accents: an accented letter anywhere in a label gives the
      same key as its base letter. */
  lemma ComparableIgnoresAccent(x: string, c: char, y: string)
    requires Decompose(c).Some?
    ensures NormalizeComparableText(x + [c] + y) == NormalizeComparableText(x + [Decompose(c).value.0] + y)
  {
    PlainOfParts(x, [c], y);
    PlainOfParts(x, [Decompose(c).value.0], y);
    AccentStripsToBase(c);
  }
}
