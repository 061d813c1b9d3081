/** Character classes and small string functions shared by every rule of the model.
    JavaScript strings are modelled as `string` (a sequence of Unicode scalar values). */
module Text {
  import opened Wrappers

  /** JavaScript `\s` (and the set `String.prototype.trim` removes): white space and
      line terminators. */
  predicate IsSpace(c: char) {
    || c == '\t' || c == '\n' || c == '\U{000B}' || c == '\U{000C}' || c == '\r'
    || c == ' ' || c == '\U{00A0}' || c == '\U{1680}'
    || ('\U{2000}' <= c <= '\U{200A}')
    || c == '\U{2028}' || c == '\U{2029}' || c == '\U{202F}' || c == '\U{205F}'
    || c == '\U{3000}' || c == '\U{FEFF}'
  }

  /** JavaScript `\d`: ASCII digits only. */
  predicate IsDigit(c: char) {
    '0' <= c <= '9'
  }

  /** JavaScript `\w` without the `u` flag: `[A-Za-z0-9_]`. `\b` is defined from it. */
  predicate IsWordChar(c: char) {
    ('a' <= c <= 'z') || ('A' <= c <= 'Z') || IsDigit(c) || c == '_'
  }

  /** A combining diacritical mark, the range U+0300..U+036F that the source strips. */
  predicate IsMark(c: char) {
    '\U{0300}' <= c <= '\U{036F}'
  }

  /** Upper-case letters that `toLowerCase` maps by adding 32: ASCII `A`..`Z` and the
      Latin-1 capitals U+00C0..U+00DE except the multiplication sign U+00D7. */
  predicate IsUpper(c: char) {
    ('A' <= c <= 'Z') || ('\U{00C0}' <= c <= '\U{00DE}' && c != '\U{00D7}')
  }

  /** `toLowerCase` on one character, restricted to ASCII and Latin-1. */
  function Lower(c: char): (r: char)
    ensures IsUpper(c) ==> r as int == c as int + 32
    ensures !IsUpper(c) ==> r == c
  {
    if IsUpper(c) then (c as int + 32) as char else c
  }

  /** Canonical decomposition of the precomposed Latin-1 letters (Unicode NFD), as a table:
      the base letter and the combining mark. Every other character is its own decomposition. */
  function Decompose(c: char): Option<(char, char)> {
    match c
    case '\U{00C0}' => Some(('A', '\U{0300}'))
    case '\U{00C1}' => Some(('A', '\U{0301}'))
    case '\U{00C2}' => Some(('A', '\U{0302}'))
    case '\U{00C3}' => Some(('A', '\U{0303}'))
    case '\U{00C4}' => Some(('A', '\U{0308}'))
    case '\U{00C5}' => Some(('A', '\U{030A}'))
    case '\U{00C7}' => Some(('C', '\U{0327}'))
    case '\U{00C8}' => Some(('E', '\U{0300}'))
    case '\U{00C9}' => Some(('E', '\U{0301}'))
    case '\U{00CA}' => Some(('E', '\U{0302}'))
    case '\U{00CB}' => Some(('E', '\U{0308}'))
    case '\U{00CC}' => Some(('I', '\U{0300}'))
    case '\U{00CD}' => Some(('I', '\U{0301}'))
    case '\U{00CE}' => Some(('I', '\U{0302}'))
    case '\U{00CF}' => Some(('I', '\U{0308}'))
    case '\U{00D1}' => Some(('N', '\U{0303}'))
    case '\U{00D2}' => Some(('O', '\U{0300}'))
    case '\U{00D3}' => Some(('O', '\U{0301}'))
    case '\U{00D4}' => Some(('O', '\U{0302}'))
    case '\U{00D5}' => Some(('O', '\U{0303}'))
    case '\U{00D6}' => Some(('O', '\U{0308}'))
    case '\U{00D9}' => Some(('U', '\U{0300}'))
    case '\U{00DA}' => Some(('U', '\U{0301}'))
    case '\U{00DB}' => Some(('U', '\U{0302}'))
    case '\U{00DC}' => Some(('U', '\U{0308}'))
    case '\U{00DD}' => Some(('Y', '\U{0301}'))
    case '\U{00E0}' => Some(('a', '\U{0300}'))
    case '\U{00E1}' => Some(('a', '\U{0301}'))
    case '\U{00E2}' => Some(('a', '\U{0302}'))
    case '\U{00E3}' => Some(('a', '\U{0303}'))
    case '\U{00E4}' => Some(('a', '\U{0308}'))
    case '\U{00E5}' => Some(('a', '\U{030A}'))
    case '\U{00E7}' => Some(('c', '\U{0327}'))
    case '\U{00E8}' => Some(('e', '\U{0300}'))
    case '\U{00E9}' => Some(('e', '\U{0301}'))
    case '\U{00EA}' => Some(('e', '\U{0302}'))
    case '\U{00EB}' => Some(('e', '\U{0308}'))
    case '\U{00EC}' => Some(('i', '\U{0300}'))
    case '\U{00ED}' => Some(('i', '\U{0301}'))
    case '\U{00EE}' => Some(('i', '\U{0302}'))
    case '\U{00EF}' => Some(('i', '\U{0308}'))
    case '\U{00F1}' => Some(('n', '\U{0303}'))
    case '\U{00F2}' => Some(('o', '\U{0300}'))
    case '\U{00F3}' => Some(('o', '\U{0301}'))
    case '\U{00F4}' => Some(('o', '\U{0302}'))
    case '\U{00F5}' => Some(('o', '\U{0303}'))
    case '\U{00F6}' => Some(('o', '\U{0308}'))
    case '\U{00F9}' => Some(('u', '\U{0300}'))
    case '\U{00FA}' => Some(('u', '\U{0301}'))
    case '\U{00FB}' => Some(('u', '\U{0302}'))
    case '\U{00FC}' => Some(('u', '\U{0308}'))
    case '\U{00FD}' => Some(('y', '\U{0301}'))
    case '\U{00FF}' => Some(('y', '\U{0308}'))
    case _ => None
  }

  /** `s.includes(sub)`. */
  predicate Contains(s: string, sub: string) {
    exists i | 0 <= i <= |s| :: sub <= s[i..]
  }

  /** `p` occurs in `s` at position `i`. */
  predicate StartsAt(s: string, i: nat, p: string) {
    i + |p| <= |s| && s[i..i + |p|] == p
  }

  /** `a` lower-cases, character by character, to `p`: `a` matches the pattern `p`, made
      of lower-case letters and punctuation, under the `i` flag of a JavaScript regular
      expression. */
  predicate CaseFolds(a: string, p: string) {
    |a| == |p| && forall k | 0 <= k < |a| :: Lower(a[k]) == p[k]
  }

  /** Case folding carries over to two strings joined by a space. */
  lemma CaseFoldsJoin(a: string, p: string, b: string, q: string)
    requires CaseFolds(a, p) && CaseFolds(b, q)
    ensures CaseFolds(a + " " + b, p + " " + q)
  {
    var s, t := a + " " + b, p + " " + q;
    forall k | 0 <= k < |s| ensures Lower(s[k]) == t[k] {
      if k < |a| {
        assert s[k] == a[k] && t[k] == p[k];
      } else if k > |a| {
        assert s[k] == b[k - |a| - 1] && t[k] == q[k - |a| - 1];
      }
    }
  }

  /** `p` occurs case-insensitively in `s` at position `i`. */
  predicate StartsAtCI(s: string, i: nat, p: string) {
    i + |p| <= |s| && CaseFolds(s[i..i + |p|], p)
  }

  /** Case-insensitive `includes`, the regular expression `/p/i` used as a test. */
  predicate ContainsCI(s: string, p: string) {
    exists i | 0 <= i <= |s| :: StartsAtCI(s, i, p)
  }

  /** `\b` immediately before a word character at position `i`. */
  predicate BoundaryBefore(s: string, i: nat) {
    i == 0 || (i <= |s| && !IsWordChar(s[i - 1]))
  }

  /** `\b` immediately after a word character ending at position `j`. */
  predicate BoundaryAfter(s: string, j: nat) {
    j >= |s| || !IsWordChar(s[j])
  }

  /** Length of the run of digits starting at position `i`: `\d+` matched greedily. */
  function DigitRun(s: string, i: nat): (n: nat)
    decreases |s| - i
    ensures i + n <= |s| || (i >= |s| && n == 0)
    ensures n > 0 ==> IsDigit(s[i])
    ensures i + n < |s| ==> !IsDigit(s[i + n])
  {
    if i < |s| && IsDigit(s[i]) then 1 + DigitRun(s, i + 1) else 0
  }

  /** The digit run at `i` is a slice of digits. */
  lemma {:induction false} DigitRunSlice(s: string, i: nat)
    requires i <= |s|
    ensures AllDigits(s[i..i + DigitRun(s, i)])
    decreases |s| - i
  {
    var n := DigitRun(s, i);
    if n > 0 {
      DigitRunSlice(s, i + 1);
      assert s[i..i + n] == [s[i]] + s[i + 1..i + 1 + DigitRun(s, i + 1)];
    }
  }

  /** The digit run at `j` is exactly `n` long when `n` digits are followed by a
      non-digit or the end. */
  lemma {:induction false} DigitRunOf(s: string, j: nat, n: nat)
    requires j + n <= |s| && AllDigits(s[j..j + n])
    requires j + n == |s| || !IsDigit(s[j + n])
    ensures DigitRun(s, j) == n
    decreases n
  {
    if n > 0 {
      assert s[j] == s[j..j + n][0];
      assert s[j + 1..j + n] == s[j..j + n][1..];
      DigitRunOf(s, j + 1, n - 1);
    }
  }

  /** Length of the run of white space starting at position `i`: `\s+` matched greedily. */
  function SpaceRun(s: string, i: nat): (n: nat)
    decreases |s| - i
    ensures i + n <= |s| || (i >= |s| && n == 0)
    ensures n > 0 ==> IsSpace(s[i])
    ensures i + n < |s| ==> !IsSpace(s[i + n])
  {
    if i < |s| && IsSpace(s[i]) then 1 + SpaceRun(s, i + 1) else 0
  }

  /** Every character of the white-space run at `i` is white space. */
  lemma {:induction false} SpaceRunSpaces(s: string, i: nat)
    ensures forall k | i <= k < i + SpaceRun(s, i) :: IsSpace(s[k])
    decreases |s| - i
  {
    if SpaceRun(s, i) > 0 {
      SpaceRunSpaces(s, i + 1);
    }
  }

  /** Every character of `s` is an ASCII digit. */
  predicate AllDigits(s: string) {
    forall i | 0 <= i < |s| :: IsDigit(s[i])
  }

  /** The regular expression `^\d{6}$`. */
  predicate IsSixDigits(s: string) {
    |s| == 6 && AllDigits(s)
  }

  /** `Number(s)` for a string of decimal digits. */
  function DigitsValue(s: string): nat
    requires AllDigits(s)
  {
    if |s| == 0 then 0 else DigitsValue(s[..|s| - 1]) * 10 + (s[|s| - 1] as int - '0' as int)
  }

  /** Decimal rendering of a natural number, JavaScript `String(n)`. */
  function NatToString(n: nat): (r: string)
    ensures |r| > 0 && AllDigits(r)
    ensures DigitsValue(r) == n
    decreases n
  {
    if n < 10 then [('0' as int + n) as char]
    else
      var r := NatToString(n / 10) + [('0' as int + n % 10) as char];
      assert r[..|r| - 1] == NatToString(n / 10);
      r
  }

  /** `String(s).padStart(2, "0")`. */
  function PadStart2(s: string): (r: string)
    ensures |s| >= 2 ==> r == s
    ensures |s| < 2 ==> |r| == 2 && r[2 - |s|..] == s && forall k | 0 <= k < 2 - |s| :: r[k] == '0'
  {
    if |s| >= 2 then s else if |s| == 1 then "0" + s else "00"
  }

  /** `s.replace(c, r)` with a one-character string pattern: only the first occurrence
      is replaced. */
  function ReplaceFirst(s: string, c: char, r: char): (t: string)
    ensures |t| == |s|
    ensures c !in s ==> t == s
    ensures c in s ==> exists i | 0 <= i < |s| ::
      s[i] == c && c !in s[..i] && t == s[..i] + [r] + s[i + 1..]
  {
    if |s| == 0 then s
    else if s[0] == c then [r] + s[1..]
    else
      var t := [s[0]] + ReplaceFirst(s[1..], c, r);
      assert c in s[1..] ==> exists i | 0 <= i < |s| ::
        s[i] == c && c !in s[..i] && t == s[..i] + [r] + s[i + 1..] by {
        if c in s[1..] {
          var j :| 0 <= j < |s| - 1 && s[1..][j] == c && c !in s[1..][..j]
            && ReplaceFirst(s[1..], c, r) == s[1..][..j] + [r] + s[1..][j + 1..];
          SpliceCons(s, c, r, j, ReplaceFirst(s[1..], c, r));
        }
      }
      t
  }

  /** A replacement in the tail, seen from the whole string. */
  lemma SpliceCons(s: string, c: char, r: char, j: nat, u: string)
    requires |s| > 0 && s[0] != c && j < |s| - 1
    requires s[1..][j] == c && c !in s[1..][..j] && u == s[1..][..j] + [r] + s[1..][j + 1..]
    ensures s[j + 1] == c && c !in s[..j + 1] && [s[0]] + u == s[..j + 1] + [r] + s[j + 2..]
  {
    assert s[..j + 1] == [s[0]] + s[1..][..j];
    assert s[1..][j + 1..] == s[j + 2..];
  }

  /** `s.length`: the number of UTF-16 code units, two for a character outside the BMP. */
  function Utf16Length(s: string): nat {
    if |s| == 0 then 0
    else (if s[0] as int > 0xFFFF then 2 else 1) + Utf16Length(s[1..])
  }

  /** The first index from `i` on whose flag is set: `Array.prototype.findIndex`. */
  function FirstTrue(flags: seq<bool>, i: nat): (r: Option<nat>)
    decreases |flags| - i
    ensures r.Some? ==> i <= r.value < |flags| && flags[r.value]
    ensures r.Some? ==> forall j | i <= j < r.value :: !flags[j]
    ensures r.None? <==> forall j | i <= j < |flags| :: !flags[j]
  {
    if i >= |flags| then None
    else if flags[i] then Some(i)
    else FirstTrue(flags, i + 1)
  }

  /** `xs.filter(keep)`: the elements that pass, in their order. */
  function Filter<T>(xs: seq<T>, keep: T -> bool): (r: seq<T>)
    ensures |r| <= |xs|
    ensures forall k | 0 <= k < |r| :: r[k] in xs && keep(r[k])
    ensures forall k | 0 <= k < |xs| && keep(xs[k]) :: xs[k] in r
  {
    if |xs| == 0 then []
    else
      var rest := Filter(xs[1..], keep);
      assert forall k | 1 <= k < |xs| :: xs[k] == xs[1..][k - 1];
      if keep(xs[0]) then [xs[0]] + rest else rest
  }

  /** `xs.find(p)`, as the index of the first element that passes. */
  function FindIndex<T>(xs: seq<T>, p: T -> bool): (r: Option<nat>)
    ensures r.Some? ==> r.value < |xs| && p(xs[r.value])
    ensures r.Some? ==> forall j | 0 <= j < r.value :: !p(xs[j])
    ensures r.None? <==> forall j | 0 <= j < |xs| :: !p(xs[j])
  {
    var flags := seq(|xs|, j requires 0 <= j < |xs| => p(xs[j]));
    assert forall j | 0 <= j < |xs| :: flags[j] == p(xs[j]);
    FirstTrue(flags, 0)
  }

  /** Whichever index is the first to pass `p` is the one `FindIndex` finds. */
  lemma FindIndexIsFirst<T>(xs: seq<T>, p: T -> bool)
    ensures forall k | 0 <= k < |xs| && p(xs[k]) && (forall j | 0 <= j < k :: !p(xs[j])) ::
      FindIndex(xs, p) == Some(k)
  {
    forall k | 0 <= k < |xs| && p(xs[k]) && (forall j | 0 <= j < k :: !p(xs[j]))
      ensures FindIndex(xs, p) == Some(k)
    {
      var f := FindIndex(xs, p);
      assert f.Some?;
      assert !(f.value < k);
      assert !(k < f.value);
    }
  }

  /** The leftmost position from `from` on at which `at` matches, with what it captured:
      how `String.prototype.match` scans a subject with a non-global regular expression. */
  function Search<T>(s: string, at: (string, nat) -> Option<T>, from: nat): (r: Option<(nat, T)>)
    decreases |s| + 1 - from
    ensures r.Some? ==> from <= r.value.0 <= |s| && at(s, r.value.0) == Some(r.value.1)
    ensures r.Some? ==> forall j | from <= j < r.value.0 :: at(s, j).None?
    ensures r.None? ==> forall j | from <= j <= |s| :: at(s, j).None?
  {
    if from > |s| then None
    else match at(s, from)
      case Some(v) => Some((from, v))
      case None => Search(s, at, from + 1)
  }

  /** The search stops at the first position where `at` matches. */
  lemma {:induction false} SearchFinds<T>(s: string, at: (string, nat) -> Option<T>, from: nat, pos: nat, v: T)
    requires from <= pos <= |s| && at(s, pos) == Some(v)
    requires forall j | from <= j < pos :: at(s, j).None?
    ensures Search(s, at, from) == Some((pos, v))
    decreases pos - from
  {
    if from < pos {
      SearchFinds(s, at, from + 1, pos, v);
    }
  }

  /** The search fails when `at` matches nowhere from `from` on. */
  lemma {:induction false} SearchMisses<T>(s: string, at: (string, nat) -> Option<T>, from: nat)
    requires forall j | from <= j <= |s| :: at(s, j).None?
    ensures Search(s, at, from).None?
    decreases |s| + 1 - from
  {
    if from <= |s| {
      SearchMisses(s, at, from + 1);
    }
  }
}
