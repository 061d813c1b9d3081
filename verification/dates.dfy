/** French month names, the month key of a Free invoice link and the bill date of an
    Orange bill page (src/content/provider_flow.js). Every rule is a leftmost regular
    expression match written out over the characters. */
module Dates {
  import opened Wrappers
  import opened Text
  import opened Normalize

  /** The alternation `janvier|fevrier|février|...|décembre`, in the source's order. */
  const MONTH_PATTERNS: seq<string> := ["janvier", "fevrier", "février", "mars", "avril", "mai",
    "juin", "juillet", "aout", "août", "septembre", "octobre", "novembre", "decembre", "décembre"]

  /** The keys of the month table, January first. */
  const MONTH_KEYS: seq<string> := ["janvier", "fevrier", "mars", "avril", "mai", "juin",
    "juillet", "aout", "septembre", "octobre", "novembre", "decembre"]

  /** `String(k).padStart(2, "0")` for a month number: "01".."12". */
  function MonthNumber(k: nat): (r: string)
    requires 1 <= k <= 12
    ensures |r| == 2 && AllDigits(r) && DigitsValue(r) == k
  {
    var d := NatToString(k);
    if k < 10 then
      assert |d| == 1;
      var r := PadStart2(d);
      assert r == "0" + d;
      assert r[..1] == "0";
      r
    else
      assert |NatToString(k / 10)| == 1;
      PadStart2(d)
  }

  /** The five accent replacements of `frenchMonthToNumber`, applied in this order. */
  const ACCENT_FOLDS: seq<(char, char)> := [('\U{00E9}', 'e'), ('\U{00FB}', 'u'),
    ('\U{00F4}', 'o'), ('\U{00E0}', 'a'), ('\U{00E7}', 'c')]

  /** Each replacement rewrites only the first occurrence of its accented letter. */
  function FoldAccents(s: string, folds: seq<(char, char)>): (r: string)
    ensures |r| == |s|
    decreases |folds|
  {
    if |folds| == 0 then s else FoldAccents(ReplaceFirst(s, folds[0].0, folds[0].1), folds[1..])
  }

  function FoldMonthAccents(s: string): string {
    FoldAccents(s, ACCENT_FOLDS)
  }

  /** The position of `m` among the table keys. */
  function KeyIndex(m: string, k: nat): (r: Option<nat>)
    requires k <= |MONTH_KEYS|
    ensures r.Some? ==> k <= r.value < |MONTH_KEYS| && MONTH_KEYS[r.value] == m
    ensures r.None? ==> forall j | k <= j < |MONTH_KEYS| :: MONTH_KEYS[j] != m
    decreases |MONTH_KEYS| - k
  {
    if k == |MONTH_KEYS| then None
    else if MONTH_KEYS[k] == m then Some(k)
    else KeyIndex(m, k + 1)
  }

  /** `frenchMonthToNumber(value)`: the two-digit number of a month name, looked up after
      `normalizeText` and the accent replacements; `None` for anything else. */
  function FrenchMonthToNumber(value: string): (r: Option<string>)
    ensures r.Some? <==> FoldMonthAccents(NormalizeText(value)) in MONTH_KEYS
    ensures r.Some? ==> |r.value| == 2 && AllDigits(r.value) && 1 <= DigitsValue(r.value) <= 12
    ensures r.Some? ==> MONTH_KEYS[DigitsValue(r.value) - 1] == FoldMonthAccents(NormalizeText(value))
  {
    match KeyIndex(FoldMonthAccents(NormalizeText(value)), 0)
    case None => None
    case Some(k) => Some(MonthNumber(k + 1))
  }

  /** A word of lower-case letters is its own `normalizeText` key. */
  lemma WordIsNormalized(w: string)
    requires Letters(w)
    ensures NormalizeText(w) == w
  {
    NormalizedFixed(w);
  }

  /** The replacement rewrites exactly the first occurrence. */
  lemma ReplaceFirstAt(s: string, i: nat, c: char, r: char)
    requires i < |s| && s[i] == c && c !in s[..i]
    ensures ReplaceFirst(s, c, r) == s[..i] + [r] + s[i + 1..]
  {
    var j :| 0 <= j < |s| && s[j] == c && c !in s[..j]
      && ReplaceFirst(s, c, r) == s[..j] + [r] + s[j + 1..];
  }

  /** A word of ASCII characters is left alone by replacements of non-ASCII letters. */
  lemma {:induction false} FoldAccentsPlain(w: string, folds: seq<(char, char)>)
    requires forall i | 0 <= i < |w| :: w[i] < '\U{0080}'
    requires forall j | 0 <= j < |folds| :: folds[j].0 >= '\U{0080}'
    ensures FoldAccents(w, folds) == w
    decreases |folds|
  {
    if |folds| > 0 {
      assert folds[0].0 !in w;
      FoldAccentsPlain(w, folds[1..]);
    }
  }

  lemma FoldAscii(w: string)
    requires forall i | 0 <= i < |w| :: 'a' <= w[i] <= 'z'
    ensures FoldMonthAccents(w) == w
  {
    FoldAccentsPlain(w, ACCENT_FOLDS);
  }

  lemma MonthKeysAscii()
    ensures forall k, i | 0 <= k < |MONTH_KEYS| && 0 <= i < |MONTH_KEYS[k]| :: 'a' <= MONTH_KEYS[k][i] <= 'z'
  {
  }

  lemma MonthKeysDistinct()
    ensures forall j, k | 0 <= j < k < |MONTH_KEYS| :: MONTH_KEYS[j] != MONTH_KEYS[k]
  {
  }

  /** Each table key maps to its own number. */
  lemma MonthKeyNumber(k: nat)
    requires k < |MONTH_KEYS|
    ensures FrenchMonthToNumber(MONTH_KEYS[k]) == Some(MonthNumber(k + 1))
  {
    KeyFolds(k);
    KeyIndexOf(k);
    NumberOfKeyIndex(MONTH_KEYS[k], k);
  }

  /** The number returned is one more than the position of the folded name in the table. */
  lemma NumberOfKeyIndex(w: string, k: nat)
    requires k < |MONTH_KEYS|
    requires KeyIndex(FoldMonthAccents(NormalizeText(w)), 0) == Some(k)
    ensures FrenchMonthToNumber(w) == Some(MonthNumber(k + 1))
  {
  }

  lemma KeyFolds(k: nat)
    requires k < |MONTH_KEYS|
    ensures FoldMonthAccents(NormalizeText(MONTH_KEYS[k])) == MONTH_KEYS[k]
  {
    var w := MONTH_KEYS[k];
    MonthKeysAscii();
    WordIsNormalized(w);
    FoldAscii(w);
  }

  lemma KeyIndexOf(k: nat)
    requires k < |MONTH_KEYS|
    ensures KeyIndex(MONTH_KEYS[k], 0) == Some(k)
  {
    MonthKeysDistinct();
  }

  /** The month each name of the alternation stands for. */
  const PATTERN_MONTHS: seq<nat> := [1, 2, 2, 3, 4, 5, 6, 7, 8, 8, 9, 10, 11, 12, 12]

  /** Every name the month alternation can capture, accented or not, is recognised by
      `frenchMonthToNumber` as its own month. */
  lemma {:induction false} PatternMonthNumber(j: nat)
    requires j < |MONTH_PATTERNS|
    ensures 1 <= PATTERN_MONTHS[j] <= 12
    ensures FrenchMonthToNumber(MONTH_PATTERNS[j]) == Some(MonthNumber(PATTERN_MONTHS[j]))
  {
    var w := MONTH_PATTERNS[j];
    var k: nat := PATTERN_MONTHS[j] - 1;
    if j == 2 {
      assert MONTH_KEYS[k] == w[..1] + "e" + w[2..];
      AccentedName(w, 1, '\U{00E9}', 'e', k);
    } else if j == 9 {
      assert MONTH_KEYS[k] == w[..2] + "u" + w[3..];
      AccentedName(w, 2, '\U{00FB}', 'u', k);
    } else if j == 14 {
      assert MONTH_KEYS[k] == w[..1] + "e" + w[2..];
      AccentedName(w, 1, '\U{00E9}', 'e', k);
    } else {
      PlainPattern(j);
      MonthKeyNumber(k);
    }
  }

  lemma PlainPattern(j: nat)
    requires j < |MONTH_PATTERNS| && j != 2 && j != 9 && j != 14
    ensures 1 <= PATTERN_MONTHS[j] <= 12 && MONTH_PATTERNS[j] == MONTH_KEYS[PATTERN_MONTHS[j] - 1]
  {
  }

  /** A name with one accented letter at position `i` folds onto table key `k`. */
  lemma AccentedName(w: string, i: nat, c: char, base: char, k: nat)
    requires i < |w| && w[i] == c && k < |MONTH_KEYS|
    requires c == '\U{00E9}' || c == '\U{00FB}'
    requires forall j | 0 <= j < |w| :: j != i ==> 'a' <= w[j] <= 'z'
    requires MONTH_KEYS[k] == w[..i] + [base] + w[i + 1..]
    requires (c == '\U{00E9}' ==> base == 'e') && (c == '\U{00FB}' ==> base == 'u')
    ensures FrenchMonthToNumber(w) == Some(MonthNumber(k + 1))
  {
    WordIsNormalized(w);
    if c == '\U{00E9}' { FoldAcute(w, i); } else { FoldCircumflex(w, i); }
    KeyIndexOf(k);
    NumberOfKeyIndex(w, k);
  }

  /** A word whose only non-ASCII letter is an e-acute folds onto plain ASCII. */
  lemma FoldAcute(w: string, i: nat)
    requires i < |w| && w[i] == '\U{00E9}'
    requires forall j | 0 <= j < |w| :: j != i ==> 'a' <= w[j] <= 'z'
    ensures FoldMonthAccents(w) == w[..i] + "e" + w[i + 1..]
  {
    assert '\U{00E9}' !in w[..i];
    ReplaceFirstAt(w, i, '\U{00E9}', 'e');
    SpliceAscii(w, i, 'e', w[..i] + "e" + w[i + 1..]);
    AccentFoldsNonAscii(1);
    FoldAccentsPlain(w[..i] + "e" + w[i + 1..], ACCENT_FOLDS[1..]);
  }

  lemma SkipFirstFold(w: string)
    requires ACCENT_FOLDS[0].0 !in w
    ensures FoldMonthAccents(w) == FoldAccents(w, ACCENT_FOLDS[1..])
  {
    assert ReplaceFirst(w, ACCENT_FOLDS[0].0, ACCENT_FOLDS[0].1) == w;
  }

  lemma SpliceAscii(w: string, i: nat, c: char, v: string)
    requires i < |w| && c < '\U{0080}' && v == w[..i] + [c] + w[i + 1..]
    requires forall j | 0 <= j < |w| :: j != i ==> 'a' <= w[j] <= 'z'
    ensures forall j | 0 <= j < |v| :: v[j] < '\U{0080}'
  {
  }

  lemma AccentFoldsNonAscii(from: nat)
    requires from <= |ACCENT_FOLDS|
    ensures forall j | 0 <= j < |ACCENT_FOLDS[from..]| :: ACCENT_FOLDS[from..][j].0 >= '\U{0080}'
  {
    var folds := ACCENT_FOLDS;
    forall j | 0 <= j < |folds[from..]| ensures folds[from..][j].0 >= '\U{0080}' {
      var k := from + j;
      assert folds[from..][j] == folds[k];
      if k == 0 { assert folds[0].0 == '\U{00E9}'; }
      else if k == 1 { assert folds[1].0 == '\U{00FB}'; }
      else if k == 2 { assert folds[2].0 == '\U{00F4}'; }
      else if k == 3 { assert folds[3].0 == '\U{00E0}'; }
      else { assert folds[4].0 == '\U{00E7}'; }
    }
  }

  /** A word whose only non-ASCII letter is a u-circumflex folds onto plain ASCII. */
  lemma FoldCircumflex(w: string, i: nat)
    requires i < |w| && w[i] == '\U{00FB}'
    requires forall j | 0 <= j < |w| :: j != i ==> 'a' <= w[j] <= 'z'
    ensures FoldMonthAccents(w) == w[..i] + "u" + w[i + 1..]
  {
    assert '\U{00E9}' !in w;
    SkipFirstFold(w);
    assert '\U{00FB}' !in w[..i];
    ReplaceFirstAt(w, i, '\U{00FB}', 'u');
    SpliceAscii(w, i, 'u', w[..i] + "u" + w[i + 1..]);
    AccentFoldsNonAscii(2);
    FoldAccentsPlain(w[..i] + "u" + w[i + 1..], ACCENT_FOLDS[2..]);
  }

  /** A name that lower-cases, character by character, to a word of lower-case letters
      has that word as its `normalizeText` key. */
  lemma SameKeyAsPattern(name: string, p: string)
    requires CaseFolds(name, p) && Letters(p)
    ensures NormalizeText(name) == p
  {
    LowerAllTo(name, p);
    LowerAllTo(p, p);
    SameLowerSameKey(name, p);
    WordIsNormalized(p);
  }

  lemma LowerAllTo(name: string, p: string)
    requires CaseFolds(name, p)
    ensures LowerAll(name) == p
  {
  }

  lemma PatternLetters(j: nat)
    requires j < |MONTH_PATTERNS|
    ensures Letters(MONTH_PATTERNS[j])
  {
  }

  // ----- Regular expressions of the Free invoice list and the Orange bill page -----

  /** `[?&]mois=(\d{6})\b` (flag `i`) tried at position `i`: the six digits. */
  function MoisParamAt(s: string, i: nat): (r: Option<string>)
    ensures r.Some? ==> IsSixDigits(r.value)
  {
    if i + 12 <= |s| && (s[i] == '?' || s[i] == '&') && StartsAtCI(s, i + 1, "mois=")
      && AllDigits(s[i + 6..i + 12]) && BoundaryAfter(s, i + 12)
    then Some(s[i + 6..i + 12])
    else None
  }

  /** A year `20dd`. */
  predicate IsYear(y: string) {
    |y| == 4 && AllDigits(y) && y[..2] == "20"
  }

  /** `\s+(20\d{2})\b` from position `j`: the year. */
  function YearAfterSpaces(s: string, j: nat): (r: Option<string>)
    ensures r.Some? ==> IsYear(r.value)
  {
    var k := SpaceRun(s, j);
    var y := j + k;
    if k > 0 && y + 4 <= |s| && s[y] == '2' && s[y + 1] == '0' && IsDigit(s[y + 2])
      && IsDigit(s[y + 3]) && BoundaryAfter(s, y + 4)
    then Some(s[y..y + 4])
    else None
  }

  /** A month name followed by a year: which alternative matched, the text it matched and
      the year. */
  datatype MonthMatch = MonthMatch(pattern: nat, name: string, year: string)

  /** The alternatives `names[j..]`, tried in order at position `i`; an alternative whose
      year does not follow gives way to the next one. */
  function AlternativeFrom(s: string, i: nat, names: seq<string>, j: nat): (r: Option<MonthMatch>)
    requires j <= |names|
    decreases |names| - j
    ensures r.Some? ==> (j <= r.value.pattern < |names| && StartsAtCI(s, i, names[r.value.pattern])
      && r.value.name == s[i..i + |names[r.value.pattern]|] && IsYear(r.value.year))
  {
    if j == |names| then None
    else if AlternativeMatches(s, i, names[j]) then
      Some(MonthMatch(j, s[i..i + |names[j]|], YearAfterSpaces(s, i + |names[j]|).value))
    else AlternativeFrom(s, i, names, j + 1)
  }

  /** The alternative `name` matches at position `i`, and a year follows it. */
  predicate AlternativeMatches(s: string, i: nat, name: string) {
    StartsAtCI(s, i, name) && YearAfterSpaces(s, i + |name|).Some?
  }

  /** The month alternation tried at position `i`. */
  function MonthYearFrom(s: string, i: nat): Option<MonthMatch> {
    AlternativeFrom(s, i, MONTH_PATTERNS, 0)
  }

  /** `\b(janvier|...|décembre)\s+(20\d{2})\b` (flag `i`) at position `i`. */
  function MonthYearAt(s: string, i: nat): Option<MonthMatch> {
    if BoundaryBefore(s, i) then MonthYearFrom(s, i) else None
  }

  /** `\b(20\d{2}-\d{2}-\d{2})\b` at position `i`. */
  function IsoDateAt(s: string, i: nat): Option<string> {
    if BoundaryBefore(s, i) && i + 10 <= |s| && IsoShape(s[i..i + 10]) && BoundaryAfter(s, i + 10)
    then Some(s[i..i + 10])
    else None
  }

  /** The shape `20dd-dd-dd`. */
  predicate IsoShape(t: string) {
    |t| == 10 && t[0] == '2' && t[1] == '0' && IsDigit(t[2]) && IsDigit(t[3]) && t[4] == '-'
    && IsDigit(t[5]) && IsDigit(t[6]) && t[7] == '-' && IsDigit(t[8]) && IsDigit(t[9])
  }

  /** The month of an ISO date is between 1 and 12. */
  predicate RealMonth(t: string)
    requires IsoShape(t)
  {
    1 <= DigitsValue(t[5..7]) <= 12
  }

  /** A French date: the day digits and the month-year that follows. */
  datatype DayMatch = DayMatch(day: string, monthAt: nat, month: MonthMatch)

  /** `\b(\d{1,2})\s+` at position `i`: the day and where the month name starts. A run of
      three or more digits fails, because no shorter prefix of it is followed by white
      space. */
  function DayAt(s: string, i: nat): (r: Option<(string, nat)>)
    ensures r.Some? ==> 1 <= |r.value.0| <= 2 && AllDigits(r.value.0)
  {
    var d := DigitRun(s, i);
    if !BoundaryBefore(s, i) || d == 0 || d > 2 || i > |s| then None
    else
      var k := SpaceRun(s, i + d);
      if k == 0 then None
      else
        DigitRunSlice(s, i);
        Some((s[i..i + d], i + d + k))
  }

  /** `\b(\d{1,2})\s+(janvier|...)\s+(20\d{2})\b` (flag `i`) at position `i`. */
  function DayMonthYearAt(s: string, i: nat): (r: Option<DayMatch>)
    ensures r.Some? ==> 1 <= |r.value.day| <= 2 && AllDigits(r.value.day)
    ensures r.Some? ==> FrenchMonthToNumber(r.value.month.name).Some? && IsYear(r.value.month.year)
  {
    match DayAt(s, i)
    case None => None
    case Some((day, at)) =>
      match MonthYearFrom(s, at)
      case None => None
      case Some(m) =>
        MonthFromKnown(s, at, m);
        Some(DayMatch(day, at, m))
  }

  /** Lower-case letters, ASCII or Latin-1. */
  predicate Letters(p: string) {
    forall i | 0 <= i < |p| :: ('a' <= p[i] <= 'z') || ('\U{00E0}' <= p[i] <= '\U{00FE}')
  }

  /** Names of lower-case letters, each of which `frenchMonthToNumber` knows. */
  predicate RecognisedNames(names: seq<string>) {
    forall j | 0 <= j < |names| :: Letters(names[j]) && FrenchMonthToNumber(names[j]).Some?
  }

  lemma PatternsRecognised()
    ensures RecognisedNames(MONTH_PATTERNS)
  {
    forall j | 0 <= j < |MONTH_PATTERNS|
      ensures Letters(MONTH_PATTERNS[j]) && FrenchMonthToNumber(MONTH_PATTERNS[j]).Some?
    {
      PatternLetters(j);
      PatternMonthNumber(j);
    }
  }

  /** Whatever an alternation of recognised names captures is recognised too. */
  lemma AlternativeRecognised(s: string, i: nat, names: seq<string>, j: nat, m: MonthMatch)
    requires j <= |names| && RecognisedNames(names)
    requires AlternativeFrom(s, i, names, j) == Some(m)
    ensures FrenchMonthToNumber(m.name) == FrenchMonthToNumber(names[m.pattern])
    ensures FrenchMonthToNumber(m.name).Some?
  {
    FoldedNameNumber(m.name, names[m.pattern]);
  }

  /** The month alternation only captures names `frenchMonthToNumber` knows. */
  lemma MonthFromKnown(s: string, i: nat, m: MonthMatch)
    requires MonthYearFrom(s, i) == Some(m)
    ensures FrenchMonthToNumber(m.name).Some? && IsYear(m.year)
  {
    PatternsRecognised();
    AlternativeRecognised(s, i, MONTH_PATTERNS, 0, m);
  }

  lemma MatchedMonthKnown(s: string, i: nat, m: MonthMatch)
    requires MonthYearAt(s, i) == Some(m)
    ensures FrenchMonthToNumber(m.name).Some? && IsYear(m.year)
  {
    MonthFromKnown(s, i, m);
  }

  /** A name that case-folds onto a lower-case word gets the word's month number. */
  lemma FoldedNameNumber(name: string, p: string)
    requires CaseFolds(name, p) && Letters(p)
    ensures FrenchMonthToNumber(name) == FrenchMonthToNumber(p)
  {
    SameKeyAsPattern(name, p);
    WordIsNormalized(p);
    SameKeySameNumber(name, p);
  }

  lemma SameKeySameNumber(a: string, b: string)
    requires NormalizeText(a) == NormalizeText(b)
    ensures FrenchMonthToNumber(a) == FrenchMonthToNumber(b)
  {
    var key := FoldMonthAccents(NormalizeText(a));
    assert FoldMonthAccents(NormalizeText(b)) == key;
  }

  /** A `20dd` year followed by a two-digit month is a six-digit key. */
  lemma KeyDigits(year: string, month: string)
    requires IsYear(year)
    requires |month| == 2 && AllDigits(month) && 1 <= DigitsValue(month) <= 12
    ensures IsMonthKey(year + month)
  {
    assert (year + month)[..2] == year[..2];
    assert (year + month)[4..] == month;
  }

  // ----- extractMonthKeyFromFreeInvoice -----

  /** A `YYYYMM` key of the twenty-first century with a real month. */
  predicate IsMonthKey(k: string) {
    IsSixDigits(k) && k[..2] == "20" && 1 <= DigitsValue(k[4..]) <= 12
  }

  /** The second half of `extractMonthKeyFromFreeInvoice`: the first French "month year"
      of the normalized label. The lookup of the captured name never fails. */
  function MonthKeyFromLabel(text: string): (r: Option<string>)
    ensures r.Some? <==> Search(NormalizeText(text), MonthYearAt, 0).Some?
    ensures r.Some? ==> IsMonthKey(r.value)
  {
    var normalized := NormalizeText(text);
    match Search(normalized, MonthYearAt, 0)
    case None => None
    case Some((i, m)) =>
      MatchedMonthKnown(normalized, i, m);
      match FrenchMonthToNumber(m.name)
      case None => None
      case Some(month) =>
        KeyDigits(m.year, month);
        Some(m.year + month)
  }

  /** `extractMonthKeyFromFreeInvoice(href, text)`: the `mois` query parameter of the link
      when it has six digits, else the month key of the label. */
  function ExtractMonthKeyFromFreeInvoice(href: string, text: string): (r: Option<string>)
    ensures r.Some? ==> IsSixDigits(r.value)
    ensures Search(href, MoisParamAt, 0).Some? ==> r == Some(Search(href, MoisParamAt, 0).value.1)
    ensures Search(href, MoisParamAt, 0).None? ==> r == MonthKeyFromLabel(text)
  {
    match Search(href, MoisParamAt, 0)
    case Some((_, digits)) => Some(digits)
    case None => MonthKeyFromLabel(text)
  }

  // ----- extractBillDateISO -----

  /** The text the bill date is read from: the download button's text when it has any,
      else the page's. */
  function BillDateSource(button: Option<string>, body: string): string {
    if button.Some? && button.value != "" then button.value else body
  }

  /** The second half of `extractBillDateISO`: the first French date `d month 20dd` of the
      normalized text, as `YYYY-MM-DD` with the day padded to two digits. */
  function FrenchBillDate(text: string): (r: Option<string>)
    ensures r.Some? <==> Search(text, DayMonthYearAt, 0).Some?
    ensures r.Some? ==> IsoShape(r.value) && RealMonth(r.value)
  {
    match Search(text, DayMonthYearAt, 0)
    case None => None
    case Some((i, d)) =>
      DateMatchKnown(text, i, d);
      var day := PadStart2(d.day);
      match FrenchMonthToNumber(d.month.name)
      case None => None
      case Some(month) =>
        PaddedDay(d.day);
        IsoOfParts(d.month.year, month, day);
        Some(d.month.year + "-" + month + "-" + day)
  }

  /** The normalized text the bill date is read from. */
  function BillDateText(button: Option<string>, body: string): string {
    NormalizeText(BillDateSource(button, body))
  }

  /** `extractBillDateISO()`: the first ISO date `20dd-dd-dd` of the normalized text,
      else its first French date. */
  function ExtractBillDateISO(button: Option<string>, body: string): (r: Option<string>)
    ensures r.Some? ==> IsoShape(r.value)
    ensures Search(BillDateText(button, body), IsoDateAt, 0).Some? ==>
      r == Some(Search(BillDateText(button, body), IsoDateAt, 0).value.1)
    ensures Search(BillDateText(button, body), IsoDateAt, 0).None? ==>
      r == FrenchBillDate(BillDateText(button, body))
  {
    var text := BillDateText(button, body);
    if text == "" then
      EmptyTextHasNoDate();
      None
    else match Search(text, IsoDateAt, 0)
      case Some((_, iso)) => IsoMatchShape(text, iso); Some(iso)
      case None => FrenchBillDate(text)
  }

  lemma EmptyTextHasNoDate()
    ensures Search("", IsoDateAt, 0).None? && FrenchBillDate("").None?
  {
    assert IsoDateAt("", 0).None?;
    assert DayMonthYearAt("", 0).None?;
  }

  lemma IsoMatchShape(s: string, iso: string)
    requires Search(s, IsoDateAt, 0).Some? && Search(s, IsoDateAt, 0).value.1 == iso
    ensures IsoShape(iso)
  {
  }

  lemma DateMatchKnown(s: string, i: nat, d: DayMatch)
    requires Search(s, DayMonthYearAt, 0) == Some((i, d))
    ensures 1 <= |d.day| <= 2 && AllDigits(d.day)
    ensures FrenchMonthToNumber(d.month.name).Some? && IsYear(d.month.year)
  {
    assert DayMonthYearAt(s, i) == Some(d);
  }

  lemma PaddedDay(day: string)
    requires 1 <= |day| <= 2 && AllDigits(day)
    ensures |PadStart2(day)| == 2 && AllDigits(PadStart2(day))
  {
  }

  lemma IsoOfParts(year: string, month: string, day: string)
    requires IsYear(year)
    requires |month| == 2 && AllDigits(month) && 1 <= DigitsValue(month) <= 12
    requires |day| == 2 && AllDigits(day)
    ensures IsoShape(year + "-" + month + "-" + day)
    ensures RealMonth(year + "-" + month + "-" + day)
  {
    var t := year + "-" + month + "-" + day;
    assert t[5..7] == month;
    assert year[0] == year[..2][0];
  }

  // ----- What the rules find in typical labels -----

  /** `s` holds, from position `i`, the word `w`, one space and the year, and a word
      boundary follows the year. */
  predicate WordYearAt(s: string, i: nat, w: string, year: string) {
    i + |w| + 5 <= |s| && s[i..i + |w|] == w && s[i + |w|] == ' '
    && s[i + |w| + 1..i + |w| + 5] == year && BoundaryAfter(s, i + |w| + 5)
  }

  /** The word is followed by exactly the year. */
  lemma YearAfterWord(s: string, i: nat, w: string, year: string)
    requires WordYearAt(s, i, w, year) && IsYear(year)
    ensures YearAfterSpaces(s, i + |w|) == Some(year)
  {
    var j := i + |w|;
    assert s[j + 1] == year[0];
    assert SpaceRun(s, j + 1) == 0;
  }

  /** A lower-case word matches itself under the `i` flag. */
  lemma WordStartsAt(s: string, i: nat, w: string, year: string)
    requires WordYearAt(s, i, w, year) && Letters(w) && IsYear(year)
    ensures AlternativeMatches(s, i, w)
  {
    YearAfterWord(s, i, w, year);
  }

  /** An alternative that matches in front of the word and is followed by a year is the
      word itself: a longer name would have to match the space, a shorter one would need
      white space inside the word. */
  lemma MatchedAlternativeIsWord(s: string, i: nat, p: string, w: string, year: string)
    requires WordYearAt(s, i, w, year) && Letters(p) && Letters(w)
    requires AlternativeMatches(s, i, p)
    ensures p == w
  {
    assert IsSpace(s[i + |p|]);
    assert forall k | i <= k < i + |w| :: s[k] == w[k - i];
  }

  /** The year an alternative captured is the year that follows the name it matched. */
  lemma {:induction false} AlternativeYear(s: string, i: nat, names: seq<string>, j: nat, m: MonthMatch)
    requires j <= |names| && AlternativeFrom(s, i, names, j) == Some(m)
    ensures m.pattern < |names| && Some(m.year) == YearAfterSpaces(s, i + |names[m.pattern]|)
    decreases |names| - j
  {
    if !AlternativeMatches(s, i, names[j]) {
      AlternativeYear(s, i, names, j + 1, m);
    }
  }

  /** The alternation does not pass over an alternative that matches: it succeeds, with
      that alternative or an earlier one. */
  lemma {:induction false} AlternativeFinds(s: string, i: nat, names: seq<string>, q: nat, j: nat)
    requires q <= j < |names| && AlternativeMatches(s, i, names[j])
    ensures AlternativeFrom(s, i, names, q).Some?
    ensures AlternativeFrom(s, i, names, q).value.pattern <= j
    decreases j - q
  {
    if !AlternativeMatches(s, i, names[q]) {
      AlternativeFinds(s, i, names, q + 1, j);
    }
  }

  /** Whichever alternative matches in front of a lower-case name followed by a year
      captures exactly that name and that year, provided the name is among the
      alternatives. */
  lemma AlternativeCaptures(s: string, i: nat, names: seq<string>, j: nat, year: string)
    requires j < |names| && forall k | 0 <= k < |names| :: Letters(names[k])
    requires WordYearAt(s, i, names[j], year) && IsYear(year)
    ensures AlternativeFrom(s, i, names, 0).Some?
    ensures AlternativeFrom(s, i, names, 0).value.name == names[j]
    ensures AlternativeFrom(s, i, names, 0).value.year == year
  {
    var w := names[j];
    WordStartsAt(s, i, w, year);
    AlternativeFinds(s, i, names, 0, j);
    var m := AlternativeFrom(s, i, names, 0).value;
    AlternativeYear(s, i, names, 0, m);
    MatchedAlternativeIsWord(s, i, names[m.pattern], w, year);
    YearAfterWord(s, i, w, year);
  }

  /** The month alternation in front of a month name and a year captures both. */
  lemma MonthYearCaptures(s: string, i: nat, j: nat, year: string)
    requires j < |MONTH_PATTERNS| && IsYear(year) && WordYearAt(s, i, MONTH_PATTERNS[j], year)
    ensures MonthYearFrom(s, i).Some?
    ensures MonthYearFrom(s, i).value.name == MONTH_PATTERNS[j]
    ensures MonthYearFrom(s, i).value.year == year
  {
    PatternsRecognised();
    PatternLetters(j);
    AlternativeCaptures(s, i, MONTH_PATTERNS, j, year);
  }

  lemma PatternNonEmpty(j: nat)
    requires j < |MONTH_PATTERNS|
    ensures |MONTH_PATTERNS[j]| >= 3
  {
  }

  /** A non-empty word of lower-case letters is normalized. */
  lemma WordNormalized(w: string)
    requires Letters(w) && |w| > 0
    ensures Normalized(w)
  {
  }

  /** A non-empty string of digits is normalized. */
  lemma DigitsNormalized(d: string)
    requires AllDigits(d) && |d| > 0
    ensures Normalized(d) && CaseFolds(d, d)
  {
  }

  /** The word and the year, as the end of a subject. */
  lemma WordYearAtEnd(pre: string, w: string, year: string)
    requires |year| == 4
    ensures WordYearAt(pre + w + " " + year, |pre|, w, year)
  {
    var s := pre + w + " " + year;
    assert s[|pre|..|pre| + |w|] == w;
    assert s[|pre| + |w| + 1..|pre| + |w| + 5] == year;
  }

  lemma WordYearAtStart(w: string, year: string)
    requires |year| == 4
    ensures WordYearAt(w + " " + year, 0, w, year)
  {
    var s := w + " " + year;
    assert s[..|w|] == w;
    assert s[|w| + 1..|w| + 5] == year;
  }

  /** A name spelled in any case, a space and a year: the key is the lower-case name, the
      space and the year. */
  lemma NameYearKey(name: string, w: string, year: string)
    requires CaseFolds(name, w) && Letters(w) && |w| > 0 && IsYear(year)
    ensures NormalizeText(name + " " + year) == w + " " + year
    ensures Normalized(w + " " + year) && CaseFolds(name + " " + year, w + " " + year)
  {
    DigitsNormalized(year);
    WordNormalized(w);
    JoinNormalized(w, year);
    CaseFoldsJoin(name, w, year, year);
    FoldedKey(name + " " + year, w + " " + year);
  }

  /** A month name of the alternation, in any case, followed by one space and a year is
      read as that month: the label "Janvier 2024" gives the key "202401". */
  lemma LabelMonthKey(name: string, j: nat, year: string)
    requires j < |MONTH_PATTERNS| && CaseFolds(name, MONTH_PATTERNS[j]) && IsYear(year)
    ensures 1 <= PATTERN_MONTHS[j] <= 12
    ensures MonthKeyFromLabel(name + " " + year) == Some(year + MonthNumber(PATTERN_MONTHS[j]))
  {
    var w := MONTH_PATTERNS[j];
    var s := w + " " + year;
    PatternLetters(j);
    PatternNonEmpty(j);
    NameYearKey(name, w, year);
    WordYearAtStart(w, year);
    MonthYearCaptures(s, 0, j, year);
    var m := MonthYearFrom(s, 0).value;
    PatternMonthNumber(j);
    LabelKeyAtStart(name + " " + year, m);
  }

  /** A label whose key starts with a month and a year gives their key. */
  lemma LabelKeyAtStart(text: string, m: MonthMatch)
    requires MonthYearFrom(NormalizeText(text), 0) == Some(m) && FrenchMonthToNumber(m.name).Some?
    ensures MonthKeyFromLabel(text) == Some(m.year + FrenchMonthToNumber(m.name).value)
  {
    var s := NormalizeText(text);
    assert MonthYearAt(s, 0) == Some(m);
    SearchFinds(s, MonthYearAt, 0, 0, m);
  }

  /** A day of one or two digits, then a space: the day and the position after the space. */
  lemma DayThenRest(s: string, day: string)
    requires 1 <= |day| <= 2 && AllDigits(day) && |day| + 1 < |s|
    requires s[..|day|] == day && s[|day|] == ' ' && !IsSpace(s[|day| + 1]) && !IsDigit(s[|day| + 1])
    ensures DayAt(s, 0) == Some((day, |day| + 1))
  {
    assert IsDigit(s[0]) && (|day| == 2 ==> IsDigit(s[1]));
    assert DigitRun(s, |day|) == 0;
    assert |day| == 2 ==> DigitRun(s, 1) == 1;
    assert DigitRun(s, 0) == |day|;
    assert SpaceRun(s, |day| + 1) == 0;
  }

  /** No ISO date is found in a text without a dash. */
  lemma NoIsoWithoutDash(s: string)
    requires '-' !in s
    ensures Search(s, IsoDateAt, 0).None?
  {
    forall i | 0 <= i <= |s| ensures IsoDateAt(s, i).None? {
      if i + 10 <= |s| {
        assert s[i..i + 10][4] == s[i + 4];
      }
    }
    SearchMisses(s, IsoDateAt, 0);
  }

  /** The key of "d month year", with the month name in any case. */
  lemma DateKey(day: string, name: string, w: string, year: string)
    requires 1 <= |day| <= 2 && AllDigits(day)
    requires CaseFolds(name, w) && Letters(w) && |w| > 0 && IsYear(year)
    ensures NormalizeText(day + " " + name + " " + year) == day + " " + w + " " + year
  {
    NameYearKey(name, w, year);
    DigitsNormalized(day);
    JoinNormalized(day, w + " " + year);
    CaseFoldsJoin(day, day, name + " " + year, w + " " + year);
    assert day + " " + (name + " " + year) == day + " " + name + " " + year;
    assert day + " " + (w + " " + year) == day + " " + w + " " + year;
    FoldedKey(day + " " + name + " " + year, day + " " + w + " " + year);
  }

  /** A download button reading "d month year" (one- or two-digit day, a month name of the
      alternation in any case) gives that date: "5 Mars 2024" gives "2024-03-05". */
  lemma ButtonFrenchDate(day: string, name: string, j: nat, year: string, body: string)
    requires 1 <= |day| <= 2 && AllDigits(day) && IsYear(year)
    requires j < |MONTH_PATTERNS| && CaseFolds(name, MONTH_PATTERNS[j])
    ensures 1 <= PATTERN_MONTHS[j] <= 12
    ensures ExtractBillDateISO(Some(day + " " + name + " " + year), body)
      == Some(year + "-" + MonthNumber(PATTERN_MONTHS[j]) + "-" + PadStart2(day))
  {
    var w := MONTH_PATTERNS[j];
    PatternLetters(j);
    PatternNonEmpty(j);
    var s := day + " " + w + " " + year;
    DateKey(day, name, w, year);
    assert BillDateText(Some(day + " " + name + " " + year), body) == s;
    NoDash(day, w, year);
    NoIsoWithoutDash(s);
    PatternMonthNumber(j);
    FrenchDateAtStart(day, j, year);
  }

  /** "d month year" has no dash. */
  lemma NoDash(day: string, w: string, year: string)
    requires AllDigits(day) && Letters(w) && IsYear(year)
    ensures '-' !in day + " " + w + " " + year
  {
    var s := day + " " + w + " " + year;
    forall k | 0 <= k < |s| ensures s[k] != '-' {
      if k < |day| {
        assert s[k] == day[k];
      } else if |day| < k < |day| + 1 + |w| {
        assert s[k] == w[k - |day| - 1];
      } else if k > |day| + 1 + |w| {
        assert s[k] == year[k - |day| - |w| - 2];
      }
    }
  }

  /** "d word year": the day rule matches at the start and the word and year follow. */
  lemma DayWordYear(day: string, w: string, year: string)
    requires 1 <= |day| <= 2 && AllDigits(day) && Letters(w) && |w| > 0 && IsYear(year)
    ensures DayAt(day + " " + w + " " + year, 0) == Some((day, |day| + 1))
    ensures WordYearAt(day + " " + w + " " + year, |day| + 1, w, year)
  {
    var s := day + " " + w + " " + year;
    assert s[..|day|] == day && s[|day|] == ' ' && s[|day| + 1] == w[0];
    DayThenRest(s, day);
    WordYearAtEnd(day + " ", w, year);
  }

  /** The French date rule reads "d month year" as that date. */
  lemma FrenchDateAtStart(day: string, j: nat, year: string)
    requires 1 <= |day| <= 2 && AllDigits(day) && IsYear(year) && j < |MONTH_PATTERNS|
    ensures exists month :: (FrenchMonthToNumber(MONTH_PATTERNS[j]) == Some(month)
      && FrenchBillDate(day + " " + MONTH_PATTERNS[j] + " " + year) == Some(year + "-" + month + "-" + PadStart2(day)))
  {
    var w := MONTH_PATTERNS[j];
    var s := day + " " + w + " " + year;
    PatternLetters(j);
    PatternNonEmpty(j);
    DayWordYear(day, w, year);
    MonthYearCaptures(s, |day| + 1, j, year);
    var m := MonthYearFrom(s, |day| + 1).value;
    DateAtStart(s, day, |day| + 1, m);
  }

  /** A day and a month-year read at the start of the text make its date. */
  lemma DateAtStart(s: string, day: string, at: nat, m: MonthMatch)
    requires DayAt(s, 0) == Some((day, at)) && MonthYearFrom(s, at) == Some(m)
    ensures FrenchMonthToNumber(m.name).Some?
    ensures FrenchBillDate(s) == Some(m.year + "-" + FrenchMonthToNumber(m.name).value + "-" + PadStart2(day))
  {
    MonthFromKnown(s, at, m);
    var d := DayMatch(day, at, m);
    assert DayMonthYearAt(s, 0) == Some(d);
    SearchFinds(s, DayMonthYearAt, 0, 0, d);
  }

  /** A download button whose text is an ISO date gives that date, unchanged. */
  lemma ButtonIsoDate(t: string, body: string)
    requires IsoShape(t)
    ensures ExtractBillDateISO(Some(t), body) == Some(t)
  {
    IsoNormalized(t);
    IsoAtStart(t);
  }

  lemma IsoNormalized(t: string)
    requires IsoShape(t)
    ensures NormalizeText(t) == t
  {
    forall k | 0 <= k < |t| ensures IsDigit(t[k]) || t[k] == '-' {
    }
    AsciiNormalized(t);
    NormalizedFixed(t);
  }

  lemma IsoAtStart(t: string)
    requires IsoShape(t)
    ensures Search(t, IsoDateAt, 0) == Some((0, t))
  {
    assert t[0..10] == t;
    assert IsoDateAt(t, 0) == Some(t);
    SearchFinds(t, IsoDateAt, 0, 0, t);
  }

  /** A link with `?mois=` and six digits gives those digits, whatever its label says. */
  lemma HrefMonthKey(pre: string, digits: string, post: string, text: string)
    requires '?' !in pre && '&' !in pre && IsSixDigits(digits)
    requires |post| == 0 || !IsWordChar(post[0])
    ensures ExtractMonthKeyFromFreeInvoice(pre + "?mois=" + digits + post, text) == Some(digits)
  {
    var h := pre + "?mois=" + digits + post;
    var i := |pre|;
    forall k | 0 <= k < i ensures MoisParamAt(h, k).None? {
      assert h[k] == pre[k];
    }
    assert h[i..i + 6] == "?mois=";
    assert h[i + 6..i + 12] == digits;
    assert h[i + 12..] == post;
    assert MoisParamAt(h, i) == Some(digits);
    SearchFinds(h, MoisParamAt, 0, i, digits);
  }

  /** A link without a query string leaves the month to its label. */
  lemma HrefWithoutQuery(href: string, text: string)
    requires '?' !in href && '&' !in href
    ensures ExtractMonthKeyFromFreeInvoice(href, text) == MonthKeyFromLabel(text)
  {
    forall k | 0 <= k <= |href| ensures MoisParamAt(href, k).None? {
      if k < |href| {
        assert href[k] in href;
      }
    }
    SearchMisses(href, MoisParamAt, 0);
  }

  // ----- The current month, from the clock -----

  /** The key `YYYYMM` of the clock's month (the year as `String(year)`, the month
      padded to two digits): the decimal digits read back as the year and the month. */
  function CurrentMonthKey(year: nat, month: nat): (r: string)
    requires 1 <= month <= 12
    ensures AllDigits(r) && |r| >= 3
    ensures DigitsValue(r[..|r| - 2]) == year && DigitsValue(r[|r| - 2..]) == month
  {
    var r := NatToString(year) + MonthNumber(month);
    assert r[..|r| - 2] == NatToString(year);
    assert r[|r| - 2..] == MonthNumber(month);
    r
  }

  /** `getCurrentMonthStartISO()`: the first day of the clock's month, `YYYY-MM-01`. */
  function MonthStartISO(year: nat, month: nat): (r: string)
    requires 1 <= month <= 12
    ensures |r| >= 7 && r[|r| - 3..] == "-01"
    ensures r[..|r| - 3] == NatToString(year) + "-" + MonthNumber(month)
  {
    var r := NatToString(year) + "-" + MonthNumber(month) + "-01";
    assert r[..|r| - 3] == NatToString(year) + "-" + MonthNumber(month);
    r
  }

  /** A year of the twenty-first century prints as a `20dd` year. */
  lemma CenturyYear(year: nat)
    requires 2000 <= year <= 2099
    ensures IsYear(NatToString(year))
  {
    assert NatToString(20) == "20";
    assert NatToString(year / 10) == "20" + [('0' as int + (year / 10) % 10) as char];
  }

  /** In the twenty-first century, the clock's month key is a `YYYYMM` key and the month
      start is an ISO date of the same month, whose first seven characters are the year,
      a dash and the month. */
  lemma CurrentMonthShapes(year: nat, month: nat)
    requires 2000 <= year <= 2099 && 1 <= month <= 12
    ensures IsMonthKey(CurrentMonthKey(year, month))
    ensures IsoShape(MonthStartISO(year, month)) && RealMonth(MonthStartISO(year, month))
    ensures MonthStartISO(year, month)[..4] + MonthStartISO(year, month)[5..7] == CurrentMonthKey(year, month)
  {
    var y := NatToString(year);
    var m := MonthNumber(month);
    CenturyYear(year);
    KeyDigits(y, m);
    IsoOfParts(y, m, "01");
    var r := MonthStartISO(year, month);
    assert r == y + "-" + m + "-" + "01";
    assert r[..4] == y && r[5..7] == m;
  }
}
