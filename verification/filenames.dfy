/** How a downloaded invoice is named: the per-provider rules read from the download URL,
    the `Content-Disposition` header, and the fallback chain of `deriveFileName`. */
module FileNames {
  import opened Wrappers
  import opened Text
  import opened Normalize
  import opened UriDecode
  import opened Dates
  import opened Orange

  // ----- URLs -----

  /** What the rules read from `new URL(url, location.href)`: the path and the query
      parameters in order of appearance. A URL that does not parse is `None`. */
  datatype ParsedUrl = ParsedUrl(path: string, params: seq<(string, string)>)

  /** `searchParams.has(key)`. */
  predicate ParamHas(params: seq<(string, string)>, key: string) {
    exists k | 0 <= k < |params| :: params[k].0 == key
  }

  /** `searchParams.get(key)`: the value of the first parameter named `key`. */
  function ParamGet(params: seq<(string, string)>, key: string): (r: Option<string>)
    ensures r.Some? <==> ParamHas(params, key)
    ensures r.Some? ==> (key, r.value) in params
  {
    if |params| == 0 then None
    else if params[0].0 == key then Some(params[0].1)
    else
      assert forall k | 0 < k < |params| :: params[k] == params[1..][k - 1];
      ParamGet(params[1..], key)
  }

  /** The value returned is the one of the first parameter with that name. */
  lemma {:induction false} ParamGetFirst(params: seq<(string, string)>, key: string, k: nat)
    requires k < |params| && params[k].0 == key
    requires forall j | 0 <= j < k :: params[j].0 != key
    ensures ParamGet(params, key) == Some(params[k].1)
  {
    if k > 0 {
      ParamGetFirst(params[1..], key, k - 1);
    }
  }

  /** `(searchParams.get(key) || "").trim()`. */
  function ParamText(params: seq<(string, string)>, key: string): (r: string)
    ensures Trimmed(r)
    ensures !ParamHas(params, key) ==> r == ""
  {
    Trim(ParamGet(params, key).GetOr(""))
  }

  /** A trimmed value is read back as it is. */
  lemma ParamTextOf(params: seq<(string, string)>, key: string, v: string)
    requires ParamGet(params, key) == Some(v) && Trimmed(v)
    ensures ParamText(params, key) == v
  {
    TrimFixed(v);
  }

  /** The test `/p$/i` for a pattern `p` of lower-case letters and punctuation. */
  predicate EndsWithCI(s: string, p: string) {
    |p| <= |s| && StartsAtCI(s, |s| - |p|, p)
  }

  // ----- Free -----

  const FREE_ENDPOINT := "facture_pdf.pl"

  /** The Free download endpoint: a path ending in `facture_pdf.pl` (any case) or a
      `no_facture` parameter. */
  predicate IsFreeInvoiceEndpoint(u: ParsedUrl) {
    EndsWithCI(u.path, FREE_ENDPOINT) || ParamHas(u.params, "no_facture")
  }

  /** `deriveFreePdfFileName`: the URL must parse and be the Free download endpoint. */
  function DeriveFreePdfFileName(url: Option<ParsedUrl>): (r: Option<string>)
    ensures r.Some? <==> url.Some? && IsFreeInvoiceEndpoint(url.value)
    ensures r.Some? ==> r.value == FreeName(ParamText(url.value.params, "no_facture"), ParamText(url.value.params, "mois"))
  {
    match url
    case None => None
    case Some(u) =>
      if !IsFreeInvoiceEndpoint(u) then None
      else Some(FreeName(ParamText(u.params, "no_facture"), ParamText(u.params, "mois")))
  }

  /** The name of a Free invoice: the invoice number and the six-digit month, whichever
      are present, in that order; `facture_free.pdf` when neither is. */
  function FreeName(no: string, mois: string): string {
    if no != "" && IsSixDigits(mois) then "facture_" + no + "_" + mois + ".pdf"
    else if no != "" then "facture_" + no + ".pdf"
    else if IsSixDigits(mois) then "facture_" + mois + ".pdf"
    else "facture_free.pdf"
  }

  /** `parts` joined by `sep`, the JavaScript `parts.join(sep)`. */
  function Join(parts: seq<string>, sep: string): (r: string)
    ensures |parts| == 1 ==> r == parts[0]
  {
    if |parts| == 0 then "" else if |parts| == 1 then parts[0]
    else Join(parts[..|parts| - 1], sep) + sep + parts[|parts| - 1]
  }

  /** The parts of a Free file name: the non-empty invoice number, then the month when it
      is six digits. */
  function FreeParts(no: string, mois: string): seq<string> {
    (if no != "" then [no] else []) + (if IsSixDigits(mois) then [mois] else [])
  }

  /** A Free file name is `facture_`, the parts that are present joined by `_` (or `free`
      when none is), and `.pdf`. */
  lemma FreeNameJoinsParts(no: string, mois: string)
    ensures |FreeParts(no, mois)| <= 2
    ensures FreeName(no, mois)
      == "facture_" + Join(if |FreeParts(no, mois)| == 0 then ["free"] else FreeParts(no, mois), "_") + ".pdf"
  {
    var parts := FreeParts(no, mois);
    if no != "" && IsSixDigits(mois) {
      assert parts == [no, mois];
      assert parts[..1] == [no];
      assert Join(parts, "_") == no + "_" + mois;
      assert "facture_" + (no + "_" + mois) + ".pdf" == "facture_" + no + "_" + mois + ".pdf";
    } else if no != "" {
      assert parts == [no];
    } else if IsSixDigits(mois) {
      assert parts == [mois];
    } else {
      assert parts == [];
      assert Join(["free"], "_") == "free";
      assert "facture_" + "free" + ".pdf" == "facture_free.pdf";
    }
  }

  /** A URL with a `no_facture` parameter is a Free invoice whatever its path, and the
      name carries the invoice number and the six-digit month. */
  lemma FreeInvoiceNumberParam(u: ParsedUrl, no: string, mois: string)
    requires ParamGet(u.params, "no_facture") == Some(no) && ParamGet(u.params, "mois") == Some(mois)
    requires no != "" && Trimmed(no) && IsSixDigits(mois)
    ensures DeriveFreePdfFileName(Some(u)) == Some("facture_" + no + "_" + mois + ".pdf")
  {
    ParamTextOf(u.params, "no_facture", no);
    assert Trimmed(mois) by {
      assert IsDigit(mois[0]) && IsDigit(mois[5]);
    }
    ParamTextOf(u.params, "mois", mois);
  }

  // ----- Free Mobile -----

  const FREE_MOBILE_API := "/api/si/invoice/"

  /** `/\/api\/SI\/invoice\/(\d+)\b/i` at position `i`: the invoice number. The greedy
      `\d+` backtracks to a shorter run only to find a word boundary, and none exists
      inside a digit run, so the whole run must be followed by a non-word character. */
  function InvoiceIdAt(s: string, i: nat): (r: Option<string>)
    ensures r.Some? ==> |r.value| > 0 && AllDigits(r.value)
  {
    if StartsAtCI(s, i, FREE_MOBILE_API) then
      var j := i + |FREE_MOBILE_API|;
      var n := DigitRun(s, j);
      if n > 0 && BoundaryAfter(s, j + n) then
        DigitRunSlice(s, j);
        Some(s[j..j + n])
      else None
    else None
  }

  /** `deriveFreeMobilePdfFileName`: `facture_free_mobile_` and the invoice number read
      from the path. */
  function DeriveFreeMobilePdfFileName(url: Option<ParsedUrl>): (r: Option<string>)
    ensures r.Some? <==> url.Some? && Search(url.value.path, InvoiceIdAt, 0).Some?
    ensures r.Some? ==> var id := Search(url.value.path, InvoiceIdAt, 0).value.1;
      |id| > 0 && AllDigits(id) && r.value == "facture_free_mobile_" + id + ".pdf"
  {
    match url
    case None => None
    case Some(u) =>
      match Search(u.path, InvoiceIdAt, 0)
      case None => None
      case Some((_, id)) => Some("facture_free_mobile_" + id + ".pdf")
  }

  /** The invoice number of a Free Mobile API path is read back into the file name,
      whatever precedes the API segment, as long as the segment does not start earlier. */
  lemma FreeMobileIdRoundTrip(prefix: string, api: string, id: string, rest: string, params: seq<(string, string)>)
    requires CaseFolds(api, FREE_MOBILE_API)
    requires forall i | 0 <= i < |prefix| :: !StartsAtCI(prefix + api, i, FREE_MOBILE_API)
    requires |id| > 0 && AllDigits(id)
    requires rest == "" || !IsWordChar(rest[0])
    ensures DeriveFreeMobilePdfFileName(Some(ParsedUrl(prefix + api + id + rest, params)))
      == Some("facture_free_mobile_" + id + ".pdf")
  {
    var head := prefix + api;
    var s := head + id + rest;
    var j := |head|;
    var k := |prefix|;
    assert s[..j] == head;
    assert s[k..j] == api;
    assert s[j..j + |id|] == id;
    DigitRunOf(s, j, |id|);
    assert InvoiceIdAt(s, k) == Some(id);
    forall i | 0 <= i < k ensures InvoiceIdAt(s, i).None? {
      assert !StartsAtCI(head, i, FREE_MOBILE_API);
      assert i + |FREE_MOBILE_API| <= |head|;
      assert s[i..i + |FREE_MOBILE_API|] == head[i..i + |FREE_MOBILE_API|];
      assert !StartsAtCI(s, i, FREE_MOBILE_API);
    }
    SearchFinds(s, InvoiceIdAt, 0, k, id);
  }

  // ----- Navigo -----

  /** `deriveNavigoPdfFileName`: the document identifier from `id` (or, when that is
      missing or empty, `documentId`); without one, the current month for an
      attestation or direct-debit page. `year` and `month` are the clock's. */
  function DeriveNavigoPdfFileName(url: Option<ParsedUrl>, year: nat, month: nat): (r: Option<string>)
    requires 1 <= month <= 12
    ensures url.None? ==> r.None?
    ensures url.Some? && Trim(ParamGet(url.value.params, "id").GetOr("")) != "" ==>
      r == Some("attestation_navigo_" + Trim(ParamGet(url.value.params, "id").GetOr("")) + ".pdf")
    ensures (url.Some? && ParamGet(url.value.params, "id").GetOr("") == ""
             && Trim(ParamGet(url.value.params, "documentId").GetOr("")) != "") ==>
      r == Some("attestation_navigo_" + Trim(ParamGet(url.value.params, "documentId").GetOr("")) + ".pdf")
  {
    match url
    case None => None
    case Some(u) =>
      var id := Trim(NavigoRawId(u.params));
      if id != "" then Some("attestation_navigo_" + id + ".pdf")
      else if ContainsCI(u.path, "attestation") || ContainsCI(u.path, "prelev") then
        Some("attestation_navigo_" + MonthStartISO(year, month)[..7] + ".pdf")
      else None
  }

  /** `searchParams.get("id") || searchParams.get("documentId")`, with a missing value read
      as the empty string. */
  function NavigoRawId(params: seq<(string, string)>): (r: string)
    ensures ParamGet(params, "id").Some? && ParamGet(params, "id").value != "" ==> r == ParamGet(params, "id").value
    ensures ParamGet(params, "id").GetOr("") == "" ==> r == ParamGet(params, "documentId").GetOr("")
  {
    match ParamGet(params, "id")
    case Some(v) => if v != "" then v else ParamGet(params, "documentId").GetOr("")
    case None => ParamGet(params, "documentId").GetOr("")
  }

  /** The document identifier names the file, whatever the path: a non-blank `id` wins
      over any `documentId`; only a missing or empty `id` defers to `documentId`; an `id`
      of white space alone is truthy, so `documentId` is not consulted and the page falls
      back to the month name (`NavigoMonthName`). */
  lemma NavigoDocumentId(u: ParsedUrl, year: nat, month: nat)
    requires 1 <= month <= 12
    ensures var id, doc := ParamGet(u.params, "id").GetOr(""), ParamGet(u.params, "documentId").GetOr("");
      var r := DeriveNavigoPdfFileName(Some(u), year, month);
      (Trim(id) != "" ==> r == Some("attestation_navigo_" + Trim(id) + ".pdf"))
      && (id == "" && Trim(doc) != "" ==> r == Some("attestation_navigo_" + Trim(doc) + ".pdf"))
      && (id != "" && Trim(id) == "" ==> Trim(NavigoRawId(u.params)) == "")
  {
  }

  /** Without an identifier, an attestation page is named after the current month as
      `YYYY-MM`, the current month key with a dash; any other page gets no Navigo name. */
  lemma NavigoMonthName(u: ParsedUrl, year: nat, month: nat)
    requires 2000 <= year <= 2099 && 1 <= month <= 12
    requires Trim(NavigoRawId(u.params)) == ""
    ensures DeriveNavigoPdfFileName(Some(u), year, month).Some?
      <==> ContainsCI(u.path, "attestation") || ContainsCI(u.path, "prelev")
    ensures DeriveNavigoPdfFileName(Some(u), year, month).Some? ==>
      exists m :: (|m| == 7 && m[..4] + m[5..] == CurrentMonthKey(year, month) && m[4] == '-'
        && DeriveNavigoPdfFileName(Some(u), year, month) == Some("attestation_navigo_" + m + ".pdf"))
  {
    var t := MonthStartISO(year, month);
    CurrentMonthShapes(year, month);
    var m := t[..7];
    assert m[..4] == t[..4] && m[5..] == t[5..7];
  }

  // ----- Content-Disposition -----

  /** The length of the run from `i` of characters outside `stops`: a greedy `[^…]*`. */
  function RunOutside(s: string, i: nat, stops: set<char>): (n: nat)
    decreases |s| - i
    ensures i + n <= |s| || (i >= |s| && n == 0)
    ensures i + n < |s| ==> s[i + n] in stops
  {
    if i < |s| && s[i] !in stops then 1 + RunOutside(s, i + 1, stops) else 0
  }

  /** The run covers exactly the characters it says it does. */
  lemma {:induction false} RunOutsideOf(s: string, i: nat, n: nat, stops: set<char>)
    requires i + n <= |s|
    requires forall k | i <= k < i + n :: s[k] !in stops
    requires i + n == |s| || s[i + n] in stops
    ensures RunOutside(s, i, stops) == n
    decreases n
  {
    if n > 0 {
      RunOutsideOf(s, i + 1, n - 1, stops);
    }
  }

  /** The run contains no stop character. */
  lemma {:induction false} RunOutsideAvoids(s: string, i: nat, stops: set<char>)
    ensures forall k | i <= k < i + RunOutside(s, i, stops) :: s[k] !in stops
    decreases |s| - i
  {
    if RunOutside(s, i, stops) > 0 {
      RunOutsideAvoids(s, i + 1, stops);
    }
  }

  /** The extended parameter prefix of section 4.3 of RFC 6266 with the RFC 5987 UTF-8
      charset, in lower case. */
  const UTF_FILENAME := "filename*=utf-8''"

  /** The plain parameter prefix. */
  const PLAIN_FILENAME := "filename="

  /** `/filename\*=UTF-8''([^;]+)/i` at position `i`: the raw encoded value. */
  function UtfFilenameAt(s: string, i: nat): (r: Option<string>)
    ensures r.Some? ==> |r.value| > 0 && ';' !in r.value
  {
    if StartsAtCI(s, i, UTF_FILENAME) then
      var j := i + |UTF_FILENAME|;
      var n := RunOutside(s, j, {';'});
      if n > 0 then
        RunOutsideAvoids(s, j, {';'});
        Some(s[j..j + n])
      else None
    else None
  }

  /** `/filename="?([^";]+)"?/i` at position `i`: the value, without an opening quote.
      When the optional quote is present but nothing follows it, backtracking to skip the
      quote cannot help, because the value may not begin with a quote either. */
  function PlainFilenameAt(s: string, i: nat): (r: Option<string>)
    ensures r.Some? ==> |r.value| > 0 && ';' !in r.value && '"' !in r.value
  {
    if StartsAtCI(s, i, PLAIN_FILENAME) then
      var j := i + |PLAIN_FILENAME|;
      var v := if j < |s| && s[j] == '"' then j + 1 else j;
      var n := RunOutside(s, v, {'"', ';'});
      if n > 0 then
        RunOutsideAvoids(s, v, {'"', ';'});
        Some(s[v..v + n])
      else None
    else None
  }

  /** `s.replace(/"/g, "")`. */
  function RemoveQuotes(s: string): (r: string)
    ensures '"' !in r
    ensures '"' !in s ==> r == s
    ensures forall c | c in r :: c in s
  {
    if |s| == 0 then ""
    else (if s[0] == '"' then "" else [s[0]]) + RemoveQuotes(s[1..])
  }

  /** `decodeURIComponentSafe`: the percent-decoded value, or the value itself when
      decoding throws. */
  function DecodeSafe(v: string): (r: string)
    ensures DecodeURIComponent(v).Some? ==> r == DecodeURIComponent(v).value
    ensures DecodeURIComponent(v).None? ==> r == v
    ensures '%' !in v ==> r == v
  {
    var r := DecodeURIComponent(v).GetOr(v);
    assert '%' !in v ==> r == v by {
      if '%' !in v {
        DecodePlain(v);
      }
    }
    r
  }

  /** The safe decoding inverts percent-encoding: an encoded name is read back. */
  lemma DecodeSafeRoundTrip(s: string)
    ensures DecodeSafe(PercentEncode(s)) == s
  {
    DecodeEncodeRoundTrip(s);
  }

  /** `parseFilenameFromContentDisposition`: the extended UTF-8 form wins over the plain
      one wherever each occurs; the extended value is unquoted and percent-decoded, the
      plain one trimmed. */
  function ParseContentDisposition(raw: string): (r: Option<string>)
    ensures raw == "" ==> r.None?
    ensures r.Some? <==> Search(raw, UtfFilenameAt, 0).Some? || Search(raw, PlainFilenameAt, 0).Some?
    ensures Search(raw, UtfFilenameAt, 0).Some? ==>
      r == Some(DecodeSafe(RemoveQuotes(Search(raw, UtfFilenameAt, 0).value.1)))
    ensures Search(raw, UtfFilenameAt, 0).None? && Search(raw, PlainFilenameAt, 0).Some? ==>
      r == Some(Trim(Search(raw, PlainFilenameAt, 0).value.1))
  {
    if raw == "" then None
    else match Search(raw, UtfFilenameAt, 0)
      case Some((_, v)) => Some(DecodeSafe(RemoveQuotes(v)))
      case None =>
        match Search(raw, PlainFilenameAt, 0)
        case Some((_, v)) => Some(Trim(v))
        case None => None
  }

  /** An escape character: `%` or an upper-case hexadecimal digit. */
  predicate EscapeChar(c: char) {
    c == '%' || ('0' <= c <= '9') || ('A' <= c <= 'F')
  }

  /** Percent-encoding produces only `%` and hexadecimal digits. */
  lemma {:induction false} PercentEncodeChars(s: string)
    ensures forall c | c in PercentEncode(s) :: EscapeChar(c)
  {
    if |s| > 0 {
      EscapeBytesChars(Utf8Encode(s[0]));
      PercentEncodeChars(s[1..]);
    }
  }

  lemma {:induction false} EscapeBytesChars(bs: seq<Byte>)
    ensures forall c | c in EscapeBytes(bs) :: EscapeChar(c)
  {
    if |bs| > 0 {
      EscapeBytesChars(bs[..|bs| - 1]);
      var b := bs[|bs| - 1];
      assert EscapeByte(b) == ['%', HexDigit(b / 16), HexDigit(b % 16)];
    }
  }

  /** An escaped value holds neither a parameter separator nor a quote. */
  lemma NoDelimiters(e: string)
    requires forall c | c in e :: EscapeChar(c)
    ensures ';' !in e && '"' !in e
  {
  }

  /** A non-empty value percent-encodes to a non-empty string. */
  lemma PercentEncodeNonEmpty(s: string)
    requires |s| > 0
    ensures |PercentEncode(s)| >= 3
  {
  }

  /** The extended parameter whose value runs to the end of the header is found at `p`. */
  lemma ExtendedValueAt(s: string, p: nat, v: string)
    requires p + |UTF_FILENAME| + |v| == |s| && StartsAtCI(s, p, UTF_FILENAME)
    requires s[p + |UTF_FILENAME|..] == v && |v| > 0 && ';' !in v
    ensures UtfFilenameAt(s, p) == Some(v)
  {
    var j := p + |UTF_FILENAME|;
    forall k | j <= k < |s| ensures s[k] !in {';'} {
      assert s[k] == v[k - j];
    }
    RunOutsideOf(s, j, |v|, {';'});
    assert s[j..j + |v|] == v;
  }

  /** No extended parameter starts before `p` when no `*` occurs before `p + 8`, where the
      `*` of a parameter starting at `p` would be. */
  lemma NoExtendedBefore(s: string, p: nat)
    requires p + 8 <= |s|
    requires forall k | 0 <= k < p + 8 :: s[k] != '*'
    ensures forall i | 0 <= i < p :: UtfFilenameAt(s, i).None?
  {
    forall i | 0 <= i < p ensures UtfFilenameAt(s, i).None? {
      if i + |UTF_FILENAME| <= |s| {
        assert s[i..i + |UTF_FILENAME|][8] == s[i + 8];
      }
    }
  }

  /** A parameter name folding to a pattern whose first eight characters are letters has
      no `*` there. */
  lemma TagHasNoStar(tag: string, p: string)
    requires CaseFolds(tag, p) && |p| >= 8 && p[..8] == "filename"
    ensures forall k | 0 <= k < 8 :: tag[k] != '*'
  {
    forall k | 0 <= k < 8 ensures tag[k] != '*' {
      assert p[k] == p[..8][k];
    }
  }

  /** The extended parameter found at `|pre|` in `pre + tag + v` yields `v` decoded. */
  lemma ExtendedAfter(pre: string, tag: string, v: string)
    requires '*' !in pre && CaseFolds(tag, UTF_FILENAME)
    requires |v| > 0 && ';' !in v && '"' !in v
    ensures ParseContentDisposition(pre + tag + v) == Some(DecodeSafe(v))
  {
    var s := pre + tag + v;
    assert s[|pre|..|pre| + |UTF_FILENAME|] == tag;
    assert s[|pre| + |UTF_FILENAME|..] == v;
    ExtendedValueAt(s, |pre|, v);
    TagHasNoStar(tag, UTF_FILENAME);
    forall k | 0 <= k < |pre| + 8 ensures s[k] != '*' {
      if k < |pre| {
        assert s[k] == pre[k];
      } else {
        assert s[k] == tag[k - |pre|];
      }
    }
    NoExtendedBefore(s, |pre|);
    SearchFinds(s, UtfFilenameAt, 0, |pre|, v);
  }

  /** Whatever precedes it, an RFC 5987 parameter carrying a percent-encoded name gives the
      name back, provided no `*` occurs earlier (so no earlier extended parameter). */
  lemma ExtendedFilenameWins(pre: string, tag: string, name: string)
    requires '*' !in pre && |name| > 0
    requires CaseFolds(tag, UTF_FILENAME)
    ensures ParseContentDisposition(pre + tag + PercentEncode(name)) == Some(name)
  {
    var e := PercentEncode(name);
    PercentEncodeNonEmpty(name);
    PercentEncodeChars(name);
    NoDelimiters(e);
    ExtendedAfter(pre, tag, e);
    DecodeEncodeRoundTrip(name);
    assert DecodeSafe(e) == name;
  }

  /** A value that is not valid percent-encoding is kept as it was sent. */
  lemma UndecodableKeptRaw(pre: string, tag: string, v: string)
    requires '*' !in pre && CaseFolds(tag, UTF_FILENAME)
    requires |v| > 0 && ';' !in v && '"' !in v && DecodeURIComponent(v).None?
    ensures ParseContentDisposition(pre + tag + v) == Some(v)
  {
    ExtendedAfter(pre, tag, v);
  }

  /** The quoted plain value at `p` in `s`. */
  lemma PlainValueAt(s: string, p: nat, name: string)
    requires StartsAtCI(s, p, PLAIN_FILENAME)
    requires p + |PLAIN_FILENAME| + |name| + 2 <= |s|
    requires s[p + |PLAIN_FILENAME|] == '"' && s[p + |PLAIN_FILENAME| + 1 + |name|] == '"'
    requires s[p + |PLAIN_FILENAME| + 1..p + |PLAIN_FILENAME| + 1 + |name|] == name
    requires |name| > 0 && '"' !in name && ';' !in name
    ensures PlainFilenameAt(s, p) == Some(name)
  {
    var j := p + |PLAIN_FILENAME| + 1;
    forall k | j <= k < j + |name| ensures s[k] !in {'"', ';'} {
      assert s[k] == name[k - j];
    }
    RunOutsideOf(s, j, |name|, {'"', ';'});
  }

  /** A header without `*` holds no extended parameter. */
  lemma NoExtended(s: string)
    requires '*' !in s
    ensures Search(s, UtfFilenameAt, 0).None?
  {
    forall i | 0 <= i <= |s| ensures UtfFilenameAt(s, i).None? {
      if i + |UTF_FILENAME| <= |s| {
        assert s[i..i + |UTF_FILENAME|][8] == s[i + 8];
      }
    }
    SearchMisses(s, UtfFilenameAt, 0);
  }

  /** No plain parameter starts before the first `f`. */
  lemma NoPlainBefore(s: string, p: nat)
    requires p <= |s|
    requires forall k | 0 <= k < p :: s[k] != 'f' && s[k] != 'F'
    ensures forall i | 0 <= i < p :: PlainFilenameAt(s, i).None?
  {
    forall i | 0 <= i < p ensures PlainFilenameAt(s, i).None? {
      if i + |PLAIN_FILENAME| <= |s| {
        assert s[i..i + |PLAIN_FILENAME|][0] == s[i];
      }
    }
  }

  /** A quoted plain parameter gives its value trimmed, when the header holds no extended
      parameter and the parameter is the first to start with an `f`. */
  lemma PlainFilenameQuoted(pre: string, tag: string, name: string, post: string)
    requires CaseFolds(tag, PLAIN_FILENAME)
    requires '*' !in pre && '*' !in name && '*' !in post
    requires 'f' !in pre && 'F' !in pre
    requires |name| > 0 && '"' !in name && ';' !in name
    ensures ParseContentDisposition(pre + tag + "\"" + name + "\"" + post) == Some(Trim(name))
  {
    var s := pre + tag + "\"" + name + "\"" + post;
    var j := |pre| + |PLAIN_FILENAME|;
    assert s[|pre|..j] == tag;
    assert s[j] == '"' && s[j + 1 + |name|] == '"';
    assert s[j + 1..j + 1 + |name|] == name;
    PlainValueAt(s, |pre|, name);
    assert '*' !in tag;
    assert '*' !in s;
    NoExtended(s);
    forall k | 0 <= k < |pre| ensures s[k] != 'f' && s[k] != 'F' {
      assert s[k] == pre[k];
    }
    NoPlainBefore(s, |pre|);
    SearchFinds(s, PlainFilenameAt, 0, |pre|, name);
  }

  // ----- the fallback chain -----

  /** `s.split(c)[0]`: everything before the first `c`. */
  function BeforeFirst(s: string, c: char): (r: string)
    ensures r <= s && c !in r
    ensures |r| < |s| ==> s[|r|] == c
  {
    if |s| == 0 || s[0] == c then "" else [s[0]] + BeforeFirst(s[1..], c)
  }

  /** `s.split(c).pop()`: everything after the last `c`. */
  function AfterLast(s: string, c: char): (r: string)
    ensures |r| <= |s| && r == s[|s| - |r|..] && c !in r
    ensures |r| < |s| ==> s[|s| - |r| - 1] == c
  {
    if |s| == 0 || s[|s| - 1] == c then "" else AfterLast(s[..|s| - 1], c) + [s[|s| - 1]]
  }

  /** `url.split("?")[0].split("/").pop()`: the last path segment of the address as
      written. */
  function LastSegment(url: string): (r: string)
    ensures '/' !in r && '?' !in r
  {
    AfterLast(BeforeFirst(url, '?'), '/')
  }

  /** The segment after the last `/` and before the query is the one named. */
  lemma LastSegmentOf(base: string, name: string, query: string)
    requires '?' !in base && '/' !in name && '?' !in name
    ensures LastSegment(base + "/" + name + "?" + query) == name
  {
    var s := base + "/" + name + "?" + query;
    var p := base + "/" + name;
    assert s == p + ("?" + query);
    BeforeFirstAt(p, "?" + query, '?');
    AfterLastAt(base + "/", name, '/');
  }

  /** Splitting at the first `c` finds it right after a prefix free of `c`. */
  lemma {:induction false} BeforeFirstAt(p: string, q: string, c: char)
    requires c !in p && |q| > 0 && q[0] == c
    ensures BeforeFirst(p + q, c) == p
  {
    if |p| > 0 {
      assert (p + q)[1..] == p[1..] + q;
      BeforeFirstAt(p[1..], q, c);
    } else {
      assert p + q == q;
    }
  }

  /** Splitting at the last `c` finds it right before a suffix free of `c`. */
  lemma {:induction false} AfterLastAt(p: string, q: string, c: char)
    requires c !in q && |p| > 0 && p[|p| - 1] == c
    ensures AfterLast(p + q, c) == q
    decreases |q|
  {
    if |q| > 0 {
      assert (p + q)[..|p + q| - 1] == p + q[..|q| - 1];
      AfterLastAt(p, q[..|q| - 1], c);
    } else {
      assert p + q == p;
    }
  }

  /** The name of the last resort: an HTML page or a PDF, by content type. */
  function DefaultName(contentType: Option<string>): (r: string)
    ensures r == "orange-bill.html" <==> Contains(contentType.GetOr(""), "html")
    ensures r == "orange-bill.html" || r == "orange-bill.pdf"
  {
    if Contains(contentType.GetOr(""), "html") then "orange-bill.html" else "orange-bill.pdf"
  }

  /** What `deriveFileName` reads besides its arguments: the page's path (for the Orange
      account number), the download button's text and the body text (for the bill date),
      and the clock's year and month. */
  datatype Page = Page(path: string, button: Option<string>, body: string, year: nat, month: nat)

  /** A page whose clock month is a month. */
  predicate ValidPage(page: Page) {
    1 <= page.month <= 12
  }

  /** The Orange name, when both the account number and the bill date are found. */
  function OrangeName(provider: string, page: Page): (r: Option<string>)
    ensures r.Some? ==> |r.value| > 0
  {
    if provider == "orange_provider" then
      match (PaymentIdIn(page.path), ExtractBillDateISO(page.button, page.body))
      case (Some(id), Some(date)) => Some("facture_" + id + "_" + date + ".pdf")
      case _ => None
    else None
  }

  /** The provider-specific name of the providers that have one. */
  function ProviderName(provider: string, parsed: Option<ParsedUrl>, page: Page): (r: Option<string>)
    requires ValidPage(page)
  {
    if provider == "free_provider" then DeriveFreePdfFileName(parsed)
    else if provider == "free_mobile_provider" then DeriveFreeMobilePdfFileName(parsed)
    else if provider == "navigo_provider" then DeriveNavigoPdfFileName(parsed, page.year, page.month)
    else None
  }

  /** JavaScript truthiness of a possibly missing string. */
  function Truthy(v: Option<string>): Option<string> {
    if v.Some? && v.value != "" then v else None
  }

  /** `deriveFileName`. `url` is the download address as written and `parsed` what it
      parses to; `disposition` and `contentType` are the response headers. */
  function DeriveFileName(provider: string, url: string, parsed: Option<ParsedUrl>,
                          contentType: Option<string>, disposition: Option<string>, page: Page): (r: string)
    requires ValidPage(page)
    ensures |r| > 0
  {
    ChooseName(OrangeName(provider, page), ProviderName(provider, parsed, page),
               ParseContentDisposition(disposition.GetOr("")), LastSegment(url), contentType)
  }

  /** The order in which `deriveFileName` tries its sources: the Orange name, the
      provider's own name, the header's filename, the address's last segment when it
      holds a `.`, and the default. Empty names are skipped like JavaScript's `""`. */
  function ChooseName(orange: Option<string>, own: Option<string>, fromDisposition: Option<string>,
                      fromUrl: string, contentType: Option<string>): (r: string)
    ensures |r| > 0 || orange == Some("")
  {
    if orange.Some? then orange.value
    else if Truthy(own).Some? then own.value
    else if Truthy(fromDisposition).Some? then fromDisposition.value
    else if fromUrl != "" && '.' in fromUrl then fromUrl
    else DefaultName(contentType)
  }

  /** The first present candidate. */
  function FirstSome(cands: seq<Option<string>>): (r: Option<string>)
    ensures r.Some? <==> exists i | 0 <= i < |cands| :: cands[i].Some?
    ensures r.Some? ==> exists i | 0 <= i < |cands| :: cands[i] == r && forall j | 0 <= j < i :: cands[j].None?
  {
    if |cands| == 0 then None
    else if cands[0].Some? then cands[0]
    else
      var r := FirstSome(cands[1..]);
      assert forall i | 1 <= i < |cands| :: cands[i] == cands[1..][i - 1];
      if r.Some? then
        var i :| 0 <= i < |cands[1..]| && cands[1..][i] == r && forall j | 0 <= j < i :: cands[1..][j].None?;
        assert cands[i + 1] == r && forall j | 0 <= j < i + 1 :: cands[j].None?;
        r
      else r
  }

  /** The address's last segment as a candidate: only when it holds a `.`. */
  function UrlCandidate(fromUrl: string): Option<string> {
    if fromUrl != "" && '.' in fromUrl then Some(fromUrl) else None
  }

  /** `ChooseName` takes the first candidate that is present and non-empty, and the
      default name only when there is none. */
  lemma ChooseNameFirstSome(orange: Option<string>, own: Option<string>, fromDisposition: Option<string>,
                            fromUrl: string, contentType: Option<string>)
    requires orange != Some("")
    ensures ChooseName(orange, own, fromDisposition, fromUrl, contentType)
      == FirstSome([orange, Truthy(own), Truthy(fromDisposition), UrlCandidate(fromUrl)]).GetOr(DefaultName(contentType))
  {
    var c := [orange, Truthy(own), Truthy(fromDisposition), UrlCandidate(fromUrl)];
    var c1 := [Truthy(own), Truthy(fromDisposition), UrlCandidate(fromUrl)];
    var c2 := [Truthy(fromDisposition), UrlCandidate(fromUrl)];
    var c3 := [UrlCandidate(fromUrl)];
    assert c[1..] == c1 && c1[1..] == c2 && c2[1..] == c3 && c3[1..] == [];
    if orange.None? {
      assert FirstSome(c) == FirstSome(c1);
      if Truthy(own).None? {
        assert FirstSome(c1) == FirstSome(c2);
        if Truthy(fromDisposition).None? {
          assert FirstSome(c2) == FirstSome(c3);
        }
      }
    }
  }

  /** `deriveFileName` takes the first of the Orange name, the provider's name, the
      header's filename and the address's last segment that is present and non-empty,
      and the default name only when there is none. */
  lemma DeriveFileNameChain(provider: string, url: string, parsed: Option<ParsedUrl>,
                            contentType: Option<string>, disposition: Option<string>, page: Page)
    requires ValidPage(page)
    ensures DeriveFileName(provider, url, parsed, contentType, disposition, page)
      == FirstSome([OrangeName(provider, page), Truthy(ProviderName(provider, parsed, page)),
                    Truthy(ParseContentDisposition(disposition.GetOr(""))), UrlCandidate(LastSegment(url))])
         .GetOr(DefaultName(contentType))
  {
    ChooseNameFirstSome(OrangeName(provider, page), ProviderName(provider, parsed, page),
      ParseContentDisposition(disposition.GetOr("")), LastSegment(url), contentType);
  }

  /** On an Orange page showing both an account number and a bill date, the name is built
      from them whatever the headers say. */
  lemma OrangeNameWins(url: string, parsed: Option<ParsedUrl>, contentType: Option<string>,
                       disposition: Option<string>, page: Page, id: string, date: string)
    requires ValidPage(page)
    requires PaymentIdIn(page.path) == Some(id) && ExtractBillDateISO(page.button, page.body) == Some(date)
    ensures DeriveFileName("orange_provider", url, parsed, contentType, disposition, page)
      == "facture_" + id + "_" + date + ".pdf"
  {
    var name := "facture_" + id + "_" + date + ".pdf";
    assert OrangeName("orange_provider", page) == Some(name);
  }

  /** When neither the Orange rule nor the provider's own rule names the file, a
      non-empty `Content-Disposition` filename does, whatever the address. */
  lemma DispositionNamesFile(provider: string, url: string, parsed: Option<ParsedUrl>,
                             contentType: Option<string>, disposition: Option<string>, page: Page, name: string)
    requires ValidPage(page)
    requires OrangeName(provider, page).None? && ProviderName(provider, parsed, page).GetOr("") == ""
    requires ParseContentDisposition(disposition.GetOr("")) == Some(name) && |name| > 0
    ensures DeriveFileName(provider, url, parsed, contentType, disposition, page) == name
  {
    var own := ProviderName(provider, parsed, page);
    var fromDisposition := ParseContentDisposition(disposition.GetOr(""));
    assert Truthy(own).None? && Truthy(fromDisposition) == Some(name);
  }

  /** Without any other source, an address whose last segment looks like a file name
      names the file, and otherwise the content type picks the default. */
  lemma UrlOrDefault(provider: string, url: string, parsed: Option<ParsedUrl>,
                     contentType: Option<string>, disposition: Option<string>, page: Page)
    requires ValidPage(page)
    requires OrangeName(provider, page).None? && ProviderName(provider, parsed, page).GetOr("") == ""
    requires ParseContentDisposition(disposition.GetOr("")).GetOr("") == ""
    ensures '.' in LastSegment(url) ==>
      DeriveFileName(provider, url, parsed, contentType, disposition, page) == LastSegment(url)
    ensures '.' !in LastSegment(url) ==>
      (DeriveFileName(provider, url, parsed, contentType, disposition, page) == "orange-bill.html"
       <==> Contains(contentType.GetOr(""), "html"))
  {
  }
}
