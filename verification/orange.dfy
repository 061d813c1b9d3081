/** The Orange customer area: picking the account card of the requested kind, reading its
    account number, and the invoice-detail address built from that number. */
module Orange {
  import opened Wrappers
  import opened Text
  import opened Normalize

  /** The path segment that precedes an account number. */
  const PAYMENT_SEGMENT := "/facture-paiement/"

  /** The origin of the Orange customer area. */
  const ORANGE_ORIGIN := "https://espace-client.orange.fr"

  /** The two kinds of account the extension knows. */
  datatype AccountType = MobileInternet | HomeInternet

  /** `payload.AccountType === "mobile_internet" ? "mobile_internet" : "home_internet"`:
      anything but the mobile value, including a missing one, means home internet. */
  function AccountTypeOf(requested: Option<string>): (t: AccountType)
    ensures t == MobileInternet <==> requested == Some("mobile_internet")
  {
    if requested == Some("mobile_internet") then MobileInternet else HomeInternet
  }

  /** The phrase an account card of each kind shows, in normalized form. */
  function CardPhrase(t: AccountType): string {
    if t == MobileInternet then "forfait mobile" else "offre internet"
  }

  /** `matchesAccountType`: the card's normalized text contains the phrase of its kind. */
  predicate MatchesAccountType(text: string, t: AccountType) {
    Contains(NormalizeText(text), CardPhrase(t))
  }

  /** Case and spacing of a card's text do not change whether it matches. */
  lemma MatchIgnoresLayout(text: string, t: AccountType)
    ensures MatchesAccountType(NormalizeText(text), t) <==> MatchesAccountType(text, t)
  {
    NormalizeTextIdempotent(text);
  }

  /** `items.find((node) => matchesAccountType(node, accountType))` over the card texts:
      the index of the first card of the requested kind. */
  function FirstCardOfType(texts: seq<string>, t: AccountType): (r: Option<nat>)
    ensures r.Some? ==> r.value < |texts| && MatchesAccountType(texts[r.value], t)
    ensures r.Some? ==> forall j | 0 <= j < r.value :: !MatchesAccountType(texts[j], t)
    ensures r.None? <==> forall j | 0 <= j < |texts| :: !MatchesAccountType(texts[j], t)
  {
    FirstTrue(CardFlags(texts, t), 0)
  }

  /** Which cards are of the requested kind. */
  function CardFlags(texts: seq<string>, t: AccountType): (flags: seq<bool>)
    ensures |flags| == |texts|
    ensures forall j | 0 <= j < |texts| :: flags[j] == MatchesAccountType(texts[j], t)
  {
    seq(|texts|, j requires 0 <= j < |texts| => MatchesAccountType(texts[j], t))
  }

  /** `/\/facture-paiement\/(\d+)/` at position `i` (case-sensitive, no boundary): the
      greedy digit run after the segment. */
  function PaymentIdAt(s: string, i: nat): (r: Option<string>)
    ensures r.Some? ==> |r.value| > 0 && AllDigits(r.value)
  {
    if StartsAt(s, i, PAYMENT_SEGMENT) then
      var j := i + |PAYMENT_SEGMENT|;
      var n := DigitRun(s, j);
      if n > 0 then
        DigitRunSlice(s, j);
        Some(s[j..j + n])
      else None
    else None
  }

  /** The first account number an address carries: `url.match(...)?.[1]`. */
  function PaymentIdIn(url: string): (r: Option<string>)
    ensures r.Some? <==> Search(url, PaymentIdAt, 0).Some?
    ensures r.Some? ==> |r.value| > 0 && AllDigits(r.value)
  {
    match Search(url, PaymentIdAt, 0)
    case None => None
    case Some((_, id)) => Some(id)
  }

  /** `/^\d{6,}$/`. */
  predicate IsLongDigits(s: string) {
    |s| >= 6 && AllDigits(s)
  }

  /** `extractAccountId`: a `data-e2e` attribute of six or more digits is the account
      number; otherwise the number in the card's address, `href` or else the card's own
      resolved `href` (`nodeHref`, already through `normalizeUrl`). */
  function ExtractAccountId(dataE2e: Option<string>, href: Option<string>, nodeHref: Option<string>): (r: Option<string>)
    ensures dataE2e.Some? && IsLongDigits(dataE2e.value) ==> r == dataE2e
    ensures r.Some? ==> |r.value| > 0 && AllDigits(r.value)
    ensures !(dataE2e.Some? && IsLongDigits(dataE2e.value)) && href.Some? && href.value != "" ==>
      r == PaymentIdIn(href.value)
    ensures !(dataE2e.Some? && IsLongDigits(dataE2e.value)) && href.GetOr("") == "" ==>
      r == (if nodeHref.Some? then PaymentIdIn(nodeHref.value) else None)
  {
    if dataE2e.Some? && IsLongDigits(dataE2e.value) then dataE2e
    else
      var url := if href.GetOr("") != "" then href else nodeHref;
      if url.GetOr("") == "" then None else PaymentIdIn(url.value)
  }

  const DETAIL_SUFFIX := "/detail-facture"

  /** The invoice-detail page of an account: the Orange origin, the payment segment,
      the account number and the detail suffix, in that order and nothing else. */
  function DetailUrl(id: string): (u: string)
    ensures |u| == |ORANGE_ORIGIN| + |PAYMENT_SEGMENT| + |id| + |DETAIL_SUFFIX|
    ensures u[..|ORANGE_ORIGIN|] == ORANGE_ORIGIN
    ensures StartsAt(u, |ORANGE_ORIGIN|, PAYMENT_SEGMENT)
    ensures u[|ORANGE_ORIGIN| + |PAYMENT_SEGMENT|..|u| - |DETAIL_SUFFIX|] == id
    ensures u[|u| - |DETAIL_SUFFIX|..] == DETAIL_SUFFIX
  {
    var u := ORANGE_ORIGIN + PAYMENT_SEGMENT + id + DETAIL_SUFFIX;
    assert u[..|ORANGE_ORIGIN|] == ORANGE_ORIGIN;
    assert u[|ORANGE_ORIGIN|..|ORANGE_ORIGIN| + |PAYMENT_SEGMENT|] == PAYMENT_SEGMENT;
    assert u[|ORANGE_ORIGIN| + |PAYMENT_SEGMENT|..|u| - |DETAIL_SUFFIX|] == id;
    assert u[|u| - |DETAIL_SUFFIX|..] == DETAIL_SUFFIX;
    u
  }

  /** The origin holds no `/f`, so no account segment starts inside it. */
  lemma OriginHasNoSegment()
    ensures forall i | 0 <= i < |ORANGE_ORIGIN| - 1 :: !(ORANGE_ORIGIN[i] == '/' && ORANGE_ORIGIN[i + 1] == 'f')
    ensures ORANGE_ORIGIN[|ORANGE_ORIGIN| - 1] != '/'
  {
  }

  /** No account segment starts before position `p` when `s` begins with the origin. */
  lemma NoSegmentInOrigin(s: string)
    requires |ORANGE_ORIGIN| < |s| && s[..|ORANGE_ORIGIN|] == ORANGE_ORIGIN
    ensures forall i | 0 <= i < |ORANGE_ORIGIN| :: PaymentIdAt(s, i).None?
  {
    OriginHasNoSegment();
    forall i | 0 <= i < |ORANGE_ORIGIN| ensures PaymentIdAt(s, i).None? {
      assert s[i] == ORANGE_ORIGIN[i];
      if i + |PAYMENT_SEGMENT| <= |s| {
        assert s[i..i + |PAYMENT_SEGMENT|][0] == s[i];
        assert s[i..i + |PAYMENT_SEGMENT|][1] == s[i + 1];
        if i + 1 < |ORANGE_ORIGIN| {
          assert s[i + 1] == ORANGE_ORIGIN[i + 1];
        }
      }
    }
  }

  /** The account number is read back from its detail page's address, so the
      address built after choosing a card names the same account. */
  lemma DetailUrlRoundTrip(id: string)
    requires |id| > 0 && AllDigits(id)
    ensures PaymentIdIn(DetailUrl(id)) == Some(id)
  {
    var u := DetailUrl(id);
    var j := |ORANGE_ORIGIN| + |PAYMENT_SEGMENT|;
    assert u[..|ORANGE_ORIGIN|] == ORANGE_ORIGIN;
    NoSegmentInOrigin(u);
    assert u[j..j + |id|] == id;
    assert u[j + |id|] == '/';
    DigitRunOf(u, j, |id|);
    assert PaymentIdAt(u, |ORANGE_ORIGIN|) == Some(id);
    SearchFinds(u, PaymentIdAt, 0, |ORANGE_ORIGIN|, id);
  }

  /** A card without a usable `data-e2e` that links to its detail page yields the
      number in the link. */
  lemma AccountIdFromDetailLink(dataE2e: Option<string>, id: string, nodeHref: Option<string>)
    requires |id| > 0 && AllDigits(id)
    requires !(dataE2e.Some? && IsLongDigits(dataE2e.value))
    ensures ExtractAccountId(dataE2e, Some(DetailUrl(id)), nodeHref) == Some(id)
  {
    DetailUrlRoundTrip(id);
  }
}
