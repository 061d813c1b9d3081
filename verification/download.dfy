/** Where the bill is downloaded from once its control is found: `resolveDownloadUrl` and
    `findNewDownloadResource`. Resolving an address against the page (`new URL(href,
    location.href)`) is a parameter that may fail. */
module Download {
  import opened Wrappers
  import opened Text
  import opened FileNames

  /** The first of the control's `href`, `data-href` and `data-url` attributes that is
      present and non-empty, as `a || b || c` picks it. */
  function FirstAttribute(href: Option<string>, dataHref: Option<string>, dataUrl: Option<string>): (r: Option<string>)
    ensures r.Some? ==> r.value != "" && (r == href || r == dataHref || r == dataUrl)
    ensures r.None? <==> Truthy(href).None? && Truthy(dataHref).None? && Truthy(dataUrl).None?
  {
    if href.Some? && href.value != "" then href
    else if dataHref.Some? && dataHref.value != "" then dataHref
    else Truthy(dataUrl)
  }

  /** The attributes are read in their fixed order: `href`, then `data-href`, then
      `data-url`. */
  lemma FirstAttributeOrder(href: Option<string>, dataHref: Option<string>, dataUrl: Option<string>)
    ensures FirstAttribute(href, dataHref, dataUrl) == FirstSome([Truthy(href), Truthy(dataHref), Truthy(dataUrl)])
  {
    var c := [Truthy(href), Truthy(dataHref), Truthy(dataUrl)];
    var c1 := [Truthy(dataHref), Truthy(dataUrl)];
    var c2 := [Truthy(dataUrl)];
    assert c[1..] == c1 && c1[1..] == c2 && c2[1..] == [];
    if Truthy(href).None? {
      assert FirstSome(c) == FirstSome(c1);
      if Truthy(dataHref).None? {
        assert FirstSome(c1) == FirstSome(c2);
      }
    }
  }

  /** `normalizeUrl`: nothing for a missing or empty address, else what resolving it
      against the page gives (nothing when it does not parse). */
  function NormalizeUrl(href: Option<string>, resolve: string -> Option<string>): (r: Option<string>)
    ensures href.GetOr("") == "" ==> r.None?
    ensures href.GetOr("") != "" ==> r == resolve(href.value)
  {
    if href.GetOr("") == "" then None else resolve(href.value)
  }

  /** `/pdf|download|facture/i.test(name)`. */
  predicate LooksLikeDownload(name: string) {
    ContainsCI(name, "pdf") || ContainsCI(name, "download") || ContainsCI(name, "facture")
  }

  /** Which resource entries are new since `before` and look like a download. */
  function FreshFlags(entries: seq<string>, before: set<string>): (flags: seq<bool>)
    ensures |flags| == |entries|
    ensures forall i | 0 <= i < |entries| :: flags[i] == (entries[i] !in before && LooksLikeDownload(entries[i]))
  {
    seq(|entries|, i requires 0 <= i < |entries| => entries[i] !in before && LooksLikeDownload(entries[i]))
  }

  /** `findNewDownloadResource`: the first resource, in load order, that was not loaded
      before the click and whose name mentions a pdf, a download or an invoice. */
  function FindNewDownloadResource(entries: seq<string>, before: set<string>): (r: Option<string>)
    ensures r.Some? ==> exists i | 0 <= i < |entries| ::
      (entries[i] == r.value && forall j | 0 <= j < i :: entries[j] in before || !LooksLikeDownload(entries[j]))
    ensures r.Some? ==> r.value !in before && LooksLikeDownload(r.value)
    ensures r.None? <==> forall i | 0 <= i < |entries| :: entries[i] in before || !LooksLikeDownload(entries[i])
  {
    var flags := FreshFlags(entries, before);
    match FirstTrue(flags, 0)
    case None => None
    case Some(i) => Some(entries[i])
  }

  /** When every resource was already loaded before the click, none is new. */
  lemma NothingNewFindsNothing(entries: seq<string>, before: set<string>)
    requires forall i | 0 <= i < |entries| :: entries[i] in before
    ensures FindNewDownloadResource(entries, before).None?
  {
  }

  /** Resources loaded later never displace a new download already found. */
  lemma {:induction false} FoundResourceStays(entries: seq<string>, later: seq<string>, before: set<string>)
    requires FindNewDownloadResource(entries, before).Some?
    ensures FindNewDownloadResource(entries + later, before) == FindNewDownloadResource(entries, before)
  {
    var all := entries + later;
    var r := FindNewDownloadResource(entries, before);
    var i :| 0 <= i < |entries| &&
      (entries[i] == r.value && forall j | 0 <= j < i :: entries[j] in before || !LooksLikeDownload(entries[j]));
    var fa := FreshFlags(all, before);
    assert forall j | 0 <= j < |entries| :: all[j] == entries[j];
    assert fa[i];
    var k := FirstTrue(fa, 0).value;
    assert k <= i;
    var fe := FreshFlags(entries, before);
    assert fe[k];
    assert FirstTrue(fe, 0).value <= k;
  }

  /** A download that appears after the click is found when nothing new before it
      looked like one. */
  lemma NewDownloadFound(entries: seq<string>, before: set<string>, name: string)
    requires FindNewDownloadResource(entries, before).None?
    requires name !in before && LooksLikeDownload(name)
    ensures FindNewDownloadResource(entries + [name], before) == Some(name)
  {
    var all := entries + [name];
    var fa := FreshFlags(all, before);
    assert fa[|entries|];
    assert forall j | 0 <= j < |entries| :: all[j] == entries[j];
  }

  /** `resolveDownloadUrl`: the control's own address, else the address of the link
      around it, else the page's download candidate (`queryDownloadCandidateFromPage`,
      given here as `pageCandidate`), else a resource loaded since the click. */
  function ResolveDownloadUrl(href: Option<string>, dataHref: Option<string>, dataUrl: Option<string>,
                              parentHref: Option<string>, pageCandidate: Option<string>,
                              entries: seq<string>, before: set<string>,
                              resolve: string -> Option<string>): (r: Option<string>)
    ensures r.Some? ==> r.value != ""
    ensures Truthy(NormalizeUrl(FirstAttribute(href, dataHref, dataUrl), resolve)).Some? ==>
      r == NormalizeUrl(FirstAttribute(href, dataHref, dataUrl), resolve)
  {
    var direct := Truthy(NormalizeUrl(FirstAttribute(href, dataHref, dataUrl), resolve));
    var parent := Truthy(NormalizeUrl(parentHref, resolve));
    if direct.Some? then direct
    else if parent.Some? then parent
    else if Truthy(pageCandidate).Some? then pageCandidate
    else
      var found := FindNewDownloadResource(entries, before);
      found
  }

  /** The four sources are tried in their fixed order and the first one that yields an
      address decides; there is no address only when none does. */
  lemma ResolveTiers(href: Option<string>, dataHref: Option<string>, dataUrl: Option<string>,
                     parentHref: Option<string>, pageCandidate: Option<string>,
                     entries: seq<string>, before: set<string>, resolve: string -> Option<string>)
    ensures ResolveDownloadUrl(href, dataHref, dataUrl, parentHref, pageCandidate, entries, before, resolve)
      == FirstSome([Truthy(NormalizeUrl(FirstAttribute(href, dataHref, dataUrl), resolve)),
                    Truthy(NormalizeUrl(parentHref, resolve)),
                    Truthy(pageCandidate),
                    FindNewDownloadResource(entries, before)])
  {
    var c0 := Truthy(NormalizeUrl(FirstAttribute(href, dataHref, dataUrl), resolve));
    var c1 := Truthy(NormalizeUrl(parentHref, resolve));
    var c2 := Truthy(pageCandidate);
    var c3 := FindNewDownloadResource(entries, before);
    var c, d1, d2, d3 := [c0, c1, c2, c3], [c1, c2, c3], [c2, c3], [c3];
    assert c[1..] == d1 && d1[1..] == d2 && d2[1..] == d3 && d3[1..] == [];
    if c0.None? {
      assert FirstSome(c) == FirstSome(d1);
      if c1.None? {
        assert FirstSome(d1) == FirstSome(d2);
        if c2.None? {
          assert FirstSome(d2) == FirstSome(d3);
        }
      }
    }
  }

  /** The resource diff is consulted only when the page offers no address at all. */
  lemma ResourceDiffIsLastResort(href: Option<string>, dataHref: Option<string>, dataUrl: Option<string>,
                                 parentHref: Option<string>, pageCandidate: Option<string>,
                                 entries: seq<string>, before: set<string>, resolve: string -> Option<string>)
    requires Truthy(pageCandidate).Some?
    ensures ResolveDownloadUrl(href, dataHref, dataUrl, parentHref, pageCandidate, entries, before, resolve)
      == ResolveDownloadUrl(href, dataHref, dataUrl, parentHref, pageCandidate, [], {}, resolve)
  {
  }
}
