/** Where the Navigo direct-debit statement lives: `resolveNavigoPrelevementsUrl` and
    `findNavigoAnnualContractIdFromList`. The page's path and address and the contract links
    it lists are inputs; each link is given by its comparable text (through
    `normalizeComparableText`) and its `href` attribute. */
module Navigo {
  import opened Wrappers
  import opened Text
  import opened FileNames
  import AuthChecks

  /** The path segment of a statement page and of a contract's detail page. */
  const PRELEVEMENTS_SEGMENT := "/prelevements/"
  const DETAIL_SEGMENT := "/espace_client/detail/"

  /** The statement pages live on the card-management host. */
  const STATEMENT_ORIGIN := "https://www." + AuthChecks.JEGERE_HOST

  /** The characters `[^/?#]` excludes. */
  predicate IdStop(c: char) {
    c == '/' || c == '?' || c == '#'
  }

  /** A contract identifier as the pattern captures it: one or more characters, none of
      them `/`, `?` or `#`. */
  predicate IsContractId(id: string) {
    |id| > 0 && forall k | 0 <= k < |id| :: !IdStop(id[k])
  }

  /** Length of the run of identifier characters starting at `i`: `[^/?#]+` matched
      greedily. */
  function IdRun(s: string, i: nat): (n: nat)
    decreases |s| - i
    ensures i + n <= |s| || (i >= |s| && n == 0)
    ensures n > 0 ==> !IdStop(s[i])
    ensures i + n < |s| ==> IdStop(s[i + n])
  {
    if i < |s| && !IdStop(s[i]) then 1 + IdRun(s, i + 1) else 0
  }

  /** The run at `i` is an identifier when it is not empty. */
  lemma {:induction false} IdRunSlice(s: string, i: nat)
    requires i <= |s|
    ensures forall k | i <= k < i + IdRun(s, i) :: !IdStop(s[k])
    decreases |s| - i
  {
    if IdRun(s, i) > 0 {
      IdRunSlice(s, i + 1);
    }
  }

  /** The run at `j` is exactly `n` long when `n` identifier characters are followed by a
      stop character or the end. */
  lemma {:induction false} IdRunOf(s: string, j: nat, n: nat)
    requires j + n <= |s| && forall k | j <= k < j + n :: !IdStop(s[k])
    requires j + n == |s| || IdStop(s[j + n])
    ensures IdRun(s, j) == n
    decreases n
  {
    if n > 0 {
      IdRunOf(s, j + 1, n - 1);
    }
  }

  /** `/<segment>([^/?#]+)/i` at position `i`: the identifier after the segment. */
  function SegmentIdAt(segment: string, s: string, i: nat): (r: Option<string>)
    ensures r.Some? ==> StartsAtCI(s, i, segment) && IsContractId(r.value)
    ensures r.Some? ==> StartsAt(s, i + |segment|, r.value)
  {
    if StartsAtCI(s, i, segment) then
      var j := i + |segment|;
      var n := IdRun(s, j);
      if n > 0 then
        IdRunSlice(s, j);
        Some(s[j..j + n])
      else None
    else None
  }

  /** `s.match(/<segment>([^/?#]+)/i)?.[1]`: the identifier at the leftmost place where
      the segment is followed by one. */
  function SegmentId(s: string, segment: string): (r: Option<string>)
    ensures r.Some? ==> IsContractId(r.value)
    ensures r.Some? <==> exists i | 0 <= i <= |s| :: SegmentIdAt(segment, s, i).Some?
  {
    var at := (t: string, i: nat) => SegmentIdAt(segment, t, i);
    assert forall i | 0 <= i <= |s| :: at(s, i) == SegmentIdAt(segment, s, i);
    match Search(s, at, 0)
    case None => None
    case Some((_, id)) => Some(id)
  }

  /** The statement page of a contract. */
  function StatementUrl(id: string): (u: string)
    ensures StartsAt(u, |STATEMENT_ORIGIN|, PRELEVEMENTS_SEGMENT + id)
  {
    var u := STATEMENT_ORIGIN + PRELEVEMENTS_SEGMENT + id;
    assert u[|STATEMENT_ORIGIN|..] == PRELEVEMENTS_SEGMENT + id;
    u
  }

  /** `resolveNavigoPrelevementsUrl`: the current address on a statement page; the
      statement page of the contract whose detail page is open; else that of the annual
      contract the list offers (`listed`, the result of `FindAnnualContractId`); else
      nothing. */
  function ResolvePrelevementsUrl(path: string, href: string, listed: Option<string>): (r: Option<string>)
    ensures SegmentId(path, PRELEVEMENTS_SEGMENT).Some? ==> r == Some(href)
    ensures SegmentId(path, PRELEVEMENTS_SEGMENT).None? && SegmentId(path, DETAIL_SEGMENT).Some? ==>
      r == Some(StatementUrl(SegmentId(path, DETAIL_SEGMENT).value))
    ensures SegmentId(path, PRELEVEMENTS_SEGMENT).None? && SegmentId(path, DETAIL_SEGMENT).None? ==>
      r == (if Truthy(listed).Some? then Some(StatementUrl(listed.value)) else None)
  {
    match SegmentId(path, PRELEVEMENTS_SEGMENT)
    case Some(_) => Some(href)
    case None =>
      match SegmentId(path, DETAIL_SEGMENT)
      case Some(id) => Some(StatementUrl(id))
      case None => if Truthy(listed).Some? then Some(StatementUrl(listed.value)) else None
  }

  /** Only `/` lower-cases to `/`. */
  lemma LowerSlash(c: char)
    ensures c != '/' ==> Lower(c) != '/'
  {
  }

  /** In a detail path no two slashes are as far apart as the two of a statement
      segment. */
  lemma SlashesApart(id: string, i: nat)
    requires IsContractId(id) && i + |PRELEVEMENTS_SEGMENT| <= |DETAIL_SEGMENT + id|
    ensures var s, last := DETAIL_SEGMENT + id, |PRELEVEMENTS_SEGMENT| - 1;
      s[i] != '/' || s[i + last] != '/'
  {
    var s, last := DETAIL_SEGMENT + id, |PRELEVEMENTS_SEGMENT| - 1;
    if i + last >= |DETAIL_SEGMENT| {
      assert s[i + last] == id[i + last - |DETAIL_SEGMENT|];
    } else {
      assert s[i] == DETAIL_SEGMENT[i] && s[i + last] == DETAIL_SEGMENT[i + last];
    }
  }

  /** The segment is found at the start of a path that begins with it. */
  lemma SegmentAtStart(segment: string, id: string)
    requires |segment| > 0 && forall k | 0 <= k < |segment| :: Lower(segment[k]) == segment[k]
    requires IsContractId(id)
    ensures SegmentIdAt(segment, segment + id, 0) == Some(id)
  {
    var s := segment + id;
    assert s[0..|segment|] == segment;
    assert s[|segment|..|segment| + |id|] == id;
    IdRunOf(s, |segment|, |id|);
  }

  /** Once the statement page built for a contract is open, the statement is resolved to
      the page itself. */
  lemma StatementPageIsFixed(id: string, href: string, listed: Option<string>)
    requires IsContractId(id)
    ensures SegmentId(PRELEVEMENTS_SEGMENT + id, PRELEVEMENTS_SEGMENT) == Some(id)
    ensures ResolvePrelevementsUrl(PRELEVEMENTS_SEGMENT + id, href, listed) == Some(href)
  {
    var s := PRELEVEMENTS_SEGMENT + id;
    SegmentAtStart(PRELEVEMENTS_SEGMENT, id);
    SearchFinds(s, (t: string, i: nat) => SegmentIdAt(PRELEVEMENTS_SEGMENT, t, i), 0, 0, id);
  }

  /** No statement segment occurs in a detail path: its slashes are too far apart. */
  lemma NoStatementInDetail(id: string)
    requires IsContractId(id)
    ensures forall i | 0 <= i <= |DETAIL_SEGMENT + id| ::
      !StartsAtCI(DETAIL_SEGMENT + id, i, PRELEVEMENTS_SEGMENT)
  {
    var s, last := DETAIL_SEGMENT + id, |PRELEVEMENTS_SEGMENT| - 1;
    forall i | 0 <= i <= |s| ensures !StartsAtCI(s, i, PRELEVEMENTS_SEGMENT) {
      if i + |PRELEVEMENTS_SEGMENT| <= |s| {
        SlashesApart(id, i);
        LowerSlash(s[i]);
        LowerSlash(s[i + last]);
        var w := s[i..i + |PRELEVEMENTS_SEGMENT|];
        assert w[0] == s[i] && w[last] == s[i + last];
      }
    }
  }

  /** On a contract's detail page the statement is that contract's statement page, and
      opening it keeps it. */
  lemma DetailPageLeadsToStatement(id: string, href: string, listed: Option<string>)
    requires IsContractId(id)
    ensures ResolvePrelevementsUrl(DETAIL_SEGMENT + id, href, listed) == Some(StatementUrl(id))
  {
    var s := DETAIL_SEGMENT + id;
    NoStatementInDetail(id);
    SegmentAtStart(DETAIL_SEGMENT, id);
    SearchFinds(s, (t: string, i: nat) => SegmentIdAt(DETAIL_SEGMENT, t, i), 0, 0, id);
  }

  // ----- the contract list -----

  /** A listed link: its comparable text and its `href`. */
  datatype ContractLink = ContractLink(key: string, href: string)

  /** The links `a[href*='/espace_client/detail/']` selects, in document order. */
  function DetailLinks(links: seq<ContractLink>): (r: seq<ContractLink>)
    ensures forall k | 0 <= k < |r| :: r[k] in links && Contains(r[k].href, DETAIL_SEGMENT)
    ensures forall k | 0 <= k < |links| && Contains(links[k].href, DETAIL_SEGMENT) :: links[k] in r
  {
    Filter(links, (l: ContractLink) => Contains(l.href, DETAIL_SEGMENT))
  }

  /** The link names an annual Navigo contract. */
  predicate IsAnnual(l: ContractLink) {
    Contains(l.key, "navigo annuel")
  }

  /** The link names an active annual Navigo contract. */
  predicate IsActiveAnnual(l: ContractLink) {
    IsAnnual(l) && Contains(l.key, "actif")
  }

  /** The identifier in the `href` of the first link that passes `p`, if that link has
      one. */
  function IdOfFirst(ls: seq<ContractLink>, p: ContractLink -> bool): (r: Option<string>)
    ensures r.Some? ==> exists k | 0 <= k < |ls| :: p(ls[k]) && SegmentId(ls[k].href, DETAIL_SEGMENT) == r
    ensures (forall k | 0 <= k < |ls| :: !p(ls[k])) ==> r.None?
    ensures forall k | 0 <= k < |ls| && p(ls[k]) && (forall j | 0 <= j < k :: !p(ls[j])) ::
      r == SegmentId(ls[k].href, DETAIL_SEGMENT)
  {
    FindIndexIsFirst(ls, p);
    match FindIndex(ls, p)
    case None => None
    case Some(k) => SegmentId(ls[k].href, DETAIL_SEGMENT)
  }

  /** `findNavigoAnnualContractIdFromList`: the identifier of the first active annual
      contract; when that link carries none, the identifier of the first annual contract,
      active or not. */
  function FindAnnualContractId(links: seq<ContractLink>): (r: Option<string>)
    ensures r.Some? ==> IsContractId(r.value)
    ensures r.Some? ==> exists l | l in links :: IsAnnual(l) && SegmentId(l.href, DETAIL_SEGMENT) == r
  {
    var ls := DetailLinks(links);
    var active := IdOfFirst(ls, IsActiveAnnual);
    if active.Some? then active else IdOfFirst(ls, IsAnnual)
  }

  /** An active annual contract is preferred to an annual one listed before it. */
  lemma ActiveContractWins(links: seq<ContractLink>, k: nat)
    requires var ls := DetailLinks(links);
      k < |ls| && IsActiveAnnual(ls[k]) && forall j | 0 <= j < k :: !IsActiveAnnual(ls[j])
    requires SegmentId(DetailLinks(links)[k].href, DETAIL_SEGMENT).Some?
    ensures FindAnnualContractId(links) == SegmentId(DetailLinks(links)[k].href, DETAIL_SEGMENT)
  {
    var ls := DetailLinks(links);
    var f := FindIndex(ls, IsActiveAnnual);
    assert f == Some(k);
  }

  /** When the first active annual contract's link carries no identifier, the first
      annual contract's link decides, even if it is an earlier, inactive one. */
  lemma ActiveWithoutIdFallsBack(links: seq<ContractLink>, k: nat)
    requires var ls := DetailLinks(links);
      k < |ls| && IsActiveAnnual(ls[k]) && forall j | 0 <= j < k :: !IsActiveAnnual(ls[j])
    requires SegmentId(DetailLinks(links)[k].href, DETAIL_SEGMENT).None?
    ensures FindAnnualContractId(links) == IdOfFirst(DetailLinks(links), IsAnnual)
  {
    var ls := DetailLinks(links);
    assert FindIndex(ls, IsActiveAnnual) == Some(k);
  }

  /** With no active annual contract listed, the first annual contract's link decides,
      whatever its identifier. */
  lemma NoActiveFallsToFirstAnnual(links: seq<ContractLink>, k: nat)
    requires var ls := DetailLinks(links);
      (forall j | 0 <= j < |ls| :: !IsActiveAnnual(ls[j]))
      && k < |ls| && IsAnnual(ls[k]) && forall j | 0 <= j < k :: !IsAnnual(ls[j])
    ensures FindAnnualContractId(links) == SegmentId(DetailLinks(links)[k].href, DETAIL_SEGMENT)
  {
    var ls := DetailLinks(links);
    assert IdOfFirst(ls, IsActiveAnnual).None?;
  }

  /** Without an annual contract in the list there is nothing to resolve from it. */
  lemma NoAnnualNoContract(links: seq<ContractLink>)
    requires forall l | l in links :: !IsAnnual(l)
    ensures FindAnnualContractId(links).None?
  {
  }
}
