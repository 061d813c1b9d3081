# Bill-fetching browser extension: a Dafny model of its decision rules

The extension signs in to telecom and transport providers (Orange, Free, Free Mobile,
Red by SFR, Navigo) and downloads the latest bill. It then fills a new Navan expense
transaction with that bill. A popup drives the run and caches the login form.

This project models the deterministic rules under the browser plumbing and proves
properties of them. The page is an abstract DOM snapshot: elements with a tag,
attributes, text, a `visible` flag and an optional shadow root. Selector matching is a
parameter (`Dom.Engine`). Everything the scripts read from the page, the clock or storage
is an input.

| module | file | what it models |
|---|---|---|
| `Wrappers` | wrappers.dfy | `Option`, standing for JavaScript `null` |
| `Text` | text.dfy | character classes, `includes`, regular-expression building blocks, `find`/`filter` |
| `Normalize` | normalize.dfy | `normalizeText` and `normalizeComparableText` |
| `UriDecode` | uri_decode.dfy | `decodeURIComponent`, with UTF-8 |
| `Dates` | dates.dfy | French month names, month keys, bill dates |
| `FileNames` | filenames.dfy | per-provider file names, `Content-Disposition`, `deriveFileName` |
| `Orange` | orange.dfy | account cards, account number, detail address |
| `Invoices` | invoices.dfy | `pickBestFreeInvoiceByMonth` |
| `Dom` | dom.dfy | `querySelectorDeep`, `queryAny`, `queryWithin`, `firstNonEmptyQuery(Within)`, `resolveClickableTarget` |
| `Download` | download.dfy | `resolveDownloadUrl`, `findNewDownloadResource` |
| `Profiles` | profiles.dfy | `normalizeProvider` and the selector profiles |
| `AuthChecks` | auth_checks.dfy | code requests, Free Mobile, Navigo and Orange session checks |
| `AuthFlow` | auth_flow.dfy | the branches of `authProvider` |
| `Navigo` | navigo.dfy | the direct-debit statement address and the contract list |
| `Dispatch` | dispatch.dfy | `handleProviderAction`, `handleNavanAction`, `checkProviderBillingReady` |
| `AutofillGuard` | autofill_guard.dfy | the single-flight flags of the Navan autofill |
| `NavanForm` | navan_form.dfy | `setField`, the expense-type option, the New transaction button |
| `LoginCache` | login_cache.dfy | the popup's login cache |
| `PopupView` | popup_view.dfy | billing types, form restore, instruction banner, event log |

## Model

| member | source | states |
|---|---|---|
| Normalize.Trim | src/content/navan.js:516-518 | `trim()` gives a slice of the input with only white space removed at both ends, and the result has no white space at either end |
| Normalize.NormalizeText | src/content/navan.js:516-518 | the key is trimmed, has no white-space runs and is lower-case, and every character of it is a space or a lower-cased character of the input (provider_flow.js:1183-1188 defines the same function) |
| Normalize.SameLowerSameKey | src/content/provider_flow.js:1183-1188 | two labels that lower-case alike get the same key |
| Normalize.WhiteSpaceRunsAreOne | src/content/provider_flow.js:1183-1188 | any non-empty run of white space between two parts of a label, whatever its length or characters, gives the same key as one space |
| Normalize.NormalizeTextIdempotent | src/content/provider_flow.js:1183-1188 | normalizing twice equals normalizing once, and a string is its own key exactly when it is trimmed, collapsed and lower-case |
| Normalize.NormalizeComparableText | src/content/navan.js:677-684 | the comparable key is normalized and holds no combining mark or decomposable letter |
| Normalize.ComparableIdempotent | src/content/navan.js:677-684 | the comparable key is idempotent |
| Normalize.ComparableIgnoresComposition | src/content/provider_flow.js:1190-1197 | precomposed and decomposed spellings get the same comparable key |
| Normalize.ComparableWhiteSpaceRunsAreOne | src/content/provider_flow.js:1190-1197 | the comparable key, too, treats any non-empty white-space run as one space |
| Normalize.ComparableOfPlainText | src/content/provider_flow.js:1190-1197 | on text with no accented letter and no combining mark, the comparable key is the plain key |
| Normalize.ComparableIgnoresAccent | src/content/provider_flow.js:1190-1197 | an accented letter anywhere in a label gives the same comparable key as its base letter |
| UriDecode.DecodePlain | src/content/provider_flow.js:1289-1295 | a value without `%` decodes to itself |
| UriDecode.Utf8RoundTrip | src/content/provider_flow.js:1289-1295 | UTF-8 decoding inverts UTF-8 encoding for every multi-byte scalar value |
| UriDecode.DecodeEncodeRoundTrip | src/content/provider_flow.js:1289-1295 | decoding a percent-encoded string gives the string back |
| Dates.MonthNumber | src/content/provider_flow.js:1263-1287 | the month number is two digits whose value is the month |
| Dates.FrenchMonthToNumber | src/content/provider_flow.js:1263-1287 | a name is recognised exactly when its folded key is one of the twelve table keys (inherited object members aside, see below), and its number is its position in the table, between 01 and 12 |
| Dates.MonthKeyNumber | src/content/provider_flow.js:1263-1287 | each of the twelve plain month names maps to its own number |
| Dates.PatternMonthNumber | src/content/provider_flow.js:1263-1287 | every accented or plain spelling in the month alternation maps to its own month |
| Dates.MonthFromKnown | src/content/provider_flow.js:448-459 | a month the alternation captures is always known to the month lookup, so the lookup never fails after a match |
| Dates.MonthKeyFromLabel | src/content/provider_flow.js:448-459 | the label yields a key exactly when a "month 20yy" occurs in its normalized text, and the key is a YYYYMM key with a real month |
| Dates.ExtractMonthKeyFromFreeInvoice | src/content/provider_flow.js:448-459 | a six-digit `mois` parameter of the link wins; otherwise the label decides; any key is six digits |
| Dates.LabelMonthKey | src/content/provider_flow.js:448-459 | a label "Name 20yy", the name in any case, gives the key year followed by the month number |
| Dates.HrefMonthKey | src/content/provider_flow.js:448-459 | a link with `?mois=` and six digits gives those digits, whatever its label |
| Dates.HrefWithoutQuery | src/content/provider_flow.js:448-459 | a link without a query string leaves the month to the label |
| Dates.FrenchBillDate | src/content/provider_flow.js:1250-1260 | a French "d month 20yy" yields an ISO date with a real month exactly when one occurs |
| Dates.ExtractBillDateISO | src/content/provider_flow.js:1245-1261 | an ISO `20yy-mm-dd` match wins over the French form; any result has the ISO shape |
| Dates.EmptyTextHasNoDate | src/content/provider_flow.js:1245-1261 | an empty text has no bill date |
| Dates.NoIsoWithoutDash | src/content/provider_flow.js:1250-1252 | a text without a dash has no ISO date |
| Dates.ButtonFrenchDate | src/content/provider_flow.js:1245-1261 | "5 Mars 2024" on the button gives 2024-03-05: the day is padded to two digits |
| Dates.ButtonIsoDate | src/content/provider_flow.js:1245-1261 | an ISO date on the button is returned unchanged |
| Dates.CurrentMonthKey | src/content/provider_flow.js:425-446 | the clock's YYYYMM key reads back as its year and month |
| Dates.MonthStartISO | src/content/provider_flow.js:1199-1204 | the month start is the year, a dash, the padded month and `-01` |
| Dates.CurrentMonthShapes | src/content/provider_flow.js:1199-1204 | in this century the month key is a YYYYMM key, and the month start is an ISO date of the same month |
| FileNames.ParamGet | src/content/provider_flow.js:491-511 | `searchParams.get` finds a value exactly when the key is present, and the value belongs to that key |
| FileNames.ParamGetFirst | src/content/provider_flow.js:491-511 | the value of the first parameter with that name is returned |
| FileNames.DeriveFreePdfFileName | src/content/provider_flow.js:491-511 | a Free name exists exactly when the address parses and ends in `facture_pdf.pl` or has a `no_facture` parameter, and it is built from the trimmed `no_facture` and `mois` values |
| FileNames.FreeNameJoinsParts | src/content/provider_flow.js:499-510 | the name is `facture_` + the present parts (number, then a six-digit month) joined by `_`, or `free` when neither is present, + `.pdf` |
| FileNames.FreeInvoiceNumberParam | src/content/provider_flow.js:491-511 | the first `no_facture` value, non-blank and trimmed, and the first `mois` value, six digits, give `facture_{no}_{mois}.pdf`, whatever the path |
| FileNames.DeriveFreeMobilePdfFileName | src/content/provider_flow.js:513-524 | a Free Mobile name exists exactly when the path has an `/api/SI/invoice/<digits>` segment, and it is `facture_free_mobile_<digits>.pdf` with the digits of the first such segment |
| FileNames.FreeMobileIdRoundTrip | src/content/provider_flow.js:513-524 | behind any prefix that holds no earlier API segment, the invoice number in the API path is the number in the file name, whatever follows the number |
| FileNames.DeriveNavigoPdfFileName | src/content/provider_flow.js:526-540 | an address that does not parse gives no Navigo name; a non-blank `id` names the file, and an absent or empty `id` defers to a non-blank `documentId` |
| FileNames.NavigoDocumentId | src/content/provider_flow.js:526-540 | `id` takes precedence over `documentId`, and an `id` of white space only falls back to the month name without consulting `documentId` |
| FileNames.NavigoMonthName | src/content/provider_flow.js:526-540 | without an identifier, only attestation and direct-debit pages get a name, made from the current month as YYYY-MM |
| FileNames.DecodeSafe | src/content/provider_flow.js:1289-1295 | a value is percent-decoded when it decodes, and is kept raw when decoding throws; a value without `%` is kept as it is |
| FileNames.DecodeSafeRoundTrip | src/content/provider_flow.js:1289-1295 | decoding a percent-encoded string gives the string back |
| FileNames.ParseContentDisposition | src/content/provider_flow.js:1227-1238 | an empty header has no name; the `filename*=UTF-8''` value, unquoted and decoded, wins over the plain `filename=` value, which is trimmed |
| FileNames.ExtendedFilenameWins | src/content/provider_flow.js:1227-1238 | the RFC 5987 parameter (section 3.2) carrying a percent-encoded name gives the name back |
| FileNames.UndecodableKeptRaw | src/content/provider_flow.js:1289-1295 | an extended value that is not valid percent-encoding is kept as sent |
| FileNames.PlainFilenameQuoted | src/content/provider_flow.js:1234-1237 | a quoted plain parameter gives its value, trimmed |
| FileNames.LastSegment | src/content/provider_flow.js:480-484 | the last segment holds no `/` and no `?` |
| FileNames.LastSegmentOf | src/content/provider_flow.js:480-484 | the segment between the last `/` and the query is the one returned |
| FileNames.DefaultName | src/content/provider_flow.js:486-488 | the default is `orange-bill.html` exactly when the content type mentions `html`, else `orange-bill.pdf` |
| FileNames.DeriveFileName | src/content/provider_flow.js:461-489 | the file name is never empty |
| FileNames.ChooseNameFirstSome | src/content/provider_flow.js:461-489 | the first present, non-empty candidate is taken, and the default only when there is none |
| FileNames.DeriveFileNameChain | src/content/provider_flow.js:461-489 | the name is the first of the Orange name, the provider name, the header's name and a dotted last segment, else the default |
| FileNames.OrangeNameWins | src/content/provider_flow.js:461-470 | an Orange page with an account number and a bill date gives `facture_{id}_{date}.pdf`, whatever the headers say |
| FileNames.DispositionNamesFile | src/content/provider_flow.js:472-478 | when no provider rule applies, a non-empty header filename names the file |
| FileNames.UrlOrDefault | src/content/provider_flow.js:480-488 | without other sources, a dotted last segment names the file; otherwise the content type picks the default |
| Orange.AccountTypeOf | src/content/provider_flow.js:80-83 | anything but `mobile_internet` means home internet |
| Orange.MatchIgnoresLayout | src/content/provider_flow.js:892-898 | case and spacing of a card's text do not change whether it matches |
| Orange.FirstCardOfType | src/content/provider_flow.js:878-890 | the chosen card is the first card of the requested kind, and there is none exactly when no card matches |
| Orange.PaymentIdIn | src/content/provider_flow.js:900-908 | an account number is a non-empty run of digits found after `/facture-paiement/` |
| Orange.ExtractAccountId | src/content/provider_flow.js:900-908 | a `data-e2e` value of six or more digits wins; otherwise the number in the `href`, else in the node's own address |
| Orange.DetailUrl | src/content/provider_flow.js:250 | the detail address is the Orange origin, the payment segment, the account number and `/detail-facture`, in that order and nothing else |
| Orange.DetailUrlRoundTrip | src/content/provider_flow.js:250 | the account number is read back from its detail address |
| Orange.AccountIdFromDetailLink | src/content/provider_flow.js:900-908 | a card linking to its detail page yields the number in the link |
| Invoices.LatestFrom | src/content/provider_flow.js:432-444 | the earliest link with the greatest six-digit key; there is none exactly when no key has six digits |
| Invoices.PickByKey | src/content/provider_flow.js:425-446 | there is no choice exactly when there are no links |
| Invoices.PickIsBest | src/content/provider_flow.js:425-446 | the choice is the first link of the current month, else the earliest with the greatest key, else the first; exactly one index meets that description |
| Invoices.PickBestFreeInvoiceByMonth | src/content/provider_flow.js:425-446 | an empty list gives nothing; otherwise the chosen link meets that description |
| Invoices.CurrentMonthBeatsNewer | src/content/provider_flow.js:425-446 | the current month's link is preferred over a later month listed before it |
| Dom.QuerySelectorDeep | src/content/navan.js:398-410 | a result is a node that the selector matches |
| Dom.DeepIsFirstInOrder | src/content/navan.js:398-410 | the result is the first match in light-tree-then-shadow-roots order, shadow roots taken recursively in document order |
| Dom.LightTreeFirst | src/content/navan.js:398-410 | a light-tree match beats any shadow-root match |
| Dom.QueryAny | src/content/navan.js:385-396 | selectors are tried in order; a hidden match counts only with `allowHidden`; there is no result exactly when no selector qualifies |
| Dom.AllowHiddenWidens | src/content/navan.js:385-396 | allowing hidden nodes finds something whenever the visible-only search does, at the same or an earlier selector |
| Dom.QueryWithin | src/content/provider_flow.js:914-924 | only the first match of each valid selector is checked, in order, and it must be visible; there is no result exactly when none qualifies |
| Dom.HiddenFirstMatchSkips | src/content/provider_flow.js:914-924 | a hidden first match hides the later visible matches of the same selector |
| Dom.FirstNonEmptyQuery | src/content/provider_flow.js:926-948 | the result is all visible matches of the first valid selector that has any |
| Dom.WithinImpliesNonEmpty | src/content/provider_flow.js:914-948 | whenever `queryWithin` finds a node, `firstNonEmptyQueryWithin` finds a non-empty list |
| Dom.ResolveClickableTarget | src/content/navan.js:509-514 | a null node gives null; otherwise the node itself when clickable, else its nearest clickable ancestor, else the node |
| Dom.ResolveIdempotent | src/content/navan.js:509-514 | resolving the resolved target again changes nothing |
| Download.FirstAttribute | src/content/provider_flow.js:1142-1145 | the address is the first non-empty one of `href`, `data-href` and `data-url`; there is none exactly when all are empty |
| Download.FirstAttributeOrder | src/content/provider_flow.js:1142-1145 | the attributes are tried in that fixed order |
| Download.NormalizeUrl | src/content/provider_flow.js:977-984 | a missing or empty address gives nothing; any other is resolved against the page |
| Download.FindNewDownloadResource | src/content/provider_flow.js:1174-1181 | the result is the first resource, in load order, that is new since the click and names a pdf, a download or an invoice; there is none exactly when no resource qualifies |
| Download.NothingNewFindsNothing | src/content/provider_flow.js:1174-1181 | when every resource was already loaded, nothing is found |
| Download.FoundResourceStays | src/content/provider_flow.js:1174-1181 | resources loaded later never displace a download already found |
| Download.NewDownloadFound | src/content/provider_flow.js:1174-1181 | a new download is found when nothing new before it qualified |
| Download.ResolveDownloadUrl | src/content/provider_flow.js:1141-1160 | a result is non-empty, and the control's own address wins when it resolves |
| Download.ResolveTiers | src/content/provider_flow.js:1141-1160 | the four sources (control, enclosing link, page candidate, resource diff) are tried in order and the first that yields decides |
| Download.ResourceDiffIsLastResort | src/content/provider_flow.js:1155-1159 | the resource diff is not consulted when the page offers a candidate |
| Profiles.NormalizeProvider | src/content/provider_flow.js:1128-1131 | the provider is the trimmed name when it is non-blank, else `orange_provider`; the result is never empty |
| Profiles.NormalizeProviderIdempotent | src/content/provider_flow.js:1128-1131 | normalizing twice equals normalizing once |
| Profiles.LoginSelectors | src/content/provider_flow.js:1114-1117 | a provider's own login profile replaces the default one as a whole |
| Profiles.LoginIgnoresDefaults | src/content/provider_flow.js:1114-1117 | with its own login profile, a provider takes no role from the defaults |
| Profiles.Override | src/content/provider_flow.js:1119-1126 | the merge has every role of either profile, with the provider's selectors where it defines the role |
| Profiles.BillingSelectors | src/content/provider_flow.js:1119-1126 | the billing profile is the defaults, overridden only on the roles the provider defines |
| Profiles.OverrideIdempotent | src/content/provider_flow.js:1119-1126 | applying the override twice changes nothing, and an empty override gives the defaults |
| AuthChecks.IsFreeMobileOtpRequired | src/content/provider_flow.js:1074-1112 | a visible explicit code input alone means a code is required; a visible generic one counts only with challenge text |
| AuthChecks.HiddenOtpInputsIgnored | src/content/provider_flow.js:1074-1112 | hidden code inputs never trigger a code request |
| AuthChecks.ChallengeIgnoresLayout | src/content/provider_flow.js:1096-1110 | case and spacing of the challenge text do not matter |
| AuthChecks.AuthenticatedGuess | src/content/provider_flow.js:1437 | the guess is false while a code is required; otherwise a signed-in marker suffices; without a marker, the guess holds exactly when the page is in the account area, off the login route and without a login field |
| AuthChecks.LoginRouteIsNotSignedIn | src/content/provider_flow.js:1422-1437 | the login route lies in the account area, but alone it never passes for signed in |
| AuthChecks.AccountPageIsSignedIn | src/content/provider_flow.js:1422-1437 | an account page off the login route, with no login field and no code request, is guessed signed in |
| AuthChecks.AccountRootIsSignedIn | src/content/provider_flow.js:1424-1437 | the bare `/account/v2` path is in the account area and off the login route, so with no login field and no code request it is guessed signed in |
| AuthChecks.IsFreeMobileAuthenticated | src/content/provider_flow.js:1066-1072 | signed in exactly when on a Free Mobile host and the guess holds, and never while a code is required |
| AuthChecks.IsNavigoAuthenticated | src/content/provider_flow.js:1038-1064 | signed in implies a customer host, a signed-in phrase, no sign-in field and a path off the sign-in route |
| AuthChecks.NavigoDecision | src/content/provider_flow.js:1038-1064 | the converse holds too, because the domain test follows from the customer-host test |
| AuthChecks.NavigoHostsInDomain | src/content/provider_flow.js:1040-1050 | both customer hosts lie in the Navigo domain |
| AuthChecks.AccentedMarkerNeverMatches | src/content/provider_flow.js:1052-1063 | the accented logout phrase never matches text that has been through `normalizeComparableText` |
| AuthChecks.PlainMarkersDecide | src/content/provider_flow.js:1052-1063 | so the unaccented phrases alone decide |
| AuthChecks.LoginFieldShown | src/content/provider_flow.js:914-924 | a profile without a `username` role throws a TypeError, and so does one without a `password` role whose username field is absent; otherwise the answer is whether a username or password field shows |
| AuthChecks.IsOrangeAuthenticated | src/content/provider_flow.js:1019-1027 | never signed in off the Orange customer host; on it, signed in without an Orange login profile; with one, it throws exactly when reading the profile's login fields throws, is never signed in while a login field shows, and is signed in when both roles are listed and no field shows |
| AuthChecks.IsProviderAuthenticated | src/content/provider_flow.js:1029-1036 | Orange, Free Mobile and Navigo get exactly their own check; any other provider throws exactly when reading its profile's login fields throws, never throws when both roles are listed, and otherwise is signed in exactly when no login field shows |
| AuthChecks.OwnChecksIgnoreProfiles | src/content/provider_flow.js:1029-1036 | the three own checks do not depend on the generic login profiles, and the other providers do not depend on the Orange profile |
| AuthFlow.Submit | src/content/provider_flow.js:218-222 | the click comes last, after a given password was typed |
| AuthFlow.RedBySfrLogin | src/content/provider_flow.js:88-101 | Red by SFR fills what it can and always leaves the sign-in to the user, with no click |
| AuthFlow.OnePageLogin | src/content/provider_flow.js:103-179 | the form is submitted exactly when all three controls are found and there is something to submit; an SMS code wait happens only for Free Mobile after the click |
| AuthFlow.GenericLogin | src/content/provider_flow.js:181-229 | a captcha stops before any click; a new session is reported exactly when the final click happened and no captcha followed |
| AuthFlow.AuthProvider | src/content/provider_flow.js:80-230 | an open session skips the sign-in; a submit click requires something to submit, and comes last; a typed password was given |
| AuthFlow.BlankPasswordMeansManualLogin | src/content/provider_flow.js:128-131 | with no password given and a blank field, the result is a manual login and nothing is clicked (also lines 170-173 and 215-217) |
| AuthFlow.FreeMobileCodeWaitsForUser | src/content/provider_flow.js:134-136 | a code request after the click waits for the user's SMS code |
| AuthFlow.RedBySfrIsManual | src/content/provider_flow.js:84-101 | Red by SFR never submits and never reports a new session |
| Navigo.SegmentId | src/content/provider_flow.js:641-659 | the captured identifier is non-empty and free of `/`, `?` and `#`, and it exists exactly when the segment is followed by one somewhere |
| Navigo.ResolvePrelevementsUrl | src/content/provider_flow.js:641-659 | a statement page keeps its address; a detail page leads to its contract's statement; else the listed contract's statement; else nothing |
| Navigo.StatementPageIsFixed | src/content/provider_flow.js:641-659 | once the built statement page is open, resolving again keeps it |
| Navigo.DetailPageLeadsToStatement | src/content/provider_flow.js:647-650 | a detail page resolves to the statement page of the same contract |
| Navigo.DetailLinks | src/content/provider_flow.js:827 | the links searched are exactly those whose `href` contains the detail segment |
| Navigo.FindAnnualContractId | src/content/provider_flow.js:826-846 | a result is a valid identifier taken from the `href` of an annual Navigo contract link |
| Navigo.ActiveContractWins | src/content/provider_flow.js:828-836 | the first active annual contract wins over annual ones listed before it |
| Navigo.ActiveWithoutIdFallsBack | src/content/provider_flow.js:838-843 | when that link carries no identifier, the first annual contract link decides |
| Navigo.IdOfFirst | src/content/provider_flow.js:828-843 | the identifier comes from the first link passing the test, and there is none when no link passes |
| Navigo.NoActiveFallsToFirstAnnual | src/content/provider_flow.js:838-843 | with no active annual contract listed, the result is the identifier of the first annual contract link |
| Navigo.NoAnnualNoContract | src/content/provider_flow.js:826-846 | without an annual contract link there is no result |
| Dispatch.DispatchProvider | src/content/provider_flow.js:20-38 | an action is rejected, with its name in the message, exactly when it is unknown; routed actions get the normalized provider |
| Dispatch.ProviderRoundTrip | src/content/provider_flow.js:20-38 | each handler is reached by its action name |
| Dispatch.LegacyNamesAgree | src/content/provider_flow.js:22-29 | the legacy Orange action names run the same handlers |
| Dispatch.DispatchNavan | src/content/navan.js:26-39 | an action is rejected, with its name in the message, exactly when it is unknown |
| Dispatch.NavanRoundTrip | src/content/navan.js:26-39 | each Navan handler is reached by its action name |
| Dispatch.BillingReady | src/content/provider_flow.js:53-78 | Red by SFR is ready when signed in or showing its invoices; Navigo also needs an account-area label; every other provider is ready exactly when signed in |
| Dispatch.PageReady | src/content/provider_flow.js:53-78 | invoice evidence makes Red by SFR ready before any sign-in check; otherwise the readiness check throws exactly when the sign-in check throws, and when it returns, readiness is decided from its answer |
| Dispatch.ReadyNeedsSignIn | src/content/provider_flow.js:53-78 | on a real page, every provider but Red by SFR is only ready when its own sign-in check passes: the Orange host, no Free Mobile one-time code, no Navigo login field, or both login roles listed and no login field of the provider's profile |
| Dispatch.RedBySfrReady | src/content/provider_flow.js:53-60 | Red by SFR is ready on a page with both login roles listed and no login field, and on any page showing its invoices |
| Dispatch.MissingUsernameRoleThrows | src/content/provider_flow.js:1029-1036 | a generic provider whose profile lists no `username` role makes the readiness check throw, unless Red by SFR shows its invoices |
| AutofillGuard.Schedule | src/content/navan.js:177-209 | scheduling does nothing off the form page or while running or done; otherwise it raises `running` and starts one tick chain, waiting for its first timer |
| AutofillGuard.TickStartAsWritten | src/content/navan.js:191-193 | when a chain's timer fires, a done fill ends the chain; otherwise the chain starts its attempt, whatever other attempt is in progress |
| AutofillGuard.TickStart | src/content/navan.js:191-193 | the same, except that while another chain's attempt is in progress the chain keeps waiting; the flags are never changed |
| AutofillGuard.TickEnd | src/content/navan.js:193-206 | when the awaited attempt returns, success sets done and lowers running; failure waits for the next timer until the wait runs out, then lowers running with done unchanged; a retired chain only ends |
| AutofillGuard.Retire | src/content/navan.js:221-229 | a reset cancels every waiting chain and keeps each attempt in progress, retired |
| AutofillGuard.SingleFlightMeans | src/content/navan.js:177-256 | under the invariant no two attempts are in progress, at most one chain is live, and `running` holds exactly while a live chain is pending |
| AutofillGuard.Mutation | src/content/navan.js:247-256 | a DOM change never reschedules a fill that is done |
| AutofillGuard.RouteChangeAsWritten | src/content/navan.js:221-229 | the same path changes nothing; a new path is recorded; a form path resets both flags and reschedules, leaving old chains pending |
| AutofillGuard.RouteChange | src/content/navan.js:221-229 | the same transition, except that the reset cancels waiting chains and retires an attempt in progress, so the fill it schedules is the only live chain |
| AutofillGuard.Step | src/content/navan.js:177-256 | every event keeps the single-flight invariant |
| AutofillGuard.RunKeepsSingleFlight | src/content/navan.js:177-256 | however timers, awaited attempts, mutations and route changes interleave, the invariant holds and no two attempts are ever in progress at once |
| AutofillGuard.DoneIsFinal | src/content/navan.js:185-190 | a done fill stays done until the route changes |
| AutofillGuard.StaleChainSurvivesRouteChange | src/content/navan.js:221-229 | as written, moving between two form pages mid-fill leaves two chains pending |
| AutofillGuard.StaleAttemptRunsBesideLive | src/content/navan.js:191-193 | as written, both pending chains can be in the middle of an attempt at once |
| AutofillGuard.StaleTimeoutStartsThirdChain | src/content/navan.js:198-206 | as written, the stale chain's timeout lowers the guard under the live fill, and the next mutation starts a third chain |
| NavanForm.SetField | src/content/navan.js:166-175 | nothing is written for a falsy value other than 0 or when no visible input is found; otherwise the found input is written |
| NavanForm.ZeroAndTextAreWritten | src/content/navan.js:166-169 | 0 and every non-empty text are written; the empty text is not |
| NavanForm.OptionCandidates | src/content/navan.js:666-675 | candidates are exactly the visible nodes whose comparable text is 2 to 80 units long |
| NavanForm.FindExpenseTypeOption | src/content/navan.js:656-664 | the option is a candidate whose text holds the target or a work-from-home phrase; there is none exactly when no node qualifies |
| NavanForm.FilterThenFind | src/content/navan.js:656-675 | filtering then finding picks the first node that is both a candidate and a match |
| NavanForm.EmptyTargetTakesFirst | src/content/navan.js:656-664 | an empty target picks the first candidate |
| NavanForm.ButtonCandidates | src/content/navan.js:81-94 | buttons in the add-transaction menu are searched when there are any, else the page's |
| NavanForm.FindNewTransactionButton | src/content/navan.js:81-94 | the result is the first searched button whose normalized label includes "new transaction"; there is none exactly when none does |
| NavanForm.MenuHidesPage | src/content/navan.js:81-94 | a menu with buttons but no such button yields nothing, whatever the page holds |
| NavanForm.LabelIgnoresLayout | src/content/navan.js:86-92 | case and spacing of the label do not matter |
| LoginCache.Purged | src/popup/popup.js:195-204 | the rewritten record has no password, the stored username trimmed, `mobile_internet` exactly when that was stored and `home_internet` otherwise, a string provider and the same expiry |
| LoginCache.ReadLoginCache | src/popup/popup.js:184-207 | no record gives nothing; an expired one is removed; an unexpired one is returned, as stored or purged when it still has a password; a returned record is stored, password-free and unexpired; other keys are untouched |
| LoginCache.SaveLoginCache | src/popup/popup.js:176-182 | the record expires thirty minutes after `now`, has no password, and other keys are untouched |
| LoginCache.PersistLoginDraft | src/popup/popup.js:209-215 | a blank username saves nothing; otherwise the trimmed username is saved |
| LoginCache.SaveThenRead | src/popup/popup.js:176-207 | a saved login reads back unchanged until it expires, and is removed afterwards |
| LoginCache.ReadIdempotent | src/popup/popup.js:184-207 | reading twice at the same time equals reading once |
| LoginCache.LegacyPasswordPurged | src/popup/popup.js:195-204 | a legacy record comes back, and is stored, without its password, with its username trimmed and its expiry kept |
| PopupView.OptionsFor | src/popup/popup.js:217-220 | the Navigo list is offered exactly for `navigo_provider`, the default list otherwise |
| PopupView.SelectBillingOption | src/popup/popup.js:222-231 | an empty list changes nothing; otherwise the preferred (or current) value stays if offered, else the first option is selected |
| PopupView.SelectionIsStable | src/popup/popup.js:222-231 | selecting again keeps the selection, whether it is passed as the current value or as the preference |
| PopupView.ProviderSwitchSelects | src/popup/popup.js:217-231 | switching to Navigo selects its one type; switching away falls back to home internet |
| PopupView.RestoredProvider | src/popup/popup.js:169-170 | `freemobile_provider` migrates to `free_mobile_provider`; a missing or empty provider becomes `orange_provider` |
| PopupView.LoadLoginCacheIntoForm | src/popup/popup.js:167-174 | the provider is restored, an offered billing type is selected, and the username is restored when there is a record |
| PopupView.SavedFormIsRestored | src/popup/popup.js:167-215 | a form saved and restored before expiry comes back unchanged |
| PopupView.LastWaiting | src/popup/popup.js:150 | the index of the most recent `waiting_user` event, with none after it |
| PopupView.InstructionBanner | src/popup/popup.js:142-159 | the banner shows exactly when the run waits for the user and some event waits; its text is never empty |
| PopupView.BannerFollowsNewest | src/popup/popup.js:150-158 | a non-waiting event leaves the banner unchanged; a waiting event's details, or the default text, replace it |
| PopupView.LogWindow | src/popup/popup.js:106-107 | the window is the last min(n, 8) events, in order |
| PopupView.LogLines | src/popup/popup.js:105-110 | one line per windowed event, oldest first |
| PopupView.LogSlides | src/popup/popup.js:106-107 | a new event becomes the last line, and a full window drops its oldest event |

## Left out

- Message transport: the `chrome.runtime` listeners, `sendResponse` and the popup's `sendMessage` are extension plumbing. Actions are modelled from `handleProviderAction` and `handleNavanAction` inward.
- Waiting, polling and time: `waitForVisible`, the `wait*` helpers, `setTimeout` and the observers are replaced by inputs. The autofill tick is two events: its timer firing (`TickStartEvent`) and the awaited attempt returning (`TickEndEvent`, with an explicit time). `Date.now` and the current month are parameters.
- Selector matching, `new URL` parsing and Unicode NFD are modelled abstractly:
  - matching is the `Dom.Engine` parameter;
  - an address is a path and an ordered list of query parameters;
  - NFD is a Latin-1 table.
- Text.Lower: lower-cases only ASCII and Latin-1 letters, because the texts compared are French and English.
- Normalize.Nfd: decomposes only the precomposed Latin-1 letters, for the same reason.
- Dates.FrenchMonthToNumber: `map[month] || null` also answers for keys every JavaScript object inherits (`constructor`, `toString`, `__proto__`, ...), returning that member instead of `null`; the model answers nothing for them. Both callers (provider_flow.js:453-456 and 1254-1257) pass a name captured by a French month alternation, so such a key never reaches it.
- Synthetic events are left out, because they are browser event semantics with no contract to state:
  - `realClick`, `setInputValue`, `setNativeInputValue`, `tryPasteLikeInput`;
  - `selectNavigoPeriodInput`, `typeExpenseTypeQuery`;
  - the page-side clicks.
- `forceDownloadFromUrl` is left out: it depends on `fetch`, blobs and object URLs.
- `navigateBilling` and `downloadAndExtractBill` are left out as procedures: they are sequences of DOM waits and clicks. The rules they call are modelled: invoice choice, download address, file name and bill date.
- `checkProviderSession` only wraps `isProviderAuthenticated`, so its routing is modelled but its body is not.
- AuthFlow.AuthProvider: the observed sign-in booleans it takes carry no TypeError; the throwing sign-in check is modelled in `AuthChecks.LoginFieldShown` and `Dispatch.PageReady`.
- `isCaptchaPresent`, `findByText` and `findByLooseText` are free-text DOM scans. The flows take their outcomes as observed booleans (`AuthFlow.AuthObs`, `Dispatch.BillingReady`).
- `getFreeMobileAuthDiagnostics` is modelled only through its `authenticatedGuess`. The remaining fields are diagnostic output.
- AuthFlow.OnePageLogin: the Free Mobile error messages omit the ` | <diagnostics>` suffix the source appends.
- AuthFlow.AuthProvider: states the decisions and action order, not the values typed.
- LoginCache.ReadLoginCache: record fields are typed strings. `String(...)` on a non-string stored value is not modelled.
- Download.ResolveDownloadUrl: `queryDownloadCandidateFromPage` is the `pageCandidate` parameter and resolving an address is the `resolve` parameter.
- `isSupportedProviderHost`, `renderUpdateStatus` and the status line are outside the modelled rules.

## Findings

| source | as written | input that shows it | evidently intended | confidence | as-written member | corrected member |
|---|---|---|---|---|---|---|
| src/content/navan.js:221-229 | a route change onto a form page lowers `running` and `done` and schedules a fill, but the previous fill's tick chain keeps polling, since a tick only checks `done` | start a fill on `/transactions/new-redesign/1`, move to `/transactions/new-redesign/2` before it finishes: two chains poll; when the stale one times out it lowers `running` under the live fill, and the next DOM change starts a third | one fill in flight at a time: the reset cancels waiting chains and retires an attempt in progress, and an attempt starts only when no other is in progress | not executed | AutofillGuard.RouteChangeAsWritten, AutofillGuard.TickStartAsWritten (AutofillGuard.StaleChainSurvivesRouteChange, AutofillGuard.StaleAttemptRunsBesideLive, AutofillGuard.StaleTimeoutStartsThirdChain) | AutofillGuard.RouteChange, AutofillGuard.TickStart (AutofillGuard.RunKeepsSingleFlight) |

A related quirk is proved but not listed as a finding. `isNavigoAuthenticated` lists an accented logout phrase among its markers, but it compares it against text that `normalizeComparableText` has already stripped of accents. That marker therefore never matches (`AuthChecks.AccentedMarkerNeverMatches`). The unaccented `deconnexion` marker covers the same pages, so the behaviour is unaffected.
