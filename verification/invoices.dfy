/** Choosing which Free invoice link to download (`pickBestFreeInvoiceByMonth`). */
module Invoices {
  import opened Wrappers
  import opened Text
  import opened Dates

  /** What the choice reads from an invoice link: its `href`, `title` and text, each the
      empty string when missing. */
  datatype InvoiceLink = InvoiceLink(href: string, title: string, text: string)

  /** The month key of a link, from its address or else from its title and text. */
  function LinkKey(l: InvoiceLink): Option<string> {
    ExtractMonthKeyFromFreeInvoice(l.href, l.title + " " + l.text)
  }

  /** The month key of every link. */
  function LinkKeys(links: seq<InvoiceLink>): (keys: seq<Option<string>>)
    ensures |keys| == |links|
    ensures forall i | 0 <= i < |links| :: keys[i] == LinkKey(links[i])
  {
    seq(|links|, i requires 0 <= i < |links| => LinkKey(links[i]))
  }

  /** `/^\d{6}$/.test(monthKey)`: a missing key tests as the text "null" and fails. */
  predicate HasSixDigitKey(k: Option<string>) {
    k.Some? && IsSixDigits(k.value)
  }

  /** `Number(monthKey)`. */
  function KeyValue(k: Option<string>): nat
    requires HasSixDigitKey(k)
  {
    DigitsValue(k.value)
  }

  /** Which links carry the current month's key. */
  function CurrentFlags(keys: seq<Option<string>>, current: string): (flags: seq<bool>)
    ensures |flags| == |keys|
    ensures forall i | 0 <= i < |keys| :: flags[i] == (keys[i] == Some(current))
  {
    seq(|keys|, i requires 0 <= i < |keys| => keys[i] == Some(current))
  }

  /** The earliest of the links with the greatest six-digit key, from index `i` on: the
      head of the stable descending sort of the links that have one. */
  function LatestFrom(keys: seq<Option<string>>, i: nat): (r: Option<nat>)
    decreases |keys| - i
    ensures r.Some? ==> i <= r.value < |keys| && HasSixDigitKey(keys[r.value])
    ensures r.Some? ==> forall j | i <= j < |keys| && HasSixDigitKey(keys[j]) :: KeyValue(keys[j]) <= KeyValue(keys[r.value])
    ensures r.Some? ==> forall j | i <= j < r.value && HasSixDigitKey(keys[j]) :: KeyValue(keys[j]) < KeyValue(keys[r.value])
    ensures r.None? <==> forall j | i <= j < |keys| :: !HasSixDigitKey(keys[j])
  {
    if i >= |keys| then None
    else
      var rest := LatestFrom(keys, i + 1);
      if !HasSixDigitKey(keys[i]) then rest
      else if rest.None? || KeyValue(keys[i]) >= KeyValue(keys[rest.value]) then Some(i)
      else rest
  }

  /** The choice over the links' keys: the first link of the current month; else the
      earliest link with the greatest six-digit key; else the first link; nothing for no
      links. */
  function PickByKey(keys: seq<Option<string>>, current: string): (r: Option<nat>)
    ensures r.None? <==> |keys| == 0
    ensures r.Some? ==> r.value < |keys|
  {
    match FirstTrue(CurrentFlags(keys, current), 0)
    case Some(i) => Some(i)
    case None =>
      match LatestFrom(keys, 0)
      case Some(i) => Some(i)
      case None => if |keys| == 0 then None else Some(0)
  }

  /** What the choice promises, stated without the algorithm. */
  predicate IsBestPick(keys: seq<Option<string>>, current: string, r: nat) {
    r < |keys|
    && (if exists i | 0 <= i < |keys| :: keys[i] == Some(current) then
          keys[r] == Some(current) && forall j | 0 <= j < r :: keys[j] != Some(current)
        else if exists i | 0 <= i < |keys| :: HasSixDigitKey(keys[i]) then
          HasSixDigitKey(keys[r])
          && (forall j | 0 <= j < |keys| && HasSixDigitKey(keys[j]) :: KeyValue(keys[j]) <= KeyValue(keys[r]))
          && (forall j | 0 <= j < r && HasSixDigitKey(keys[j]) :: KeyValue(keys[j]) < KeyValue(keys[r]))
        else r == 0)
  }

  /** The choice meets its description, and exactly one index does. */
  lemma PickIsBest(keys: seq<Option<string>>, current: string, r: nat)
    requires |keys| > 0
    ensures IsBestPick(keys, current, PickByKey(keys, current).value)
    ensures IsBestPick(keys, current, r) ==> r == PickByKey(keys, current).value
  {
    var p := PickByKey(keys, current).value;
    var flags := CurrentFlags(keys, current);
    if exists i | 0 <= i < |keys| :: keys[i] == Some(current) {
      var i :| 0 <= i < |keys| && keys[i] == Some(current);
      assert flags[i];
    } else if exists i | 0 <= i < |keys| :: HasSixDigitKey(keys[i]) {
      assert FirstTrue(flags, 0).None?;
      if IsBestPick(keys, current, r) {
        assert KeyValue(keys[r]) <= KeyValue(keys[p]) && KeyValue(keys[p]) <= KeyValue(keys[r]);
        if r < p {
        } else if p < r {
        }
      }
    } else {
      assert FirstTrue(flags, 0).None?;
    }
  }

  /** `pickBestFreeInvoiceByMonth`, with the clock's year and month: the index of the
      chosen link. */
  function PickBestFreeInvoiceByMonth(links: seq<InvoiceLink>, year: nat, month: nat): (r: Option<nat>)
    requires 1 <= month <= 12
    ensures r.None? <==> |links| == 0
    ensures r.Some? ==> IsBestPick(LinkKeys(links), CurrentMonthKey(year, month), r.value)
  {
    var keys := LinkKeys(links);
    if |keys| == 0 then None
    else
      PickIsBest(keys, CurrentMonthKey(year, month), 0);
      PickByKey(keys, CurrentMonthKey(year, month))
  }

  /** A link of the current month is chosen over a later month listed before it. */
  lemma CurrentMonthBeatsNewer(keys: seq<Option<string>>, current: string, later: string)
    requires |keys| == 2 && keys[0] == Some(later) && keys[1] == Some(current) && later != current
    ensures PickByKey(keys, current) == Some(1)
  {
    PickIsBest(keys, current, 1);
  }
}
