/** The Navan transaction form: which value `setField` writes, how the expense-type option
    is chosen (`getExpenseTypeOptionCandidates`, `findExpenseTypeOption`) and how the "New
    transaction" button is found (`findExactNewTransactionButton`). */
module NavanForm {
  import opened Wrappers
  import opened Text
  import opened Normalize
  import opened Dom

  // ----- setField -----

  /** A JavaScript value handed to `setField`. */
  datatype FieldValue = Absent | Text(s: string) | Number(n: int) | Flag(b: bool)

  /** `!value && value !== 0`: a falsy value other than the number zero. */
  predicate SkipsValue(v: FieldValue) {
    match v
    case Absent => true
    case Text(s) => s == ""
    case Number(n) => false
    case Flag(b) => !b
  }

  /** `setField(selectors, value)`: the input written to, if any. Nothing is written for
      a skipped value or when `queryAny` finds no visible input. */
  function SetField(e: Engine, sels: seq<string>, roots: seq<Node>, v: FieldValue): (r: Option<Node>)
    ensures r.None? <==> SkipsValue(v) || QueryAny(e, sels, roots, false).None?
    ensures r.Some? ==> r == QueryAny(e, sels, roots, false) && r.value.el.visible
  {
    if SkipsValue(v) then None else QueryAny(e, sels, roots, false)
  }

  /** Zero is written even though it is falsy, and so is every non-empty text. */
  lemma ZeroAndTextAreWritten(e: Engine, sels: seq<string>, roots: seq<Node>, s: string)
    requires s != ""
    ensures SetField(e, sels, roots, Number(0)) == QueryAny(e, sels, roots, false)
    ensures SetField(e, sels, roots, Text(s)) == QueryAny(e, sels, roots, false)
    ensures SetField(e, sels, roots, Text("")).None?
  {
  }

  // ----- expense-type options -----

  /** Bounds on the length of an option's comparable text. */
  const MIN_OPTION_LENGTH := 2
  const MAX_OPTION_LENGTH := 80

  /** What the option lookup reads from a listed node: its position, whether it is
      visible, and its comparable text. */
  datatype OptionNode = OptionNode(index: nat, visible: bool, key: string)

  /** The nodes the overlay lists (`[role='option'],li,button,div,span`), in document
      order, each read once through `normalizeComparableText`. */
  function OptionNodes(els: seq<Element>): (ns: seq<OptionNode>)
    ensures |ns| == |els|
    ensures forall k | 0 <= k < |els| :: ns[k] == OptionNode(k, els[k].visible, NormalizeComparableText(els[k].text))
  {
    seq(|els|, k requires 0 <= k < |els| => OptionNode(k, els[k].visible, NormalizeComparableText(els[k].text)))
  }

  /** A candidate is kept when visible and its comparable text is 2 to 80 UTF-16 units
      long (an empty text fails the lower bound). */
  predicate IsOptionCandidate(n: OptionNode) {
    n.visible && MIN_OPTION_LENGTH <= Utf16Length(n.key) <= MAX_OPTION_LENGTH
  }

  /** `getExpenseTypeOptionCandidates`: the candidates, in document order. */
  function OptionCandidates(ns: seq<OptionNode>): (r: seq<OptionNode>)
    ensures |r| <= |ns|
    ensures forall k | 0 <= k < |r| :: r[k] in ns && IsOptionCandidate(r[k])
    ensures forall k | 0 <= k < |ns| && IsOptionCandidate(ns[k]) :: ns[k] in r
  {
    Filter(ns, IsOptionCandidate)
  }

  /** The fallback phrases for the work-from-home expense type, in English (with a common
      misspelling) and French. */
  const FALLBACK_PHRASES: seq<string> := ["work from home", "work frol home", "teletravail"]

  /** An option matches when its comparable text includes the target or one of the
      fallback phrases. */
  predicate OptionMatches(n: OptionNode, target: string) {
    Contains(n.key, target) || exists i | 0 <= i < |FALLBACK_PHRASES| :: Contains(n.key, FALLBACK_PHRASES[i])
  }

  /** `candidates.find(...)`: the first candidate that matches. */
  function FirstMatching(cands: seq<OptionNode>, target: string): (r: Option<OptionNode>)
    ensures r.Some? ==> r.value in cands && OptionMatches(r.value, target)
    ensures r.None? <==> forall k | 0 <= k < |cands| :: !OptionMatches(cands[k], target)
  {
    if |cands| == 0 then None
    else if OptionMatches(cands[0], target) then Some(cands[0])
    else
      assert forall k | 1 <= k < |cands| :: cands[k] == cands[1..][k - 1];
      FirstMatching(cands[1..], target)
  }

  /** The reference reading: the first listed node that is both a candidate and a match. */
  function FirstQualifying(ns: seq<OptionNode>, target: string): Option<OptionNode> {
    if |ns| == 0 then None
    else if IsOptionCandidate(ns[0]) && OptionMatches(ns[0], target) then Some(ns[0])
    else FirstQualifying(ns[1..], target)
  }

  /** Filtering first and then finding picks the first node that qualifies on both
      counts. */
  lemma {:induction false} FilterThenFind(ns: seq<OptionNode>, target: string)
    ensures FindExpenseTypeOption(ns, target) == FirstQualifying(ns, target)
  {
    if |ns| > 0 {
      FilterThenFind(ns[1..], target);
      var rest := Filter(ns[1..], IsOptionCandidate);
      if IsOptionCandidate(ns[0]) {
        assert OptionCandidates(ns) == [ns[0]] + rest;
        assert ([ns[0]] + rest)[1..] == rest;
      } else {
        assert OptionCandidates(ns) == rest;
      }
    }
  }

  /** `findExpenseTypeOption(looseTarget)` over the listed nodes (`OptionNodes` of the
      overlay's elements): the option chosen. */
  function FindExpenseTypeOption(ns: seq<OptionNode>, target: string): (r: Option<OptionNode>)
    ensures r.Some? ==> r.value in ns && IsOptionCandidate(r.value) && OptionMatches(r.value, target)
    ensures r.None? <==> forall k | 0 <= k < |ns| :: !(IsOptionCandidate(ns[k]) && OptionMatches(ns[k], target))
  {
    var cands := OptionCandidates(ns);
    var r := FirstMatching(cands, target);
    assert r.None? ==> forall k | 0 <= k < |ns| :: !(IsOptionCandidate(ns[k]) && OptionMatches(ns[k], target)) by {
      if r.None? {
        forall k | 0 <= k < |ns| && IsOptionCandidate(ns[k]) ensures !OptionMatches(ns[k], target) {
          var j :| 0 <= j < |cands| && cands[j] == ns[k];
        }
      }
    }
    r
  }

  /** An empty target (no option text given) is included in every text, so the first
      candidate is chosen. */
  lemma EmptyTargetTakesFirst(ns: seq<OptionNode>)
    requires |OptionCandidates(ns)| > 0
    ensures FindExpenseTypeOption(ns, "") == Some(OptionCandidates(ns)[0])
  {
    assert "" <= OptionCandidates(ns)[0].key[0..];
  }

  // ----- the New transaction button -----

  /** The button's label includes "new transaction" once normalized (`label === "new
      transaction"` is one case of that). */
  predicate IsNewTransactionLabel(caption: string) {
    Contains(NormalizeText(caption), "new transaction")
  }

  /** The buttons searched: those inside the add-transaction menu when it exists and has
      any, otherwise every such button of the page. Each is given by its label (the text
      of its `span.text`, or its own). */
  function ButtonCandidates(inMenu: Option<seq<string>>, inPage: seq<string>): (r: seq<string>)
    ensures inMenu.Some? && |inMenu.value| > 0 ==> r == inMenu.value
    ensures inMenu.None? || |inMenu.value| == 0 ==> r == inPage
  {
    if inMenu.Some? && |inMenu.value| > 0 then inMenu.value else inPage
  }

  /** Which labels are a New transaction label. */
  function LabelFlags(labels: seq<string>): (flags: seq<bool>)
    ensures |flags| == |labels|
    ensures forall k | 0 <= k < |labels| :: flags[k] == IsNewTransactionLabel(labels[k])
  {
    seq(|labels|, k requires 0 <= k < |labels| => IsNewTransactionLabel(labels[k]))
  }

  /** `findExactNewTransactionButton`: the index, among the searched buttons, of the first
      New transaction button. */
  function FindNewTransactionButton(inMenu: Option<seq<string>>, inPage: seq<string>): (r: Option<nat>)
    ensures r.Some? ==> (r.value < |ButtonCandidates(inMenu, inPage)|
      && IsNewTransactionLabel(ButtonCandidates(inMenu, inPage)[r.value])
      && forall j | 0 <= j < r.value :: !IsNewTransactionLabel(ButtonCandidates(inMenu, inPage)[j]))
    ensures r.None? <==> forall j | 0 <= j < |ButtonCandidates(inMenu, inPage)| ::
      !IsNewTransactionLabel(ButtonCandidates(inMenu, inPage)[j])
  {
    FirstTrue(LabelFlags(ButtonCandidates(inMenu, inPage)), 0)
  }

  /** Buttons in the menu hide the page's: a menu with buttons but no New transaction
      button yields nothing, whatever the rest of the page holds. */
  lemma MenuHidesPage(inMenu: seq<string>, inPage: seq<string>)
    requires |inMenu| > 0 && forall j | 0 <= j < |inMenu| :: !IsNewTransactionLabel(inMenu[j])
    ensures FindNewTransactionButton(Some(inMenu), inPage).None?
  {
  }

  /** Case and spacing of the label do not matter. */
  lemma LabelIgnoresLayout(caption: string)
    ensures IsNewTransactionLabel(NormalizeText(caption)) == IsNewTransactionLabel(caption)
  {
    NormalizeTextIdempotent(caption);
  }
}
