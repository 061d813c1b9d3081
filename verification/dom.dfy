/** An abstract snapshot of a page and the ordered lookups the content scripts make in it.
    Selector syntax is not modelled: an `Engine` says which selectors the browser accepts
    and which elements a selector matches. */
module Dom {
  import opened Wrappers
  import opened Text

  /** What the lookups read from an element. `visible` stands for a bounding box of
      non-zero width and height. */
  datatype Element = Element(tag: string, attrs: seq<(string, string)>, text: string, visible: bool)

  /** A node of the light tree, with its children in document order; `hasShadow` says
      whether it hosts a shadow root, and `shadow` lists that root's children. */
  datatype Node = Node(el: Element, children: seq<Node>, hasShadow: bool, shadow: seq<Node>)

  /** The browser's selector engine: `valid(sel)` is false when `querySelector(sel)`
      throws, and `matches(sel, e)` is `e.matches(sel)`. */
  datatype Engine = Engine(valid: string -> bool, matches: (string, Element) -> bool)

  /** The number of nodes in a forest, shadow trees included. */
  function Size(ns: seq<Node>): nat
    decreases ns
  {
    if |ns| == 0 then 0
    else
      1 + Size(ns[0].children) + Size(ns[0].shadow) + Size(ns[1..])
  }

  /** The light-tree descendants of a forest in document order: what
      `querySelectorAll("*")` lists. Shadow trees are not entered. */
  function Flatten(ns: seq<Node>): (r: seq<Node>)
    decreases ns
  {
    if |ns| == 0 then [] else [ns[0]] + Flatten(ns[0].children) + Flatten(ns[1..])
  }

  /** Every node listed by `Flatten` is smaller than the forest, its shadow tree
      included. */
  lemma {:induction false} FlattenSmaller(ns: seq<Node>)
    decreases ns
    ensures forall k | 0 <= k < |Flatten(ns)| :: Size(Flatten(ns)[k].shadow) < Size(ns)
  {
    if |ns| > 0 {
      FlattenSmaller(ns[0].children);
      FlattenSmaller(ns[1..]);
      var a, b := Flatten(ns[0].children), Flatten(ns[1..]);
      assert Flatten(ns) == [ns[0]] + a + b;
      forall k | 0 <= k < |Flatten(ns)| ensures Size(Flatten(ns)[k].shadow) < Size(ns)
      {
        if k == 0 {
        } else if k <= |a| {
          assert Flatten(ns)[k] == a[k - 1];
        } else {
          assert Flatten(ns)[k] == b[k - 1 - |a|];
        }
      }
    }
  }

  /** The first node of `ns` that `sel` matches. */
  function FirstMatch(e: Engine, sel: string, ns: seq<Node>): (r: Option<Node>)
    ensures r.Some? ==> r.value in ns && e.matches(sel, r.value.el)
    ensures r.None? <==> forall k | 0 <= k < |ns| :: !e.matches(sel, ns[k].el)
    ensures r.Some? ==> exists k | 0 <= k < |ns| :: ns[k] == r.value && forall j | 0 <= j < k :: !e.matches(sel, ns[j].el)
  {
    if |ns| == 0 then None
    else if e.matches(sel, ns[0].el) then Some(ns[0])
    else
      var r := FirstMatch(e, sel, ns[1..]);
      assert forall k | 1 <= k < |ns| :: ns[k] == ns[1..][k - 1];
      if r.Some? then
        var k :| 0 <= k < |ns[1..]| && ns[1..][k] == r.value && forall j | 0 <= j < k :: !e.matches(sel, ns[1..][j].el);
        assert ns[k + 1] == r.value && forall j | 0 <= j < k + 1 :: !e.matches(sel, ns[j].el);
        r
      else r
  }

  /** The first match in `a + b` is the first in `a`, or else the first in `b`. */
  lemma {:induction false} FirstMatchAppend(e: Engine, sel: string, a: seq<Node>, b: seq<Node>)
    ensures FirstMatch(e, sel, a + b) == if FirstMatch(e, sel, a).Some? then FirstMatch(e, sel, a) else FirstMatch(e, sel, b)
    decreases |a|
  {
    if |a| > 0 {
      assert (a + b)[0] == a[0];
      assert (a + b)[1..] == a[1..] + b;
      FirstMatchAppend(e, sel, a[1..], b);
    } else {
      assert a + b == b;
    }
  }

  /** `root.querySelector(sel)` on a valid selector: the first light-tree descendant in
      document order that matches. */
  function QuerySelector(e: Engine, sel: string, roots: seq<Node>): (r: Option<Node>)
    ensures r.Some? ==> r.value in Flatten(roots) && e.matches(sel, r.value.el)
  {
    FirstMatch(e, sel, Flatten(roots))
  }

  /** `querySelectorDeep`: a match in the light tree; failing that, the first hit of the
      same search run inside each shadow root, hosts taken in document order. */
  function QuerySelectorDeep(e: Engine, sel: string, roots: seq<Node>): (r: Option<Node>)
    decreases Size(roots), 1, 0
    ensures r.Some? ==> e.matches(sel, r.value.el)
  {
    match QuerySelector(e, sel, roots)
    case Some(direct) => Some(direct)
    case None => ShadowHit(e, sel, roots, 0)
  }

  /** The loop of `querySelectorDeep` over the hosts of the light tree, from index `i` of
      `Flatten(roots)`. */
  function ShadowHit(e: Engine, sel: string, roots: seq<Node>, i: nat): (r: Option<Node>)
    decreases Size(roots), 0, |Flatten(roots)| - i
    ensures r.Some? ==> e.matches(sel, r.value.el)
  {
    var nodes := Flatten(roots);
    if i >= |nodes| then None
    else if !nodes[i].hasShadow then ShadowHit(e, sel, roots, i + 1)
    else
      FlattenSmaller(roots);
      match QuerySelectorDeep(e, sel, nodes[i].shadow)
      case Some(hit) => Some(hit)
      case None => ShadowHit(e, sel, roots, i + 1)
  }

  /** All nodes in the order `querySelectorDeep` considers them: the light tree, then,
      for each host in document order, its shadow tree in this same order. */
  function DeepOrder(roots: seq<Node>): seq<Node>
    decreases Size(roots), 1, 0
  {
    Flatten(roots) + ShadowOrder(roots, 0)
  }

  /** The shadow trees of the hosts of `Flatten(roots)` from index `i` on. */
  function ShadowOrder(roots: seq<Node>, i: nat): seq<Node>
    decreases Size(roots), 0, |Flatten(roots)| - i
  {
    var nodes := Flatten(roots);
    if i >= |nodes| then []
    else if !nodes[i].hasShadow then ShadowOrder(roots, i + 1)
    else
      FlattenSmaller(roots);
      DeepOrder(nodes[i].shadow) + ShadowOrder(roots, i + 1)
  }

  /** `querySelectorDeep` returns the first match in `DeepOrder`: every light-tree node
      comes before every shadow node, and shadow roots are searched recursively in
      document order. */
  lemma {:induction false} DeepIsFirstInOrder(e: Engine, sel: string, roots: seq<Node>)
    decreases Size(roots), 1, 0
    ensures QuerySelectorDeep(e, sel, roots) == FirstMatch(e, sel, DeepOrder(roots))
  {
    FirstMatchAppend(e, sel, Flatten(roots), ShadowOrder(roots, 0));
    ShadowHitIsFirst(e, sel, roots, 0);
  }

  lemma {:induction false} ShadowHitIsFirst(e: Engine, sel: string, roots: seq<Node>, i: nat)
    decreases Size(roots), 0, |Flatten(roots)| - i
    ensures ShadowHit(e, sel, roots, i) == FirstMatch(e, sel, ShadowOrder(roots, i))
  {
    var nodes := Flatten(roots);
    if i < |nodes| {
      ShadowHitIsFirst(e, sel, roots, i + 1);
      if nodes[i].hasShadow {
        FlattenSmaller(roots);
        DeepIsFirstInOrder(e, sel, nodes[i].shadow);
        FirstMatchAppend(e, sel, DeepOrder(nodes[i].shadow), ShadowOrder(roots, i + 1));
      }
    }
  }

  /** A match in the light tree wins over any match inside a shadow root. */
  lemma LightTreeFirst(e: Engine, sel: string, roots: seq<Node>, n: Node)
    requires n in Flatten(roots) && e.matches(sel, n.el)
    ensures QuerySelectorDeep(e, sel, roots) == QuerySelector(e, sel, roots)
    ensures QuerySelectorDeep(e, sel, roots).Some?
  {
  }

  // ----- ordered selector lists -----

  /** Whether the selector at each index yields a node `queryAny` accepts. */
  function AnyFlags(e: Engine, sels: seq<string>, roots: seq<Node>, allowHidden: bool): (flags: seq<bool>)
    ensures |flags| == |sels|
    ensures forall i | 0 <= i < |sels| :: flags[i] == AcceptsAny(e, sels[i], roots, allowHidden)
  {
    seq(|sels|, i requires 0 <= i < |sels| => AcceptsAny(e, sels[i], roots, allowHidden))
  }

  /** The selector is valid and its deep match is visible or hidden nodes are allowed. */
  predicate AcceptsAny(e: Engine, sel: string, roots: seq<Node>, allowHidden: bool) {
    e.valid(sel) && QuerySelectorDeep(e, sel, roots).Some?
    && (allowHidden || QuerySelectorDeep(e, sel, roots).value.el.visible)
  }

  /** `queryAny(selectors, { allowHidden })`: the deep match of the first selector, in
      declared order, whose match is acceptable; invalid selectors are skipped. */
  function QueryAny(e: Engine, sels: seq<string>, roots: seq<Node>, allowHidden: bool): (r: Option<Node>)
    ensures r.Some? ==> exists i | 0 <= i < |sels| :: (AcceptsAny(e, sels[i], roots, allowHidden)
      && r == QuerySelectorDeep(e, sels[i], roots)
      && forall j | 0 <= j < i :: !AcceptsAny(e, sels[j], roots, allowHidden))
    ensures r.None? <==> forall i | 0 <= i < |sels| :: !AcceptsAny(e, sels[i], roots, allowHidden)
    ensures r.Some? && !allowHidden ==> r.value.el.visible
  {
    match FirstTrue(AnyFlags(e, sels, roots, allowHidden), 0)
    case None => None
    case Some(i) => QuerySelectorDeep(e, sels[i], roots)
  }

  /** Allowing hidden nodes only widens `queryAny`: whatever it finds among visible nodes,
      it still finds something, at the same selector or an earlier one. */
  lemma AllowHiddenWidens(e: Engine, sels: seq<string>, roots: seq<Node>)
    ensures QueryAny(e, sels, roots, false).Some? ==> QueryAny(e, sels, roots, true).Some?
    ensures (forall i | 0 <= i < |sels| :: QuerySelectorDeep(e, sels[i], roots).Some? ==> QuerySelectorDeep(e, sels[i], roots).value.el.visible)
      ==> QueryAny(e, sels, roots, true) == QueryAny(e, sels, roots, false)
  {
    var t, f := AnyFlags(e, sels, roots, true), AnyFlags(e, sels, roots, false);
    if forall i | 0 <= i < |sels| :: QuerySelectorDeep(e, sels[i], roots).Some? ==> QuerySelectorDeep(e, sels[i], roots).value.el.visible {
      assert t == f;
    }
  }

  /** Whether the selector at each index yields a visible first match for `queryWithin`. */
  function WithinFlags(e: Engine, sels: seq<string>, roots: seq<Node>): (flags: seq<bool>)
    ensures |flags| == |sels|
    ensures forall i | 0 <= i < |sels| :: flags[i] == AcceptsWithin(e, sels[i], roots)
  {
    seq(|sels|, i requires 0 <= i < |sels| => AcceptsWithin(e, sels[i], roots))
  }

  /** The selector is valid and its first match is visible. */
  predicate AcceptsWithin(e: Engine, sel: string, roots: seq<Node>) {
    e.valid(sel) && QuerySelector(e, sel, roots).Some? && QuerySelector(e, sel, roots).value.el.visible
  }

  /** `queryWithin(root, selectors)`: only the first match of each selector is looked at,
      in declared order, and it must be visible; invalid selectors are skipped. */
  function QueryWithin(e: Engine, sels: seq<string>, roots: seq<Node>): (r: Option<Node>)
    ensures r.Some? ==> exists i | 0 <= i < |sels| :: (AcceptsWithin(e, sels[i], roots)
      && r == QuerySelector(e, sels[i], roots)
      && forall j | 0 <= j < i :: !AcceptsWithin(e, sels[j], roots))
    ensures r.None? <==> forall i | 0 <= i < |sels| :: !AcceptsWithin(e, sels[i], roots)
    ensures r.Some? ==> r.value.el.visible
  {
    match FirstTrue(WithinFlags(e, sels, roots), 0)
    case None => None
    case Some(i) => QuerySelector(e, sels[i], roots)
  }

  /** A hidden first match hides later visible matches of the same selector: `queryWithin`
      skips to the next selector rather than look further. */
  lemma HiddenFirstMatchSkips(e: Engine, sel: string, roots: seq<Node>, n: Node)
    requires e.valid(sel) && n in Flatten(roots) && e.matches(sel, n.el) && n.el.visible
    requires QuerySelector(e, sel, roots).Some? && !QuerySelector(e, sel, roots).value.el.visible
    ensures QueryWithin(e, [sel], roots).None?
  {
  }

  /** The visible matches of one selector, in document order. */
  function VisibleMatches(e: Engine, sel: string, ns: seq<Node>): (r: seq<Node>)
    ensures forall k | 0 <= k < |r| :: r[k] in ns && e.matches(sel, r[k].el) && r[k].el.visible
    ensures |r| == 0 <==> forall k | 0 <= k < |ns| :: !(e.matches(sel, ns[k].el) && ns[k].el.visible)
  {
    if |ns| == 0 then []
    else
      var rest := VisibleMatches(e, sel, ns[1..]);
      assert forall k | 1 <= k < |ns| :: ns[k] == ns[1..][k - 1];
      if e.matches(sel, ns[0].el) && ns[0].el.visible then [ns[0]] + rest else rest
  }

  /** The selector is valid and has visible matches. */
  predicate NonEmpty(e: Engine, sel: string, roots: seq<Node>) {
    e.valid(sel) && |VisibleMatches(e, sel, Flatten(roots))| > 0
  }

  /** Which selectors have visible matches. */
  function NonEmptyFlags(e: Engine, sels: seq<string>, roots: seq<Node>): (flags: seq<bool>)
    ensures |flags| == |sels|
    ensures forall i | 0 <= i < |sels| :: flags[i] == NonEmpty(e, sels[i], roots)
  {
    seq(|sels|, i requires 0 <= i < |sels| => NonEmpty(e, sels[i], roots))
  }

  /** `firstNonEmptyQueryWithin(root, selectors)` (and `firstNonEmptyQuery` with the
      document as root): all visible matches of the first valid selector that has any. */
  function FirstNonEmptyQuery(e: Engine, sels: seq<string>, roots: seq<Node>): (r: seq<Node>)
    ensures forall k | 0 <= k < |r| :: r[k] in Flatten(roots) && r[k].el.visible
    ensures |r| > 0 ==> exists i | 0 <= i < |sels| :: (NonEmpty(e, sels[i], roots)
      && r == VisibleMatches(e, sels[i], Flatten(roots))
      && forall j | 0 <= j < i :: !NonEmpty(e, sels[j], roots))
    ensures |r| == 0 <==> forall i | 0 <= i < |sels| :: !NonEmpty(e, sels[i], roots)
  {
    match FirstTrue(NonEmptyFlags(e, sels, roots), 0)
    case None => []
    case Some(i) => VisibleMatches(e, sels[i], Flatten(roots))
  }

  /** Whenever `queryWithin` finds a node, `firstNonEmptyQueryWithin` over the same
      selectors finds a non-empty list, from the same selector or an earlier one. */
  lemma WithinImpliesNonEmpty(e: Engine, sels: seq<string>, roots: seq<Node>)
    ensures QueryWithin(e, sels, roots).Some? ==> |FirstNonEmptyQuery(e, sels, roots)| > 0
  {
    if QueryWithin(e, sels, roots).Some? {
      var i :| 0 <= i < |sels| && AcceptsWithin(e, sels[i], roots);
      var n := QuerySelector(e, sels[i], roots).value;
      var k :| 0 <= k < |Flatten(roots)| && Flatten(roots)[k] == n;
      assert |VisibleMatches(e, sels[i], Flatten(roots))| > 0;
    }
  }

  // ----- clickable ancestors -----

  /** The selector `button,a,[role='button']`. */
  const CLICKABLE := "button,a,[role='button']"

  /** Whether each node of the chain is clickable. */
  function ClickableFlags(e: Engine, chain: seq<Element>): (flags: seq<bool>)
    ensures |flags| == |chain|
    ensures forall i | 0 <= i < |chain| :: flags[i] == e.matches(CLICKABLE, chain[i])
  {
    seq(|chain|, i requires 0 <= i < |chain| => e.matches(CLICKABLE, chain[i]))
  }

  /** `resolveClickableTarget`. `chain` is the node followed by its ancestors, nearest
      first, and the result is an index into it; an empty chain is a null node. The node
      itself when clickable, else its nearest clickable ancestor (`closest`), else the
      node. */
  function ResolveClickableTarget(e: Engine, chain: seq<Element>): (r: Option<nat>)
    ensures r.None? <==> |chain| == 0
    ensures r.Some? ==> r.value < |chain|
    ensures r.Some? && r.value > 0 ==> (e.matches(CLICKABLE, chain[r.value])
      && forall j | 0 <= j < r.value :: !e.matches(CLICKABLE, chain[j]))
    ensures r == Some(0) ==> e.matches(CLICKABLE, chain[0]) || forall j | 0 <= j < |chain| :: !e.matches(CLICKABLE, chain[j])
  {
    if |chain| == 0 then None
    else if e.matches(CLICKABLE, chain[0]) then Some(0)
    else match FirstTrue(ClickableFlags(e, chain), 0)
      case Some(k) => Some(k)
      case None => Some(0)
  }

  /** Resolving the resolved target again changes nothing. */
  lemma ResolveIdempotent(e: Engine, chain: seq<Element>)
    requires |chain| > 0
    ensures ResolveClickableTarget(e, chain[ResolveClickableTarget(e, chain).value..]) == Some(0)
  {
  }
}
