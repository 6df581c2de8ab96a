/** The style-package loader on one document: every call draws a token when it
    starts, and only the latest call may touch the page when it finishes. The
    counter is shared with other documents. */
module ThemeLoaders {
  import opened Wrappers
  import opened SemverRanges

  /** An element of <head>; `marked` is the loader's own link attribute. */
  datatype Node = Node(id: nat, marked: bool, href: string)

  datatype Outcome = Loaded(link: Node) | SkippedStrict

  /** What the loader knows and changes of a document: its head, the tracked
      outcome (None before any call and after an unload) and the latest token. */
  datatype Page = Page(head: seq<Node>, nextId: nat, tracked: Option<Outcome>, latest: Option<nat>)

  // ------------------------------------------------------------------ the head as a list

  function Excluding(head: seq<Node>, gone: set<Node>): (rest: seq<Node>) {
    if head == [] then []
    else
      var front, last := head[..|head| - 1], head[|head| - 1];
      Excluding(front, gone) + if last in gone then [] else [last]
  }

  function Select(head: seq<Node>, marked: bool): (nodes: seq<Node>) {
    if head == [] then []
    else
      var front, last := head[..|head| - 1], head[|head| - 1];
      Select(front, marked) + if last.marked == marked then [last] else []
  }

  function Marked(head: seq<Node>): (nodes: seq<Node>) { Select(head, true) }

  function Unmarked(head: seq<Node>): (nodes: seq<Node>) { Select(head, false) }

  lemma SelectAppend(head: seq<Node>, node: Node, marked: bool)
    ensures Select(head + [node], marked) == Select(head, marked) + if node.marked == marked then [node] else []
  {
    assert (head + [node])[..|head|] == head;
  }

  lemma {:induction false} SelectElements(head: seq<Node>, marked: bool)
    ensures forall n :: n in Select(head, marked) <==> n in head && n.marked == marked
    ensures |Select(head, true)| + |Select(head, false)| == |head|
  {
    if head != [] {
      var front, last := head[..|head| - 1], head[|head| - 1];
      SelectElements(front, marked);
      assert head == front + [last];
    }
  }

  lemma {:induction false} ExcludingElements(head: seq<Node>, gone: set<Node>)
    ensures forall n :: n in Excluding(head, gone) <==> n in head && n !in gone
  {
    if head != [] {
      var front, last := head[..|head| - 1], head[|head| - 1];
      ExcludingElements(front, gone);
      assert head == front + [last];
    }
  }

  lemma {:induction false} ExcludingTwice(head: seq<Node>, a: set<Node>, b: set<Node>)
    ensures Excluding(Excluding(head, a), b) == Excluding(head, a + b)
  {
    if head != [] {
      var front, last := head[..|head| - 1], head[|head| - 1];
      ExcludingTwice(front, a, b);
      if last !in a {
        assert (Excluding(front, a) + [last])[..|Excluding(front, a)|] == Excluding(front, a);
      } else {
        assert Excluding(head, a) == Excluding(front, a);
      }
    }
  }

  lemma {:induction false} ExcludingNothing(head: seq<Node>)
    ensures Excluding(head, {}) == head
  {
    if head != [] {
      ExcludingNothing(head[..|head| - 1]);
    }
  }

  /** Removing marked nodes leaves the unmarked ones in place. */
  lemma {:induction false} ExcludingKeepsUnmarked(head: seq<Node>, gone: set<Node>)
    requires forall n | n in gone :: n.marked
    ensures Unmarked(Excluding(head, gone)) == Unmarked(head)
    ensures Marked(Excluding(head, gone)) == Excluding(Marked(head), gone)
  {
    if head != [] {
      var front, last := head[..|head| - 1], head[|head| - 1];
      ExcludingKeepsUnmarked(front, gone);
      if last !in gone {
        SelectAppend(Excluding(front, gone), last, true);
        SelectAppend(Excluding(front, gone), last, false);
      } else {
        assert Excluding(head, gone) == Excluding(front, gone);
      }
      if last.marked {
        ExcludingAppend(Marked(front), last, gone);
      } else {
        assert Marked(head) == Marked(front);
      }
    }
  }

  lemma ExcludingAppend(head: seq<Node>, node: Node, gone: set<Node>)
    ensures Excluding(head + [node], gone) == Excluding(head, gone) + if node in gone then [] else [node]
  {
    assert (head + [node])[..|head|] == head;
  }

  // ------------------------------------------------------------------ the document changes

  function NodeSet(nodes: seq<Node>): (s: set<Node>) { set n | n in nodes }

  function NewLink(page: Page, href: string): (link: Node) { Node(page.nextId, true, href) }

  /** One mutation of the head. */
  datatype DomOp = Append(node: Node) | Remove(node: Node)

  function ApplyOp(head: seq<Node>, op: DomOp): (head': seq<Node>) {
    match op
    case Append(node) => head + [node]
    case Remove(node) => Excluding(head, {node})
  }

  function ApplyOps(head: seq<Node>, ops: seq<DomOp>): (head': seq<Node>) {
    if ops == [] then head else ApplyOp(ApplyOps(head, ops[..|ops| - 1]), ops[|ops| - 1])
  }

  function RemoveAll(nodes: seq<Node>): (ops: seq<DomOp>) {
    if nodes == [] then [] else RemoveAll(nodes[..|nodes| - 1]) + [Remove(nodes[|nodes| - 1])]
  }

  /** swapStyleLink, mutation by mutation: append, then remove the tracked link, or
      every other marked one when none is tracked. */
  function SwapOps(page: Page, link: Node): (ops: seq<DomOp>) {
    [Append(link)]
    + RemoveAll(if page.tracked.Some? && page.tracked.value.Loaded? then [page.tracked.value.link]
                else Excluding(Marked(page.head + [link]), {link}))
  }

  function UnloadOps(page: Page): (ops: seq<DomOp>) { RemoveAll(Marked(page.head)) }

  function AfterLoad(page: Page, href: string): (page': Page) {
    var link := NewLink(page, href);
    page.(head := ApplyOps(page.head, SwapOps(page, link)), nextId := page.nextId + 1, tracked := Some(Loaded(link)))
  }

  function AfterUnload(page: Page): (page': Page) {
    page.(head := ApplyOps(page.head, UnloadOps(page)), tracked := None)
  }

  function AfterSkip(page: Page): (page': Page) { AfterUnload(page).(tracked := Some(SkippedStrict)) }

  function StaleLinks(page: Page, link: Node): (gone: set<Node>) {
    if page.tracked.Some? && page.tracked.value.Loaded? then {page.tracked.value.link}
    else NodeSet(Marked(page.head)) - {link}
  }

  lemma {:induction false} ApplyOpsConcat(head: seq<Node>, a: seq<DomOp>, b: seq<DomOp>)
    ensures ApplyOps(head, a + b) == ApplyOps(ApplyOps(head, a), b)
  {
    if b == [] {
      assert a + b == a;
    } else {
      ApplyOpsConcat(head, a, b[..|b| - 1]);
      assert (a + b)[..|a + b| - 1] == a + b[..|b| - 1];
    }
  }

  lemma {:induction false} RemoveAllAt(nodes: seq<Node>, k: nat)
    requires k < |nodes|
    ensures |RemoveAll(nodes)| == |nodes| && RemoveAll(nodes)[k] == Remove(nodes[k])
  {
    if k < |nodes| - 1 {
      RemoveAllAt(nodes[..|nodes| - 1], k);
    } else if k > 0 {
      RemoveAllAt(nodes[..|nodes| - 1], 0);
    }
  }

  lemma {:induction false} RemoveAllRemoves(head: seq<Node>, nodes: seq<Node>)
    ensures ApplyOps(head, RemoveAll(nodes)) == Excluding(head, NodeSet(nodes))
  {
    if nodes == [] {
      ExcludingNothing(head);
      assert NodeSet(nodes) == {};
    } else {
      var front, last := nodes[..|nodes| - 1], nodes[|nodes| - 1];
      RemoveAllRemoves(head, front);
      ExcludingTwice(head, NodeSet(front), {last});
      assert nodes == front + [last];
      assert NodeSet(nodes) == NodeSet(front) + {last};
      assert RemoveAll(nodes)[..|RemoveAll(front)|] == RemoveAll(front);
    }
  }

  /** What the mutations come to. */
  lemma SwapOpsResult(page: Page, link: Node)
    requires link.marked
    ensures ApplyOps(page.head, SwapOps(page, link)) == Excluding(page.head + [link], StaleLinks(page, link))
  {
    hide Excluding, Select;
    var nodes := if page.tracked.Some? && page.tracked.value.Loaded? then [page.tracked.value.link]
                 else Excluding(Marked(page.head + [link]), {link});
    ApplyOpsConcat(page.head, [Append(link)], RemoveAll(nodes));
    assert ApplyOps(page.head, [Append(link)]) == page.head + [link];
    RemoveAllRemoves(page.head + [link], nodes);
    SelectAppend(page.head, link, true);
    ExcludingElements(Marked(page.head + [link]), {link});
    assert NodeSet(nodes) == StaleLinks(page, link);
  }

  lemma UnloadOpsResult(page: Page)
    ensures ApplyOps(page.head, UnloadOps(page)) == Excluding(page.head, NodeSet(Marked(page.head)))
  {
    RemoveAllRemoves(page.head, Marked(page.head));
  }

  /** The marked links in head are exactly the tracked result's link, or none. */
  predicate Clean(page: Page) {
    Marked(page.head) == if page.tracked.Some? && page.tracked.value.Loaded? then [page.tracked.value.link] else []
  }

  /** Elements are distinct objects: a new one is not in head yet. */
  predicate Fresh(page: Page) {
    && (forall n | n in page.head :: n.id < page.nextId)
    && (page.tracked.Some? && page.tracked.value.Loaded? ==>
          page.tracked.value.link.marked && page.tracked.value.link.id < page.nextId)
  }

  /** What a load starts from: either nothing has acted and nothing is tracked, or
      the page is clean. */
  predicate Consistent(page: Page) {
    Fresh(page) && (Clean(page) || page.tracked.None?)
  }

  lemma LoadCleans(page: Page, href: string)
    requires Consistent(page)
    ensures Clean(AfterLoad(page, href)) && Fresh(AfterLoad(page, href))
    ensures Unmarked(AfterLoad(page, href).head) == Unmarked(page.head)
  {
    hide Marked, Unmarked, Excluding, NodeSet, StaleLinks, SwapOps, ApplyOps;
    var link := NewLink(page, href);
    var gone := StaleLinks(page, link);
    SwapOpsResult(page, link);
    StaleLinksAreTheOthers(page, link);
    ExcludingKeepsUnmarked(page.head + [link], gone);
    SelectAppend(page.head, link, true);
    SelectAppend(page.head, link, false);
    MarkedIsSelect(page.head, link);
    ExcludingElements(page.head + [link], gone);
    ExcludingAppend(Marked(page.head), link, gone);
    AllExcluded(Marked(page.head), gone);
  }

  lemma MarkedIsSelect(head: seq<Node>, link: Node)
    ensures Marked(head) == Select(head, true) && Marked(head + [link]) == Select(head + [link], true)
    ensures Unmarked(head) == Select(head, false) && Unmarked(head + [link]) == Select(head + [link], false)
  {
  }

  lemma StaleLinksAreTheOthers(page: Page, link: Node)
    requires Consistent(page) && link.marked && link.id == page.nextId
    ensures forall n | n in StaleLinks(page, link) :: n.marked && n != link
    ensures forall n | n in Marked(page.head) :: n in StaleLinks(page, link)
  {
    SelectElements(page.head, true);
  }

  lemma {:induction false} AllExcluded(nodes: seq<Node>, gone: set<Node>)
    requires forall n | n in nodes :: n in gone
    ensures Excluding(nodes, gone) == []
  {
    if nodes != [] {
      AllExcluded(nodes[..|nodes| - 1], gone);
    }
  }

  lemma UnloadCleans(page: Page)
    ensures Marked(AfterUnload(page).head) == [] && Unmarked(AfterUnload(page).head) == Unmarked(page.head)
    ensures Fresh(page) ==> Fresh(AfterUnload(page))
  {
    hide Excluding, UnloadOps, ApplyOps;
    var gone := NodeSet(Marked(page.head));
    UnloadOpsResult(page);
    SelectElements(page.head, true);
    ExcludingKeepsUnmarked(page.head, gone);
    ExcludingElements(page.head, gone);
    AllExcluded(Marked(page.head), gone);
  }

  // ------------------------------------------------------------------ every head a paint could show

  /** After the first mutation of a swap each one removes a marked element that is
      not the new link. */
  lemma SwapOpsShape(page: Page, link: Node, k: nat)
    requires Fresh(page) && link.marked && link.id == page.nextId && 0 < k < |SwapOps(page, link)|
    ensures SwapOps(page, link)[0] == Append(link)
    ensures var op := SwapOps(page, link)[k];
            op.Remove? && op.node.marked && op.node != link
  {
    hide Excluding, Select;
    var nodes := if page.tracked.Some? && page.tracked.value.Loaded? then [page.tracked.value.link]
                 else Excluding(Marked(page.head + [link]), {link});
    RemoveAllLength(nodes);
    RemoveAllAt(nodes, k - 1);
    SelectElements(page.head + [link], true);
    ExcludingElements(Marked(page.head + [link]), {link});
    assert nodes[k - 1] in nodes;
  }

  lemma RemoveAllLength(nodes: seq<Node>)
    ensures |RemoveAll(nodes)| == |nodes|
  {
    if nodes != [] {
      RemoveAllAt(nodes, 0);
    }
  }

  /** The head after the first n mutations of a swap. */
  function Frame(page: Page, href: string, n: nat): (frame: seq<Node>)
    requires n <= |SwapOps(page, NewLink(page, href))|
  {
    ApplyOps(page.head, SwapOps(page, NewLink(page, href))[..n])
  }

  /** At every point of a swap everything that is not the loader's is in place and,
      from the first mutation on, so is the new link; and a swap that starts from a
      tracked link never shows a head without one. */
  lemma {:induction false} NoBareFrame(page: Page, href: string, n: nat)
    requires Fresh(page) && n <= |SwapOps(page, NewLink(page, href))|
    ensures Unmarked(Frame(page, href, n)) == Unmarked(page.head)
    ensures n >= 1 ==> NewLink(page, href) in Marked(Frame(page, href, n))
    ensures Clean(page) && page.tracked.Some? && page.tracked.value.Loaded? ==> Marked(Frame(page, href, n)) != []
  {
    hide Excluding, Select, SwapOps;
    var link := NewLink(page, href);
    var ops := SwapOps(page, link);
    if n > 0 {
      NoBareFrame(page, href, n - 1);
      assert ops[..n][..n - 1] == ops[..n - 1];
      var before := Frame(page, href, n - 1);
      if n == 1 {
        FirstSwapOp(page, link);
        SelectAppend(before, link, true);
        SelectAppend(before, link, false);
      } else {
        SwapOpsShape(page, link, n - 1);
        ExcludingKeepsUnmarked(before, {ops[n - 1].node});
        ExcludingElements(Marked(before), {ops[n - 1].node});
      }
    }
  }

  lemma FirstSwapOp(page: Page, link: Node)
    ensures |SwapOps(page, link)| > 0 && SwapOps(page, link)[0] == Append(link)
  {
  }

  // ------------------------------------------------------------------ the code

  /** What the asynchronous part of a call came to; `range` is None when it does
      not parse, `bundleOk` is whether the URLs resolve where they may. */
  datatype Fetched = FetchFailed | Manifest(range: Option<seq<Clause>>, bundleOk: bool, href: string)

  datatype LoadResult = LoadedResult(link: Node) | SkippedResult | Superseded | Failed

  function Compatible(contract: Version, range: Option<seq<Clause>>): (b: bool) {
    range.Some? && Satisfies(contract, range.value)
  }

  /** What a call does when it finishes, apart from whether it is still the latest. */
  datatype Intent = WillLoad(href: string) | WillSkip | WillFail

  function IntentOf(contract: Version, fetched: Fetched, strict: bool): (i: Intent) {
    if fetched.FetchFailed? then WillFail
    else if strict && !Compatible(contract, fetched.range) then WillSkip
    else if !fetched.bundleOk then WillFail
    else WillLoad(fetched.href)
  }

  /** The policy: a call skips exactly when it is strict and the runtime's contract
      version misses some clause of the range, or the range does not parse; a call
      that is not strict never does. Otherwise it loads the bundle, unless fetching
      or resolving failed. */
  lemma IntentExactlyWhen(contract: Version, fetched: Fetched, strict: bool)
    ensures var i := IntentOf(contract, fetched, strict);
            match fetched
            case FetchFailed => i == WillFail
            case Manifest(range, bundleOk, href) =>
              var missed := range.None? || exists clause :: clause in range.value && !ClauseAdmits(clause, contract);
              && (i == WillSkip <==> strict && missed)
              && (i == WillLoad(href) <==> !(strict && missed) && bundleOk)
              && (i == WillFail <==> !(strict && missed) && !bundleOk)
  {
    if fetched.Manifest? && fetched.range.Some? {
      SatisfiesEachClause(contract, fetched.range.value);
    }
  }

  function Finished(page: Page, token: nat, intent: Intent): (page': Page) {
    if page.latest != Some(token) then page
    else
      match intent
      case WillFail => page
      case WillSkip => AfterSkip(page)
      case WillLoad(href) => AfterLoad(page, href)
  }

  /** The loader on one document. The head is what the mutations so far have made of
      the initial one; keeping them makes every head in between part of the state. */
  class StyleLoader {
    const contract: Version
    const initial: seq<Node>
    var counter: nat
    var edits: seq<DomOp>
    var nextId: nat
    var tracked: Option<Outcome>
    var latest: Option<nat>

    function Head(): (head: seq<Node>)
      reads this
    {
      ApplyOps(initial, edits)
    }

    function Value(): (page: Page)
      reads this
    {
      Page(Head(), nextId, tracked, latest)
    }

    constructor (contract: Version, head: seq<Node>, nextId: nat)
      ensures this.contract == contract && counter == 0 && edits == [] && Value() == Page(head, nextId, None, None)
    {
      this.contract, initial, counter := contract, head, 0;
      edits, this.nextId, tracked, latest := [], nextId, None, None;
    }

    /** The synchronous beginning of loadStylePackage. */
    method Start() returns (token: nat)
      modifies this`counter, this`latest
      ensures token == old(counter) + 1 && counter == token && Value() == old(Value()).(latest := Some(token))
    {
      counter := counter + 1;
      latest := Some(counter);
      token := counter;
    }

    method AppendChild(node: Node)
      modifies this`edits
      ensures edits == old(edits) + [Append(node)] && Head() == old(Head()) + [node]
    {
      ApplyOpsConcat(initial, edits, [Append(node)]);
      edits := edits + [Append(node)];
    }

    /** Removes one element, as Element.remove() does. */
    method RemoveElement(node: Node)
      modifies this`edits
      ensures edits == old(edits) + [Remove(node)]
    {
      edits := edits + [Remove(node)];
    }

    /** Removes the elements one after the other. */
    method RemoveElements(nodes: seq<Node>)
      modifies this`edits
      ensures edits == old(edits) + RemoveAll(nodes)
    {
      for i := 0 to |nodes|
        invariant edits == old(edits) + RemoveAll(nodes[..i])
      {
        RemoveElement(nodes[i]);
        assert nodes[..i + 1][..i] == nodes[..i];
      }
      assert nodes[..|nodes|] == nodes;
    }

    /** The mutations are made in exactly this order, so that every head in between
        is one of the swap's frames. */
    method SwapStyleLink(href: string) returns (link: Node)
      modifies this`edits, this`nextId
      ensures link == NewLink(old(Value()), href)
      ensures edits == old(edits) + SwapOps(old(Value()), link)
      ensures Value().(tracked := Some(Loaded(link))) == AfterLoad(old(Value()), href)
    {
      link := Node(nextId, true, href);
      nextId := nextId + 1;
      AppendChild(link);
      if tracked.Some? && tracked.value.Loaded? {
        RemoveElements([tracked.value.link]);
      } else {
        RemoveElements(Excluding(Marked(Head()), {link}));
      }
      assert edits == old(edits) + SwapOps(old(Value()), link);
      ApplyOpsConcat(initial, old(edits), SwapOps(old(Value()), link));
    }

    method UnloadStylePackage()
      modifies this`edits, this`tracked
      ensures edits == old(edits) + UnloadOps(old(Value()))
      ensures Value() == AfterUnload(old(Value()))
    {
      RemoveElements(Marked(Head()));
      ApplyOpsConcat(initial, old(edits), UnloadOps(old(Value())));
      tracked := None;
    }

    /** The rest of loadStylePackage, once its manifest has arrived. */
    method Finish(token: nat, fetched: Fetched, strict: bool) returns (r: LoadResult)
      modifies this`edits, this`nextId, this`tracked
      ensures Value() == Finished(old(Value()), token, IntentOf(contract, fetched, strict))
      ensures r == match IntentOf(contract, fetched, strict)
                   case WillFail => Failed
                   case WillSkip => if old(latest) == Some(token) then SkippedResult else Superseded
                   case WillLoad(href) =>
                     if old(latest) == Some(token) then LoadedResult(NewLink(old(Value()), href)) else Superseded
    {
      if fetched.FetchFailed? {
        return Failed;
      }
      if !Compatible(contract, fetched.range) && strict {
        if latest != Some(token) {
          return Superseded;
        }
        UnloadStylePackage();
        tracked := Some(SkippedStrict);
        return SkippedResult;
      }
      if !fetched.bundleOk {
        return Failed;
      }
      if latest != Some(token) {
        return Superseded;
      }
      var link := SwapStyleLink(fetched.href);
      tracked := Some(Loaded(link));
      return LoadedResult(link);
    }
  }

  // ------------------------------------------------------------------ interleaved calls

  /** `pending` are the tokens of calls in flight, `acted` those that changed the
      page, in order; `touched` is whether a load, skip or unload has acted. */
  datatype State = State(page: Page, counter: nat, pending: set<nat>, acted: seq<nat>, touched: bool)

  datatype Event =
    | EvStart
    | EvElsewhere
    | EvFinish(token: nat, intent: Intent)
    | EvUnload
    | EvOthers(head: seq<Node>, nextId: nat)

  predicate Acts(s: State, ev: Event) {
    ev.EvFinish? && ev.token in s.pending && s.page.latest == Some(ev.token) && !ev.intent.WillFail?
  }

  /** Other code may rearrange head as long as it leaves the loader's links alone. */
  predicate OthersMayLeave(page: Page, head: seq<Node>, nextId: nat) {
    && Marked(head) == Marked(page.head) && page.nextId <= nextId
    && forall n | n in head :: n.id < nextId
  }

  /** Anyone may add an element of their own. */
  lemma OthersMayAppend(page: Page, href: string)
    requires Fresh(page)
    ensures OthersMayLeave(page, page.head + [Node(page.nextId, false, href)], page.nextId + 1)
  {
    SelectAppend(page.head, Node(page.nextId, false, href), true);
  }

  predicate Enabled(s: State, ev: Event) {
    match ev
    case EvFinish(token, _) => token in s.pending
    case EvOthers(head, nextId) => OthersMayLeave(s.page, head, nextId)
    case _ => true
  }

  function Next(s: State, ev: Event): (s': State) {
    match ev
    case EvStart =>
      s.(counter := s.counter + 1, pending := s.pending + {s.counter + 1}, page := s.page.(latest := Some(s.counter + 1)))
    case EvElsewhere => s.(counter := s.counter + 1)
    case EvFinish(token, intent) =>
      s.(page := Finished(s.page, token, intent), pending := s.pending - {token},
         acted := if Acts(s, ev) then s.acted + [token] else s.acted, touched := s.touched || Acts(s, ev))
    case EvUnload => s.(page := AfterUnload(s.page), touched := true)
    case EvOthers(head, nextId) => s.(page := s.page.(head := head, nextId := nextId))
  }

  function After(s: State, evs: seq<Event>, n: nat): (s': State)
    requires n <= |evs|
  {
    if n == 0 then s else Next(After(s, evs, n - 1), evs[n - 1])
  }

  predicate EnabledAt(s: State, evs: seq<Event>, i: nat)
    requires i < |evs|
  {
    Enabled(After(s, evs, i), evs[i])
  }

  /** Any page nothing has been loaded on; it may hold marked links already. */
  predicate IsTrace(s: State, evs: seq<Event>) {
    && Fresh(s.page) && s.page.tracked.None? && s.page.latest.None?
    && s.pending == {} && s.acted == [] && !s.touched
    && forall i | 0 <= i < |evs| :: EnabledAt(s, evs, i)
  }

  predicate Increasing(tokens: seq<nat>) {
    forall i, j | 0 <= i < j < |tokens| :: tokens[i] < tokens[j]
  }

  predicate Inv(s: State) {
    && Fresh(s.page)
    && (if s.touched then Clean(s.page) else s.page.tracked.None?)
    && (forall t | t in s.pending :: s.page.latest.Some? && t <= s.page.latest.value)
    && (s.page.latest.Some? ==> s.page.latest.value <= s.counter)
    && (s.acted != [] ==> s.page.latest.Some? && s.acted[|s.acted| - 1] <= s.page.latest.value)
    && (s.acted != [] && s.page.latest.value in s.pending ==> s.acted[|s.acted| - 1] < s.page.latest.value)
    && Increasing(s.acted)
  }

  lemma NextKeepsInv(s: State, ev: Event)
    requires Inv(s) && Enabled(s, ev)
    ensures Inv(Next(s, ev))
  {
    hide Marked, AfterLoad, AfterUnload;
    match ev
    case EvFinish(token, intent) =>
      if Acts(s, ev) {
        if intent.WillSkip? {
          SkipCleans(s.page);
        } else {
          LoadCleans(s.page, intent.href);
          LoadKeepsLatest(s.page, intent.href);
        }
      }
    case EvUnload => UnloadOnly(s.page);
    case _ =>
  }

  lemma LoadKeepsLatest(page: Page, href: string)
    ensures AfterLoad(page, href).latest == page.latest
  {
  }

  lemma UnloadOnly(page: Page)
    ensures Clean(AfterUnload(page)) && AfterUnload(page).latest == page.latest
    ensures Fresh(page) ==> Fresh(AfterUnload(page))
  {
    UnloadCleans(page);
  }

  lemma SkipCleans(page: Page)
    ensures Clean(AfterSkip(page)) && AfterSkip(page).latest == page.latest
    ensures Fresh(page) ==> Fresh(AfterSkip(page))
  {
    UnloadCleans(page);
  }

  lemma {:induction false} TraceInv(s: State, evs: seq<Event>, n: nat)
    requires IsTrace(s, evs) && n <= |evs|
    ensures Inv(After(s, evs, n))
  {
    if n > 0 {
      hide Inv, Next, Enabled;
      TraceInv(s, evs, n - 1);
      assert EnabledAt(s, evs, n - 1);
      NextKeepsInv(After(s, evs, n - 1), evs[n - 1]);
    }
  }

  /** However the calls interleave: the ones that change the page carry strictly
      increasing tokens, and from the first load, skip or unload that acts on, the
      marked links in head are exactly the tracked result's link, or none. */
  lemma LatestCallWins(s: State, evs: seq<Event>, n: nat)
    requires IsTrace(s, evs) && n <= |evs|
    ensures Increasing(After(s, evs, n).acted)
    ensures After(s, evs, n).touched ==> Clean(After(s, evs, n).page)
  {
    hide Clean, Increasing, Fresh;
    TraceInv(s, evs, n);
  }

  /** Over any interleaving: while a tracked link is replaced by another one, no
      head the document passes through is without a link of the loader's. */
  lemma NoBareFrameInTrace(s: State, evs: seq<Event>, n: nat, href: string, k: nat)
    requires IsTrace(s, evs) && n <= |evs| && k <= |SwapOps(After(s, evs, n).page, NewLink(After(s, evs, n).page, href))|
    requires var tracked := After(s, evs, n).page.tracked;
             tracked.Some? && tracked.value.Loaded?
    ensures Marked(Frame(After(s, evs, n).page, href, k)) != []
  {
    hide Clean, SwapOps, Frame, Increasing;
    TraceInv(s, evs, n);
    NoBareFrame(After(s, evs, n).page, href, k);
  }

  /** A finishing call that does not act, superseded or failed, leaves the page as
      it was. One that acts is the latest of all calls in flight, acts for the first
      time, and its outcome is the one tracked. */
  lemma SupersededChangesNothing(s: State, ev: Event)
    requires Inv(s) && ev.EvFinish? && Enabled(s, ev)
    ensures !Acts(s, ev) ==> Next(s, ev).page == s.page && Next(s, ev).acted == s.acted
    ensures Acts(s, ev) ==>
              && Next(s, ev).acted == s.acted + [ev.token] && ev.token !in s.acted
              && (forall t | t in s.pending :: t <= ev.token)
              && Next(s, ev).page.tracked == Some(if ev.intent.WillSkip? then SkippedStrict
                                                  else Loaded(NewLink(s.page, ev.intent.href)))
  {
    hide Excluding, Select;
    LastIsHighest(s.acted);
  }

  lemma LastIsHighest(tokens: seq<nat>)
    requires Increasing(tokens)
    ensures forall t | t in tokens :: t <= tokens[|tokens| - 1]
  {
  }

  /** An unload draws no token: a load that was in flight when it happened still
      acts when it finishes, and its link is there after the unload. */
  lemma UnloadCancelsNothing(s: State, href: string)
    requires IsTrace(s, [])
    ensures var evs := [EvStart, EvUnload, EvFinish(s.counter + 1, WillLoad(href))];
            && IsTrace(s, evs)
            && var link := NewLink(s.page, href);
               After(s, evs, 3).page.tracked == Some(Loaded(link)) && Marked(After(s, evs, 3).page.head) == [link]
  {
    hide Excluding, Select;
    var evs := [EvStart, EvUnload, EvFinish(s.counter + 1, WillLoad(href))];
    var s1 := Next(s, evs[0]);
    var s2 := Next(s1, evs[1]);
    assert After(s, evs, 1) == s1;
    assert After(s, evs, 2) == s2;
    assert After(s, evs, 3) == Next(s2, evs[2]);
    UnloadCleans(s1.page);
    LoadCleans(s2.page, href);
    assert forall i | 0 <= i < 3 :: EnabledAt(s, evs, i);
  }

  /** Unmarked elements are never touched by the loader. */
  lemma LoaderKeepsUnmarked(s: State, ev: Event)
    requires Inv(s) && Enabled(s, ev) && !ev.EvOthers?
    ensures Unmarked(Next(s, ev).page.head) == Unmarked(s.page.head)
  {
    hide Marked, Unmarked, AfterLoad, AfterUnload, Increasing;
    UnloadCleans(s.page);
    if ev.EvFinish? && ev.intent.WillLoad? {
      LoadCleans(s.page, ev.intent.href);
    }
  }
}
