/** Pages: what `next_page` returns, and what a whole sequence of pages adds up to. */
module InventoryPages {
  import opened Options
  import opened Inventory
  import opened InventoryTurns

  /**
   * The loop of `next_page`. `cancelAt` is the number of iterations after which the cancellation
   * flag is seen to be set, if it ever is.
   */
  function PageLoop(root: Node, w: Walk, entries: seq<Entry>, limit: nat, cancelAt: Option<nat>)
    : (Walk, Result<seq<Entry>, Error>)
    requires Stable(root) && Inv(root, w)
    decreases Turns(root, w)
  {
    if |entries| >= limit then (w, Ok(entries))
    else if cancelAt == Some(0) then (w, Err(Cancelled))
    else
      TurnKeeps(root, w);
      match Turn(root, w)
      case Emit(entry, next) => PageLoop(root, next, entries + [entry], limit, Later(cancelAt))
      case Move(next) => PageLoop(root, next, entries, limit, Later(cancelAt))
      case Finish(next) => (next, Ok(entries))
      case Fail(error, next) => (next, Err(error))
  }

  function Later(cancelAt: Option<nat>): Option<nat> {
    match cancelAt
    case Some(turns) => if turns == 0 then None else Some(turns - 1)
    case None => None
  }

  function FrontierOf(w: Walk, complete: bool): seq<FrontierEntry> {
    if complete then [FrontierEntry(0, w.scope, Completed, w.scopeIdentity, None, 0)]
    else StackFrontier(w.stack) + PendingFrontier(w)
  }

  function StackFrontier(stack: seq<Frame>): (frontier: seq<FrontierEntry>)
    ensures |frontier| == |stack|
  {
    seq(|stack|, i requires 0 <= i < |stack| =>
      FrontierEntry(i, stack[i].directory, Enumerating, stack[i].identity, stack[i].after, stack[i].count))
  }

  function PendingFrontier(w: Walk): seq<FrontierEntry> {
    match w.pendingDirectory
    case None => []
    case Some(pending) => [FrontierEntry(|w.stack|, pending.path, IsPending, pending.identity, None, 0)]
  }

  predicate Finished(w: Walk) {
    w.complete && w.pendingEntry.None? && w.pendingDirectory.None? && w.stack == []
  }

  function PageOf(w: Walk, entries: seq<Entry>): Page {
    var cursor := if entries == [] then None else Some(entries[|entries| - 1].path);
    Page(w.pageIndex, entries, cursor, Finished(w), FrontierOf(w, Finished(w)))
  }

  function NextPage(root: Node, w: Walk, limit: nat, cancelAt: Option<nat>): (Walk, Result<Page, Error>)
    requires Stable(root) && Inv(root, w)
  {
    if limit == 0 || limit > MAX_PAGE_ENTRIES then (w, Err(PageLimitInvalid))
    else if w.pageIndex > 1 && w.complete && w.pendingEntry.None? && w.stack == [] then (w, Err(SourceComplete))
    else
      var (next, outcome) := PageLoop(root, w, [], limit, cancelAt);
      match outcome
      case Err(error) => (next, Err(error))
      case Ok(entries) =>
        if FrontierOf(next, Finished(next)) == [] then (next, Err(FrontierInvalid))
        else if next.pageIndex >= U64_MAX then (next, Err(PageOverflow))
        else (next.(pageIndex := next.pageIndex + 1), Ok(PageOf(next, entries)))
  }

  // ---------------------------------------------------------------- one page

  /** Entries move from the front of what remains to the end of the page. */
  ghost predicate Takes(entries: seq<Entry>, before: seq<Entry>, limit: nat, taken: seq<Entry>, left: seq<Entry>) {
    taken + left == entries + before && |taken| <= limit && (|taken| < limit ==> left == [])
  }

  lemma TakesOneMore(entries: seq<Entry>, entry: Entry, before: seq<Entry>, limit: nat, taken: seq<Entry>, left: seq<Entry>)
    requires Takes(entries + [entry], before, limit, taken, left)
    ensures Takes(entries, [entry] + before, limit, taken, left)
  {
    assert entries + ([entry] + before) == (entries + [entry]) + before;
  }

  lemma {:induction false} PageLoopTakes(root: Node, w: Walk, entries: seq<Entry>, limit: nat, cancelAt: Option<nat>)
    requires Stable(root) && Inv(root, w) && |entries| <= limit
    requires PageLoop(root, w, entries, limit, cancelAt).1.Ok?
    ensures var (next, outcome) := PageLoop(root, w, entries, limit, cancelAt);
            && Inv(root, next) && next.scope == w.scope && next.pageIndex == w.pageIndex
            && Takes(entries, Remaining(root, w), limit, outcome.value, Remaining(root, next))
            && (|outcome.value| < limit ==> Finished(next))
    decreases Turns(root, w)
  {
    if |entries| < limit {
      var (last, outcome) := PageLoop(root, w, entries, limit, cancelAt);
      TurnKeeps(root, w);
      match Turn(root, w)
      case Emit(entry, next) =>
        PageLoopTakes(root, next, entries + [entry], limit, Later(cancelAt));
        TakesOneMore(entries, entry, Remaining(root, next), limit, outcome.value, Remaining(root, last));
      case Move(next) =>
        PageLoopTakes(root, next, entries, limit, Later(cancelAt));
      case Finish(next) =>
    }
  }

  /** How a page that fills up ends. */
  ghost predicate Boundary(w: Walk, entries: seq<Entry>, limit: nat, next: Walk, taken: seq<Entry>) {
    && |taken| == limit > 0
    && !next.complete && EndsAt(next, taken[limit - 1].path)
    && Enumerated(next.stack) + |entries| <= Enumerated(w.stack) + limit
    && (next.stack == [] && next.pendingDirectory.None? ==> Lone(w) && limit == |entries| + 1)
  }

  lemma {:induction false} PageLoopBoundary(root: Node, w: Walk, entries: seq<Entry>, limit: nat, cancelAt: Option<nat>)
    requires Stable(root) && Inv(root, w) && |entries| < limit
    requires PageLoop(root, w, entries, limit, cancelAt).1.Ok?
    requires |PageLoop(root, w, entries, limit, cancelAt).1.value| == limit
    ensures Boundary(w, entries, limit, PageLoop(root, w, entries, limit, cancelAt).0,
                     PageLoop(root, w, entries, limit, cancelAt).1.value)
    decreases Turns(root, w)
  {
    TurnKeeps(root, w);
    match Turn(root, w)
    case Emit(entry, next) =>
      if |entries| + 1 < limit {
        PageLoopBoundary(root, next, entries + [entry], limit, Later(cancelAt));
      }
    case Move(next) =>
      PageLoopBoundary(root, next, entries, limit, Later(cancelAt));
    case Finish(next) =>
  }

  lemma {:induction false} PageLoopErrors(root: Node, w: Walk, entries: seq<Entry>, limit: nat, cancelAt: Option<nat>)
    requires Stable(root) && Inv(root, w)
    requires PageLoop(root, w, entries, limit, cancelAt).1.Err?
    ensures PageLoop(root, w, entries, limit, cancelAt).1.error in {Cancelled, DepthExceeded}
    ensures PageLoop(root, w, entries, limit, cancelAt).1.error == Cancelled ==> cancelAt.Some?
    decreases Turns(root, w)
  {
    if |entries| < limit && cancelAt != Some(0) {
      TurnKeeps(root, w);
      match Turn(root, w)
      case Emit(entry, next) => PageLoopErrors(root, next, entries + [entry], limit, Later(cancelAt));
      case Move(next) => PageLoopErrors(root, next, entries, limit, Later(cancelAt));
      case Fail(error, next) =>
    }
  }

  /** What the first turns of a loop emit. */
  function EmittedIn(root: Node, w: Walk, turns: nat): seq<Entry>
    decreases turns
  {
    if turns == 0 then []
    else
      match Turn(root, w)
      case Emit(entry, next) => [entry] + EmittedIn(root, next, turns - 1)
      case Move(next) => EmittedIn(root, next, turns - 1)
      case _ => []
  }

  /** A cancelled page has consumed exactly what the turns before the cancellation emitted. */
  lemma {:induction false} CancelledPageLoses(root: Node, w: Walk, entries: seq<Entry>, limit: nat, cancelAt: Option<nat>)
    requires Stable(root) && Inv(root, w)
    requires PageLoop(root, w, entries, limit, cancelAt).1 == Err(Cancelled)
    ensures cancelAt.Some?
    ensures var next := PageLoop(root, w, entries, limit, cancelAt).0;
            var lost := EmittedIn(root, w, cancelAt.value);
            && Inv(root, next) && |entries| + |lost| < limit
            && Remaining(root, w) == lost + Remaining(root, next)
    decreases Turns(root, w)
  {
    hide Stable, Inv, Remaining, Turns, Turn;
    if cancelAt != Some(0) {
      var last := PageLoop(root, w, entries, limit, cancelAt).0;
      TurnKeeps(root, w);
      match Turn(root, w)
      case Emit(entry, next) =>
        CancelledPageLoses(root, next, entries + [entry], limit, Later(cancelAt));
      case Move(next) =>
        CancelledPageLoses(root, next, entries, limit, Later(cancelAt));
    }
  }

  /** Frames on top of the stack that have nothing left to read. */
  function Exhausted(stack: seq<Frame>): nat {
    if stack == [] || stack[|stack| - 1].next < |stack[|stack| - 1].entries| then 0
    else 1 + Exhausted(stack[..|stack| - 1])
  }

  /** The turns before the next entry: opening the pending directory and closing exhausted ones. */
  function Lead(root: Node, w: Walk): nat {
    if w.pendingEntry.Some? then 0
    else if w.pendingDirectory.None? then Exhausted(w.stack)
    else if ChildrenOf(root, w.pendingDirectory.value.path) == [] then 2 + Exhausted(w.stack)
    else 1
  }

  lemma LeadStep(root: Node, w: Walk)
    requires Inv(root, w)
    ensures match Turn(root, w)
            case Move(next) => Lead(root, w) == 1 + Lead(root, next)
            case Fail(_, _) => true
            case _ => Lead(root, w) == 0
  {
    if w.pendingEntry.None? && w.pendingDirectory.Some? && Turn(root, w).Move? {
      LeadOpens(root, w);
    }
    hide Inv, OpenDirectory, ChildrenOf, Identify;
  }

  lemma LeadOpens(root: Node, w: Walk)
    requires Inv(root, w) && w.pendingEntry.None? && w.pendingDirectory.Some? && Turn(root, w).Move?
    ensures Lead(root, w) == 1 + Lead(root, Turn(root, w).walk)
  {
    OpenTurn(root, w);
    hide Inv, Turn, Lookup;
    var node := Lookup(root, w.pendingDirectory.value.path).value;
    var frame := FreshFrame(w.pendingDirectory.value.path, node);
    assert (w.stack + [frame])[..|w.stack|] == w.stack;
  }

  /** A cancelled page loses nothing exactly if the flag was seen before the first entry was read. */
  lemma {:induction false} NothingIsLostIff(root: Node, w: Walk, entries: seq<Entry>, limit: nat, turns: nat)
    requires Stable(root) && Inv(root, w)
    requires PageLoop(root, w, entries, limit, Some(turns)).1 == Err(Cancelled)
    ensures EmittedIn(root, w, turns) == [] <==> turns <= Lead(root, w)
    decreases turns
  {
    hide Stable, Inv, Turn, Turns, Steps, Remaining;
    if turns > 0 {
      TurnKeeps(root, w);
      LeadStep(root, w);
      hide Lead;
      assert Later(Some(turns)) == Some(turns - 1);
      if Turn(root, w).Move? {
        var next := Turn(root, w).walk;
        assert PageLoop(root, next, entries, limit, Some(turns - 1)).1 == Err(Cancelled);
        NothingIsLostIff(root, next, entries, limit, turns - 1);
      }
    }
  }

  /** Every walk that has an entry left can lose it: cancelling right after it was read does. */
  lemma {:induction false} CancelledEntryIsLost(root: Node, w: Walk, limit: nat)
    requires Stable(root) && Inv(root, w) && Fits(root, w) && Remaining(root, w) != [] && limit >= 2
    ensures var (next, outcome) := PageLoop(root, w, [], limit, Some(Lead(root, w) + 1));
            && outcome == Err(Cancelled) && Inv(root, next)
            && Remaining(root, w) == [Remaining(root, w)[0]] + Remaining(root, next)
    decreases Turns(root, w)
  {
    hide Stable, Inv, Remaining, Turn, Turns, Fits, Lead;
    TurnKeeps(root, w);
    TurnFits(root, w);
    LeadStep(root, w);
    match Turn(root, w)
    case Emit(entry, next) =>
      assert [] + [entry] == [entry];
      assert PageLoop(root, next, [entry], limit, Some(0)) == (next, Err(Cancelled));
    case Move(next) => CancelledEntryIsLost(root, next, limit);
    case Finish(next) =>
  }

  lemma {:induction false} PageLoopFits(root: Node, w: Walk, entries: seq<Entry>, limit: nat, cancelAt: Option<nat>)
    requires Stable(root) && Inv(root, w)
    ensures PageLoop(root, w, entries, limit, cancelAt).1 == Err(DepthExceeded) ==> !Fits(root, w)
    ensures PageLoop(root, w, entries, limit, cancelAt).1.Ok? ==>
              (Fits(root, w) <==> Fits(root, PageLoop(root, w, entries, limit, cancelAt).0))
    decreases Turns(root, w)
  {
    if |entries| < limit && cancelAt != Some(0) {
      TurnKeeps(root, w);
      TurnFits(root, w);
      match Turn(root, w)
      case Emit(entry, next) => PageLoopFits(root, next, entries + [entry], limit, Later(cancelAt));
      case Move(next) => PageLoopFits(root, next, entries, limit, Later(cancelAt));
      case Finish(next) =>
      case Fail(error, next) =>
    }
  }

  /** A walk that a further page may be asked of. */
  ghost predicate Ready(root: Node, w: Walk) {
    Stable(root) && Inv(root, w) && 1 <= w.pageIndex && (w.pageIndex > 1 ==> !w.complete)
  }

  function Least(a: nat, b: nat): nat {
    if a < b then a else b
  }

  /** The page holds the next entries of the listing and the walk goes on behind them. */
  ghost predicate Delivers(root: Node, w: Walk, limit: nat, next: Walk, page: Page) {
    && Inv(root, next) && Fits(root, next) && next.pageIndex == w.pageIndex + 1 && next.scope == w.scope
    && PageTakes(Remaining(root, w), limit, page, Remaining(root, next))
    && page.index == w.pageIndex
    && (next.complete <==> page.complete)
    && next.pendingEntry.None?
  }

  ghost predicate PageTakes(all: seq<Entry>, limit: nat, page: Page, left: seq<Entry>) {
    && page.entries == all[..Least(limit, |all|)]
    && left == all[Least(limit, |all|)..]
    && (page.complete <==> |all| < limit)
  }

  lemma LoopDelivers(root: Node, w: Walk, limit: nat)
    requires Ready(root, w) && Fits(root, w) && 1 <= limit
    ensures var (next, outcome) := PageLoop(root, w, [], limit, None);
            var taken := Least(limit, |Remaining(root, w)|);
            && outcome.Ok?
            && outcome.value == Remaining(root, w)[..taken]
            && Remaining(root, next) == Remaining(root, w)[taken..]
            && Inv(root, next) && Fits(root, next) && next.scope == w.scope && next.pageIndex == w.pageIndex
            && (Finished(next) <==> |Remaining(root, w)| < limit)
            && next.pendingEntry.None? && (next.complete <==> Finished(next))
            && (!Finished(next) && next.stack == [] && next.pendingDirectory.None? ==> Lone(w) && limit == 1)
  {
    if PageLoop(root, w, [], limit, None).1.Err? {
      PageLoopErrors(root, w, [], limit, None);
      PageLoopFits(root, w, [], limit, None);
    }
    PageLoopFits(root, w, [], limit, None);
    PageLoopTakes(root, w, [], limit, None);
    var (next, outcome) := PageLoop(root, w, [], limit, None);
    Prefix(Remaining(root, w), outcome.value, Remaining(root, next), limit);
    if |outcome.value| == limit {
      PageLoopBoundary(root, w, [], limit, None);
    }
  }

  lemma Prefix(all: seq<Entry>, taken: seq<Entry>, left: seq<Entry>, limit: nat)
    requires Takes([], all, limit, taken, left)
    ensures |taken| == Least(limit, |all|) && taken == all[..|taken|] && left == all[|taken|..]
    ensures |taken| < limit <==> |all| < limit
  {
    assert taken + left == all;
  }

  /**
   * One page over a library of admitted depth: it returns exactly the next entries of the listing,
   * it is complete exactly when they run out before the page is full, and it fails exactly when
   * the scope is a single entry that is not a directory and the page has room for just that entry.
   */
  lemma NextPageDelivers(root: Node, w: Walk, limit: nat)
    requires Ready(root, w) && Fits(root, w) && w.pageIndex < U64_MAX && 1 <= limit <= MAX_PAGE_ENTRIES
    ensures Lone(w) && limit == 1 <==> NextPage(root, w, limit, None).1 == Err(FrontierInvalid)
    ensures !(Lone(w) && limit == 1) ==>
              && NextPage(root, w, limit, None).1.Ok?
              && Delivers(root, w, limit, NextPage(root, w, limit, None).0, NextPage(root, w, limit, None).1.value)
  {
    hide Stable, Inv, Fits, Remaining;
    LoopDelivers(root, w, limit);
    var loop := PageLoop(root, w, [], limit, None).0;
    Renumbered(root, loop, loop.pageIndex + 1);
    if Lone(w) && limit == 1 {
      LonePage(root, w);
    }
  }

  /** A lone entry on a page of its own is taken from the walk and then lost to the error. */
  lemma LonePage(root: Node, w: Walk)
    requires Ready(root, w) && Lone(w)
    ensures NextPage(root, w, 1, None) == (w.(pendingEntry := None), Err(FrontierInvalid))
  {
    EmitPendingEntry(root, w);
    var next := w.(pendingEntry := None);
    assert PageLoop(root, next, [] + [w.pendingEntry.value], 1, None) == (next, Ok([] + [w.pendingEntry.value]));
    assert FrontierOf(next, false) == [];
  }

  /** Asking again after that error reports a complete and empty inventory. */
  lemma LoneEntryIsLost(root: Node, w: Walk, limit: nat)
    requires Ready(root, w) && Lone(w) && w.pageIndex == 1 && 1 <= limit <= MAX_PAGE_ENTRIES
    ensures var failed := NextPage(root, w, 1, None).0;
            && Inv(root, failed)
            && NextPage(root, failed, limit, None).1.Ok?
            && NextPage(root, failed, limit, None).1.value.entries == []
            && NextPage(root, failed, limit, None).1.value.complete
  {
    LonePage(root, w);
    var failed := w.(pendingEntry := None);
    EmitPendingEntry(root, w);
    assert PageLoop(root, failed, [], limit, None) == (failed.(complete := true), Ok([]));
  }

  /** The page counter plays no part in the walk itself. */
  lemma Renumbered(root: Node, w: Walk, pageIndex: nat)
    ensures Inv(root, w.(pageIndex := pageIndex)) <==> Inv(root, w)
    ensures Fits(root, w.(pageIndex := pageIndex)) <==> Fits(root, w)
    ensures Remaining(root, w.(pageIndex := pageIndex)) == Remaining(root, w)
    ensures Finished(w) ==> Fits(root, w)
  {
  }

  /** While a directory too deep to open lies ahead, a page that succeeds is not the last. */
  lemma TooDeepPageIsNotLast(root: Node, w: Walk, limit: nat, cancelAt: Option<nat>)
    requires Stable(root) && Inv(root, w) && !Fits(root, w)
    ensures NextPage(root, w, limit, cancelAt).1.Ok? ==>
              && !NextPage(root, w, limit, cancelAt).1.value.complete
              && Inv(root, NextPage(root, w, limit, cancelAt).0) && !Fits(root, NextPage(root, w, limit, cancelAt).0)
  {
    hide Remaining, Stable, Inv, Fits, PageLoop, Takes;
    if NextPage(root, w, limit, cancelAt).1.Ok? {
      PageLoopTakes(root, w, [], limit, cancelAt);
      PageLoopFits(root, w, [], limit, cancelAt);
      var next := PageLoop(root, w, [], limit, cancelAt).0;
      Renumbered(root, next, next.pageIndex + 1);
    }
  }

  // ---------------------------------------------------------------- whole walks

  predicate Admitted(limits: seq<nat>) {
    forall i | 0 <= i < |limits| :: 1 <= limits[i] <= MAX_PAGE_ENTRIES
  }

  function Total(limits: seq<nat>): nat {
    if limits == [] then 0 else limits[0] + Total(limits[1..])
  }

  /** The pages asked for one after another until one is complete or fails. */
  function Pages(root: Node, w: Walk, limits: seq<nat>): seq<Page>
    requires Stable(root) && Inv(root, w)
    decreases |limits|
  {
    if limits == [] then []
    else
      var (next, outcome) := NextPage(root, w, limits[0], None);
      match outcome
      case Err(_) => []
      case Ok(page) =>
        PageKeepsInv(root, w, limits[0]);
        [page] + (if page.complete then [] else Pages(root, next, limits[1..]))
  }

  lemma PageKeepsInv(root: Node, w: Walk, limit: nat)
    requires Stable(root) && Inv(root, w) && NextPage(root, w, limit, None).1.Ok?
    ensures Inv(root, NextPage(root, w, limit, None).0)
  {
    hide Remaining, Stable, Inv, PageLoop, Takes, FrontierOf, PageOf, Fits;
    PageLoopTakes(root, w, [], limit, None);
    var loop := PageLoop(root, w, [], limit, None).0;
    Renumbered(root, loop, loop.pageIndex + 1);
  }

  function Concat(pages: seq<Page>): seq<Entry> {
    if pages == [] then [] else pages[0].entries + Concat(pages[1..])
  }

  /** The pages spell out a prefix of `all`, the last being complete exactly if `all` runs out. */
  ghost predicate Spells(pages: seq<Page>, all: seq<Entry>, limits: seq<nat>) {
    && |pages| <= |limits|
    && Concat(pages) == all[..Least(Total(limits), |all|)]
    && (forall i | 0 <= i < |pages| - 1 :: !pages[i].complete && |pages[i].entries| == limits[i])
    && (Total(limits) > |all| <==> pages != [] && pages[|pages| - 1].complete)
  }

  lemma JoinPages(page: Page, more: seq<Page>, all: seq<Entry>, left: seq<Entry>, limits: seq<nat>)
    requires limits != [] && PageTakes(all, limits[0], page, left)
    requires page.complete ==> more == []
    requires !page.complete ==> Spells(more, left, limits[1..])
    ensures Spells([page] + more, all, limits)
  {
    var pages := [page] + more;
    assert pages[1..] == more;
    if !page.complete {
      assert all == all[..limits[0]] + left;
      assert forall i | 0 < i < |pages| :: pages[i] == more[i - 1];
      assert all[..Least(Total(limits), |all|)] == all[..limits[0]] + left[..Least(Total(limits[1..]), |left|)];
    }
  }

  /**
   * Whatever limits are asked for, the pages spell out what remains of the listing from its start;
   * every page but the last is full and incomplete, and the last is complete exactly when the
   * limits together exceed the listing.
   */
  lemma {:induction false} PagesSpellTheListing(root: Node, w: Walk, limits: seq<nat>)
    requires Ready(root, w) && Fits(root, w) && Admitted(limits) && w.pageIndex + |limits| <= U64_MAX
    requires !(Lone(w) && limits != [] && limits[0] == 1)
    ensures Spells(Pages(root, w, limits), Remaining(root, w), limits)
    decreases |limits|
  {
    hide Stable, Inv, Fits, Remaining, NextPage;
    if limits != [] {
      NextPageDelivers(root, w, limits[0]);
      var next, page := NextPage(root, w, limits[0], None).0, NextPage(root, w, limits[0], None).1.value;
      PagesStep(root, w, limits);
      if !page.complete {
        PagesSpellTheListing(root, next, limits[1..]);
        JoinPages(page, Pages(root, next, limits[1..]), Remaining(root, w), Remaining(root, next), limits);
      } else {
        JoinPages(page, [], Remaining(root, w), Remaining(root, next), limits);
      }
    }
  }

  lemma PagesStep(root: Node, w: Walk, limits: seq<nat>)
    requires Stable(root) && Inv(root, w) && limits != [] && NextPage(root, w, limits[0], None).1.Ok?
    ensures var (next, outcome) := NextPage(root, w, limits[0], None);
            && Inv(root, next)
            && (outcome.value.complete ==> Pages(root, w, limits) == [outcome.value] + [])
            && (!outcome.value.complete ==> Pages(root, w, limits) == [outcome.value] + Pages(root, next, limits[1..]))
  {
    PageKeepsInv(root, w, limits[0]);
  }

  /** From a fresh inventory: the walk reproduces the recursive listing of its scope. */
  ghost function ScopeListing(root: Node, scope: Scope): seq<Entry> {
    match scope
    case RootScope => Listing(root.children)
    case Subtree(path) =>
      match Lookup(root, path)
      case None => []
      case Some(node) => [node.entry] + Listing(node.children)
  }

  ghost predicate ScopeFits(root: Node, scope: Scope) {
    Height(match scope
           case RootScope => [root]
           case Subtree(path) => if Lookup(root, path).Some? then [Lookup(root, path).value] else []) <= MAX_DIRECTORY_DEPTH
  }

  ghost predicate LoneScope(root: Node, scope: Scope) {
    scope.Subtree? && Lookup(root, scope.path).Some? && !Lookup(root, scope.path).value.entry.kind.Directory?
  }

  lemma NewWalk(root: Node, scope: Scope)
    requires Library(root)
    ensures New(root, scope).Ok?
    ensures Ready(root, New(root, scope).value) && New(root, scope).value.pageIndex == 1
    ensures Remaining(root, New(root, scope).value) == ScopeListing(root, scope)
    ensures Fits(root, New(root, scope).value) <==> ScopeFits(root, scope)
    ensures Lone(New(root, scope).value) <==> LoneScope(root, scope)
  {
    LibraryIsStable(root);
    StartsAtPageOne(root, scope);
    hide New, Library, Stable, Inv, Remaining, Fits, Lone, LoneScope, Height, Listing, Lookup;
    match scope
    case RootScope => NewRoot(root);
    case Subtree(path) => NewSubtree(root, path);
  }

  lemma StartsAtPageOne(root: Node, scope: Scope)
    ensures New(root, scope).Ok? ==> New(root, scope).value.pageIndex == 1
    ensures New(root, scope).Ok? ==> (Lone(New(root, scope).value) <==> LoneScope(root, scope))
  {
    hide Lookup;
  }

  lemma RootOpens(root: Node)
    requires Library(root)
    ensures New(root, RootScope) == Ok(Blank("", 1).(scopeIdentity := root.identity, stack := [] + [FreshFrame("", root)]))
    ensures Inv(root, New(root, RootScope).value)
  {
    hide WellFormed, PathsOf, Find;
    assert FrameOk(root, FreshFrame("", root));
  }

  lemma NewRoot(root: Node)
    requires Library(root)
    ensures New(root, RootScope).Ok?
    ensures Inv(root, New(root, RootScope).value)
    ensures Remaining(root, New(root, RootScope).value) == Listing(root.children)
    ensures Fits(root, New(root, RootScope).value) <==> Height([root]) <= MAX_DIRECTORY_DEPTH
  {
    var frame := FreshFrame("", root);
    var w := New(root, RootScope).value;
    RootOpens(root);
    hide Library, Listing, Lookup, Fits, Inv, FrameOk, New;
    StackOnTop([], frame);
    assert Unread(frame) == root.children;
    HeightOfOne(root);
    hide Height;
    FitsTop(root, w, [], frame);
  }

  lemma HeightOfOne(node: Node)
    ensures Height([node]) == if node.entry.kind.Directory? then 1 + Height(node.children) else 0
  {
    assert [node][1..] == [];
  }

  lemma NewSubtree(root: Node, path: Path)
    requires Library(root)
    ensures New(root, Subtree(path)).Ok?
    ensures Inv(root, New(root, Subtree(path)).value)
    ensures Remaining(root, New(root, Subtree(path)).value) == ScopeListing(root, Subtree(path))
    ensures Fits(root, New(root, Subtree(path)).value) <==> ScopeFits(root, Subtree(path))
  {
    if Lookup(root, path).Some? {
      LookupIsSound(root, path);
      HeightOfOne(Lookup(root, path).value);
    }
    hide Library, Lookup, Height;
  }

  /** No scope lists an entry twice. */
  lemma ScopeHasNoRepeats(root: Node, scope: Scope)
    requires Library(root)
    ensures NoPathTwice(ScopeListing(root, scope))
  {
    match scope
    case RootScope => ListingHasNoRepeats(root.children);
    case Subtree(path) =>
      if path == root.entry.path {
        SubtreeHasNoRepeats(root);
      } else if Find(root.children, path).Some? {
        FoundIsGrounded(root.children, path);
        SubtreeHasNoRepeats(Find(root.children, path).value);
      }
  }

  /**
   * The main statement for the library, the scope and any sequence of page limits: the pages are the
   * recursive listing, and none of its entries comes twice.
   */
  lemma InventoryListsTheScope(root: Node, scope: Scope, limits: seq<nat>)
    requires Library(root) && ScopeFits(root, scope) && Admitted(limits) && |limits| < U64_MAX
    requires !(LoneScope(root, scope) && limits != [] && limits[0] == 1)
    ensures var w := New(root, scope);
            && w.Ok? && Stable(root) && Inv(root, w.value)
            && var pages := Pages(root, w.value, limits);
               Spells(pages, ScopeListing(root, scope), limits) && NoPathTwice(Concat(pages))
  {
    hide New, Library, Stable, Inv, ScopeListing, ScopeFits, Fits, Remaining, Lone, LoneScope, Pages;
    NewWalk(root, scope);
    PagesSpellTheListing(root, New(root, scope).value, limits);
    ScopeHasNoRepeats(root, scope);
  }
}
