/** Requests that go on after an error: what a depth error loses, and when a completed inventory is whole. */
module InventoryRetries {
  import opened Options
  import opened Inventory
  import opened InventoryTurns
  import opened InventoryPages

  // ---------------------------------------------------------------- what a depth error loses

  /** A directory that cannot be opened any more is next. */
  predicate Blocked(w: Walk) {
    w.pendingEntry.None? && w.pendingDirectory.Some? && |w.stack| >= MAX_DIRECTORY_DEPTH
  }

  /**
   * `read` and everything below the directory last read are gone from the walk: that directory was
   * taken off before it could not be opened.
   */
  ghost predicate Drops(root: Node, w: Walk, read: seq<Entry>, next: Walk) {
    && Inv(root, next) && |next.stack| == MAX_DIRECTORY_DEPTH && Top(next).after.Some?
    && PendingOk(root, Pending(Top(next).after.value, Identify(root, Top(next).after.value)))
    && Remaining(root, w) == read + Listing(ChildrenOf(root, Top(next).after.value)) + Remaining(root, next)
    && next.pendingEntry.None? && next.pendingDirectory.None? && !next.complete && next.pageIndex == w.pageIndex
    && Turns(root, next) < Turns(root, w)
  }

  lemma FailDrops(root: Node, w: Walk)
    requires Inv(root, w) && Blocked(w)
    ensures Turn(root, w) == Fail(DepthExceeded, w.(pendingDirectory := None))
    ensures Drops(root, w, [], w.(pendingDirectory := None)) && Turns(root, w) > 0
  {
    hide Lookup, Listing, TurnsFor, FrameOk;
    OpenPending(root, w);
  }

  /** A page that ends with a depth error has lost what it read and all that is below that directory. */
  lemma {:induction false} DepthErrorLoses(root: Node, w: Walk, entries: seq<Entry>, limit: nat, cancelAt: Option<nat>)
    requires Stable(root) && Inv(root, w)
    requires PageLoop(root, w, entries, limit, cancelAt).1 == Err(DepthExceeded)
    ensures Drops(root, w, EmittedIn(root, w, Turns(root, w)), PageLoop(root, w, entries, limit, cancelAt).0)
    ensures |entries| + |EmittedIn(root, w, Turns(root, w))| < limit
    decreases Turns(root, w)
  {
    hide Stable, Inv, Remaining, Turns, Turn, PendingOk, Listing;
    TurnKeeps(root, w);
    match Turn(root, w)
    case Emit(entry, next) =>
      DepthErrorLoses(root, next, entries + [entry], limit, Later(cancelAt));
    case Move(next) =>
      DepthErrorLoses(root, next, entries, limit, Later(cancelAt));
    case Fail(error, next) =>
      FailDrops(root, w);
  }

  // ---------------------------------------------------------------- requests that go on

  /** An error or not, a request leaves a walk over the same library. */
  lemma RequestKeepsInv(root: Node, w: Walk, limit: nat)
    requires Stable(root) && Inv(root, w)
    ensures Inv(root, NextPage(root, w, limit, None).0)
  {
    hide Stable, Inv, Remaining, Turns, PageLoop, Takes, FrontierOf, PageOf, Fits;
    if PageLoop(root, w, [], limit, None).1.Err? {
      PageLoopErrors(root, w, [], limit, None);
      DepthErrorLoses(root, w, [], limit, None);
    } else {
      PageLoopTakes(root, w, [], limit, None);
      var loop := PageLoop(root, w, [], limit, None).0;
      Renumbered(root, loop, loop.pageIndex + 1);
    }
  }

  /** The answers to requests made one after another, errors or not, until a page is complete. */
  function Requests(root: Node, w: Walk, limits: seq<nat>): seq<Result<Page, Error>>
    requires Stable(root) && Inv(root, w)
    decreases |limits|
  {
    if limits == [] then []
    else
      RequestKeepsInv(root, w, limits[0]);
      var (next, answer) := NextPage(root, w, limits[0], None);
      [answer] + (if IsLast(answer) then [] else Requests(root, next, limits[1..]))
  }

  predicate IsLast(answer: Result<Page, Error>) {
    answer.Ok? && answer.value.complete
  }

  function EntriesOf(answer: Result<Page, Error>): seq<Entry> {
    if answer.Ok? then answer.value.entries else []
  }

  /** All entries that the answers give. */
  function Given(answers: seq<Result<Page, Error>>): seq<Entry> {
    if answers == [] then [] else EntriesOf(answers[0]) + Given(answers[1..])
  }

  /** Completion was reported, and the page counter did not overflow on the way. */
  predicate Completes(answers: seq<Result<Page, Error>>) {
    answers != [] && IsLast(answers[|answers| - 1]) && Err(PageOverflow) !in answers
  }

  lemma RequestsBegin(root: Node, w: Walk, limits: seq<nat>)
    requires Stable(root) && Inv(root, w) && limits != []
    ensures var (next, answer) := NextPage(root, w, limits[0], None);
            && Inv(root, next)
            && (IsLast(answer) ==> Requests(root, w, limits) == [answer])
            && (!IsLast(answer) ==> Requests(root, w, limits) == [answer] + Requests(root, next, limits[1..]))
  {
    RequestKeepsInv(root, w, limits[0]);
    hide Stable, Inv, NextPage;
  }

  lemma AnswersBegin(answer: Result<Page, Error>, rest: seq<Result<Page, Error>>)
    ensures Given([answer] + rest) == EntriesOf(answer) + Given(rest) && Given([answer]) == EntriesOf(answer)
    ensures Completes([answer]) <==> IsLast(answer)
    ensures !IsLast(answer) ==> (Completes([answer] + rest) <==> answer != Err(PageOverflow) && Completes(rest))
  {
    assert ([answer] + rest)[1..] == rest && [answer][1..] == [];
    if rest != [] {
      assert ([answer] + rest)[|rest|] == rest[|rest| - 1];
    }
  }

  lemma NoRequests(root: Node, w: Walk)
    requires Stable(root) && Inv(root, w)
    ensures Requests(root, w, []) == [] && Given([]) == [] && !Completes([])
  {
  }

  /** What a single request does to what remains, whether it gives a page or not. */
  lemma RequestTakes(root: Node, w: Walk, limit: nat)
    requires Ready(root, w) && w.pageIndex < U64_MAX && 1 <= limit <= MAX_PAGE_ENTRIES && !(Lone(w) && limit == 1)
    ensures var (next, answer) := NextPage(root, w, limit, None);
            && Inv(root, next)
            && |EntriesOf(answer)| + |Remaining(root, next)| <= |Remaining(root, w)|
            && next.pageIndex == w.pageIndex + (if answer.Ok? then 1 else 0)
            && next.pendingEntry.None?
            && (answer.Ok? <==> answer != Err(DepthExceeded))
            && (answer.Err? ==> Ready(root, next) && Turns(root, next) < Turns(root, w))
            && (answer.Ok? && !IsLast(answer) ==> Ready(root, next) && EntriesOf(answer) != [])
  {
    hide Stable, Inv, Remaining, Turns, Fits;
    var (loop, outcome) := PageLoop(root, w, [], limit, None);
    if outcome.Err? {
      PageLoopErrors(root, w, [], limit, None);
      DepthErrorLoses(root, w, [], limit, None);
    } else {
      PageLoopTakes(root, w, [], limit, None);
      Renumbered(root, loop, loop.pageIndex + 1);
      if |outcome.value| == limit {
        PageLoopBoundary(root, w, [], limit, None);
      }
    }
  }

  // ---------------------------------------------------------------- within the depth limit nothing is missing

  lemma PageCounterOverflows(root: Node, w: Walk, limit: nat)
    requires Ready(root, w) && Fits(root, w) && w.pageIndex >= U64_MAX
    requires 1 <= limit <= MAX_PAGE_ENTRIES && !(Lone(w) && limit == 1)
    ensures NextPage(root, w, limit, None).1 == Err(PageOverflow)
  {
    hide Stable, Inv, Remaining, Fits;
    LoopDelivers(root, w, limit);
  }

  ghost predicate Asks(w: Walk, limits: seq<nat>) {
    Admitted(limits) && !(Lone(w) && limits != [] && limits[0] == 1)
  }

  lemma {:induction false} WithinDepthIsWhole(root: Node, w: Walk, limits: seq<nat>)
    requires Ready(root, w) && Fits(root, w) && Asks(w, limits) && Completes(Requests(root, w, limits))
    ensures Given(Requests(root, w, limits)) == Remaining(root, w)
    decreases |limits|
  {
    hide Stable, Inv, Remaining, Fits, NextPage, Given, Completes, Requests;
    if limits == [] {
      NoRequests(root, w);
    } else {
      RequestsBegin(root, w, limits);
      var (next, answer) := NextPage(root, w, limits[0], None);
      var rest := if IsLast(answer) then [] else Requests(root, next, limits[1..]);
      AnswersBegin(answer, rest);
      if w.pageIndex >= U64_MAX {
        PageCounterOverflows(root, w, limits[0]);
      } else {
        NextPageDelivers(root, w, limits[0]);
        if !IsLast(answer) {
          WithinDepthIsWhole(root, next, limits[1..]);
        }
        AllTaken(Remaining(root, w), limits[0]);
      }
    }
  }

  lemma AllTaken(all: seq<Entry>, limit: nat)
    ensures all == all[..Least(limit, |all|)] + all[Least(limit, |all|)..]
  {
  }

  // ---------------------------------------------------------------- beyond it something can be lost unnoticed

  lemma {:induction false} GivenIsNoMore(root: Node, w: Walk, limits: seq<nat>)
    requires Ready(root, w) && Asks(w, limits) && w.pageIndex + |Remaining(root, w)| < U64_MAX
    ensures |Given(Requests(root, w, limits))| <= |Remaining(root, w)|
    decreases |limits|
  {
    hide Stable, Inv, Remaining, NextPage, Given, Requests;
    if limits == [] {
      NoRequests(root, w);
    } else {
      RequestsBegin(root, w, limits);
      RequestTakes(root, w, limits[0]);
      var (next, answer) := NextPage(root, w, limits[0], None);
      var rest := if IsLast(answer) then [] else Requests(root, next, limits[1..]);
      AnswersBegin(answer, rest);
      if !IsLast(answer) {
        GivenIsNoMore(root, next, limits[1..]);
      }
    }
  }

  /** One more request in front of others. */
  lemma AskFirst(root: Node, w: Walk, limit: nat, rest: seq<nat>)
    requires Stable(root) && Inv(root, w) && 1 <= limit <= MAX_PAGE_ENTRIES && !(Lone(w) && limit == 1)
    requires var (next, answer) := NextPage(root, w, limit, None);
             Inv(root, next) && !IsLast(answer) && answer != Err(PageOverflow) && Asks(next, rest)
    ensures Asks(w, [limit] + rest)
    ensures var (next, answer) := NextPage(root, w, limit, None);
            var answers := Requests(root, w, [limit] + rest);
            && (Completes(answers) <==> Completes(Requests(root, next, rest)))
            && Given(answers) == EntriesOf(answer) + Given(Requests(root, next, rest))
  {
    hide Stable, Inv, NextPage, Completes, Given, Requests;
    assert ([limit] + rest)[1..] == rest;
    RequestsBegin(root, w, [limit] + rest);
    var (next, answer) := NextPage(root, w, limit, None);
    AnswersBegin(answer, Requests(root, next, rest));
  }

  /** Whoever keeps asking is told in the end that the inventory is complete. */
  lemma {:induction false} AskUntilComplete(root: Node, w: Walk) returns (limits: seq<nat>)
    requires Ready(root, w) && w.pageIndex + |Remaining(root, w)| < U64_MAX
    ensures Asks(w, limits) && Completes(Requests(root, w, limits))
    decreases |Remaining(root, w)|, Turns(root, w)
  {
    hide Stable, Inv, Remaining, NextPage, Turns, Completes, Requests;
    RequestTakes(root, w, 2);
    var (next, answer) := NextPage(root, w, 2, None);
    if IsLast(answer) {
      limits := [2];
      RequestsBegin(root, w, limits);
      AnswersBegin(answer, []);
    } else {
      var rest := AskUntilComplete(root, next);
      limits := [2] + rest;
      AskFirst(root, w, 2, rest);
    }
  }

  /** Unless the walk is blocked, the next page gets as far as the next entry. */
  lemma {:induction false} NextEntryComes(root: Node, w: Walk)
    requires Stable(root) && Inv(root, w) && !Blocked(w)
    ensures PageLoop(root, w, [], 1, None).1.Ok?
    decreases Turns(root, w)
  {
    hide Stable, Inv, Remaining, Turns, Turn, Blocked;
    TurnKeeps(root, w);
    match Turn(root, w)
    case Emit(entry, next) =>
      assert PageLoop(root, next, [] + [entry], 1, None).1.Ok?;
    case Move(next) =>
      MovesOn(root, w);
      NextEntryComes(root, next);
    case Finish(next) =>
    case Fail(_, _) =>
      MovesOn(root, w);
  }

  lemma MovesOn(root: Node, w: Walk)
    requires Inv(root, w)
    ensures Turn(root, w).Move? ==> !Blocked(Turn(root, w).walk)
    ensures Turn(root, w).Fail? ==> Blocked(w)
  {
    if w.pendingEntry.None? && w.pendingDirectory.Some? {
      OpenTurn(root, w);
    }
  }

  lemma TooDeepIsNotLone(root: Node, w: Walk)
    requires Inv(root, w) && !Fits(root, w)
    ensures !Lone(w)
  {
  }

  /** A longer page goes on where the shorter one ends. */
  lemma {:induction false} LongerPage(root: Node, w: Walk, entries: seq<Entry>, few: nat, limit: nat)
    requires Stable(root) && Inv(root, w) && |entries| <= few <= limit
    requires PageLoop(root, w, entries, few, None).1.Ok? && |PageLoop(root, w, entries, few, None).1.value| == few
    ensures var (next, outcome) := PageLoop(root, w, entries, few, None);
            Inv(root, next) && PageLoop(root, w, entries, limit, None) == PageLoop(root, next, outcome.value, limit, None)
    decreases Turns(root, w)
  {
    hide Stable, Inv, Remaining, Turns, Turn;
    if |entries| < few {
      TurnKeeps(root, w);
      match Turn(root, w)
      case Emit(entry, next) => LongerPage(root, next, entries + [entry], few, limit);
      case Move(next) => LongerPage(root, next, entries, few, limit);
      case Finish(next) =>
    }
  }

  /** Two entries asked for, one of them a directory that cannot be opened: it is lost. */
  lemma TwoAtOnceLose(root: Node, w: Walk)
    requires Ready(root, w) && PageLoop(root, w, [], 1, None).1.Ok? && |PageLoop(root, w, [], 1, None).1.value| == 1
    requires Blocked(PageLoop(root, w, [], 1, None).0)
    ensures NextPage(root, w, 2, None).1 == Err(DepthExceeded)
    ensures |Remaining(root, NextPage(root, w, 2, None).0)| < |Remaining(root, w)|
  {
    hide Stable, Inv, Remaining, Turns, Turn;
    var (next, outcome) := PageLoop(root, w, [], 1, None);
    PageLoopTakes(root, w, [], 1, None);
    LongerPage(root, w, [], 1, 2);
    FailDrops(root, next);
    assert PageLoop(root, next, outcome.value, 2, None) == (next.(pendingDirectory := None), Err(DepthExceeded));
  }

  /** One entry at a time the walk comes to the first directory that cannot be opened. */
  lemma OneEntry(root: Node, w: Walk)
    requires Ready(root, w) && !Fits(root, w) && !Blocked(w) && w.pageIndex < U64_MAX
    ensures var (loop, outcome) := PageLoop(root, w, [], 1, None);
            outcome.Ok? && |outcome.value| == 1 && (Blocked(loop) <==> Blocked(NextPage(root, w, 1, None).0))
    ensures var (next, answer) := NextPage(root, w, 1, None);
            answer.Ok? && !IsLast(answer) && Inv(root, next) && !Fits(root, next)
  {
    hide Stable, Inv, Remaining, Turns, Fits, Lone, PageLoop, FrontierOf, PageOf;
    NextEntryComes(root, w);
    TooDeepIsNotLone(root, w);
    RequestTakes(root, w, 1);
    TooDeepPageIsNotLast(root, w, 1, None);
    PageLoopTakes(root, w, [], 1, None);
    OneOrNone(root, w);
  }

  lemma OneOrNone(root: Node, w: Walk)
    requires Ready(root, w) && NextPage(root, w, 1, None).1.Ok?
    ensures var (loop, outcome) := PageLoop(root, w, [], 1, None);
            && outcome.Ok? && EntriesOf(NextPage(root, w, 1, None).1) == outcome.value
            && NextPage(root, w, 1, None).0 == loop.(pageIndex := loop.pageIndex + 1)
  {
    hide Stable, Inv, PageLoop, FrontierOf;
  }

  /**
   * Beyond the depth limit some requests lose an entry and are told of completion all the same: one
   * entry at a time up to the first directory that cannot be opened, which is asked for with another.
   */
  lemma {:induction false} LosingRequests(root: Node, w: Walk) returns (limits: seq<nat>)
    requires Ready(root, w) && !Fits(root, w) && !Blocked(w) && w.pageIndex + |Remaining(root, w)| < U64_MAX
    ensures Asks(w, limits) && Completes(Requests(root, w, limits))
    ensures |Given(Requests(root, w, limits))| < |Remaining(root, w)|
    decreases |Remaining(root, w)|
  {
    hide Stable, Inv, Remaining, NextPage, PageLoop, Turns, Fits, Lone, Blocked, Completes, Given, Requests, Admitted;
    TooDeepIsNotLone(root, w);
    OneEntry(root, w);
    var rest;
    if Blocked(PageLoop(root, w, [], 1, None).0) {
      TwoAtOnceLose(root, w);
      RequestTakes(root, w, 2);
      var next := NextPage(root, w, 2, None).0;
      rest := AskUntilComplete(root, next);
      GivenIsNoMore(root, next, rest);
      AskFirst(root, w, 2, rest);
      limits := [2] + rest;
    } else {
      RequestTakes(root, w, 1);
      rest := LosingRequests(root, NextPage(root, w, 1, None).0);
      AskFirst(root, w, 1, rest);
      limits := [1] + rest;
    }
  }

  /** Whenever completion is reported, everything that remained has been given. */
  ghost predicate CompletionIsWhole(root: Node, w: Walk)
    requires Stable(root) && Inv(root, w)
  {
    forall limits: seq<nat> | Asks(w, limits) && Completes(Requests(root, w, limits)) ::
      Given(Requests(root, w, limits)) == Remaining(root, w)
  }

  /**
   * Requests that go on after errors: a completed inventory is whole, however it is asked for, exactly
   * if the scope keeps within the depth limit. The sizes concern the page counter alone.
   */
  lemma CompletionIsWholeIff(root: Node, scope: Scope)
    requires Library(root)
    ensures New(root, scope).Ok? && Ready(root, New(root, scope).value)
    ensures ScopeFits(root, scope) ==> CompletionIsWhole(root, New(root, scope).value)
    ensures |ScopeListing(root, scope)| + 1 < U64_MAX ==>
              (CompletionIsWhole(root, New(root, scope).value) <==> ScopeFits(root, scope))
  {
    hide New, Library, Stable, Inv, ScopeListing, ScopeFits, Fits, Remaining, Lone, LoneScope, Requests, Given, Completes;
    NewWalk(root, scope);
    NewIsNotBlocked(root, scope);
    var w := New(root, scope).value;
    if ScopeFits(root, scope) {
      forall limits: seq<nat> | Asks(w, limits) && Completes(Requests(root, w, limits))
        ensures Given(Requests(root, w, limits)) == Remaining(root, w)
      {
        WithinDepthIsWhole(root, w, limits);
      }
    } else if |ScopeListing(root, scope)| + 1 < U64_MAX {
      var limits := LosingRequests(root, w);
    }
  }

  lemma NewIsNotBlocked(root: Node, scope: Scope)
    ensures New(root, scope).Ok? ==> !Blocked(New(root, scope).value)
  {
    hide Lookup;
  }

  // ---------------------------------------------------------------- stopping at the first error

  lemma {:induction false} TooDeepPagesAreNotLast(root: Node, w: Walk, limits: seq<nat>)
    requires Stable(root) && Inv(root, w) && !Fits(root, w)
    ensures forall i | 0 <= i < |Pages(root, w, limits)| :: !Pages(root, w, limits)[i].complete
    decreases |limits|
  {
    hide Stable, Inv, Fits, NextPage;
    if limits != [] && NextPage(root, w, limits[0], None).1.Ok? {
      TooDeepPageIsNotLast(root, w, limits[0], None);
      PagesStep(root, w, limits);
      TooDeepPagesAreNotLast(root, NextPage(root, w, limits[0], None).0, limits[1..]);
    }
  }

  /** Whoever stops at the first error is told of completion only when the whole scope was listed. */
  lemma StoppedRunIsWhole(root: Node, scope: Scope, limits: seq<nat>)
    requires Library(root) && Admitted(limits) && |limits| < U64_MAX
    requires !(LoneScope(root, scope) && limits != [] && limits[0] == 1)
    ensures New(root, scope).Ok? && Ready(root, New(root, scope).value)
    ensures var pages := Pages(root, New(root, scope).value, limits);
            pages != [] && pages[|pages| - 1].complete ==>
              ScopeFits(root, scope) && Concat(pages) == ScopeListing(root, scope)
  {
    hide New, Library, Stable, Inv, ScopeListing, ScopeFits, Fits, Remaining, Lone, LoneScope, Pages, Concat, Total;
    NewWalk(root, scope);
    var w := New(root, scope).value;
    if ScopeFits(root, scope) {
      PagesSpellTheListing(root, w, limits);
    } else {
      TooDeepPagesAreNotLast(root, w, limits);
    }
  }

  // ---------------------------------------------------------------- a library that is reported empty

  /** No directory holds more than one entry. */
  ghost predicate Narrow(root: Node) {
    forall path :: |ChildrenOf(root, path)| <= 1
  }

  lemma {:induction false} AllRead(stack: seq<Frame>)
    requires forall i | 0 <= i < |stack| :: Unread(stack[i]) == []
    ensures StackListing(stack) == []
  {
    if stack != [] {
      AllRead(stack[..|stack| - 1]);
    }
  }

  lemma NothingBeside(root: Node, w: Walk)
    requires Narrow(root) && Inv(root, w) && w.pendingEntry.None? && w.pendingDirectory.None?
    requires w.stack != [] && Top(w).after.Some?
    ensures Remaining(root, w) == [] && Fits(root, w)
  {
    forall i | 0 <= i < |w.stack|
      ensures Unread(w.stack[i]) == []
    {
      assert FrameOk(root, w.stack[i]);
      assert w.stack[i].entries == ChildrenOf(root, w.stack[i].directory);
    }
    AllRead(w.stack);
  }

  /** A page with room for all that remains cannot but fail when that is too deep. */
  lemma RoomyPageFails(root: Node, w: Walk, limit: nat)
    requires Ready(root, w) && !Fits(root, w) && |Remaining(root, w)| < limit <= MAX_PAGE_ENTRIES
    ensures NextPage(root, w, limit, None).1 == Err(DepthExceeded)
  {
    hide Stable, Inv, Remaining, Turns, Fits;
    var (loop, outcome) := PageLoop(root, w, [], limit, None);
    if outcome.Ok? {
      PageLoopTakes(root, w, [], limit, None);
      PageLoopFits(root, w, [], limit, None);
      Renumbered(root, loop, loop.pageIndex);
    } else {
      PageLoopErrors(root, w, [], limit, None);
    }
  }

  lemma NarrowIsReportedEmpty(root: Node, w: Walk, limit: nat, again: nat)
    requires Ready(root, w) && Narrow(root) && !Fits(root, w) && w.pageIndex < U64_MAX
    requires |Remaining(root, w)| < limit <= MAX_PAGE_ENTRIES && 1 <= again <= MAX_PAGE_ENTRIES
    ensures var (failed, answer) := NextPage(root, w, limit, None);
            && answer == Err(DepthExceeded) && Inv(root, failed)
            && NextPage(root, failed, again, None).1.Ok?
            && IsLast(NextPage(root, failed, again, None).1) && EntriesOf(NextPage(root, failed, again, None).1) == []
  {
    hide Narrow, Stable, Inv, Remaining, Turns, Fits;
    RoomyPageFails(root, w, limit);
    DepthErrorLoses(root, w, [], limit, None);
    var failed := NextPage(root, w, limit, None).0;
    NothingBeside(root, failed);
    NextPageDelivers(root, failed, again);
  }

  function PathAt(level: nat): Path {
    if level == 0 then "" else if level == 1 then "d" else PathAt(level - 1) + "/d"
  }

  /** A directory with so many directories one inside the other below it. */
  function Nest(level: nat, below: nat): Node
    decreases below
  {
    Node(Entry(PathAt(level), Directory, 0), None, if below == 0 then [] else [Nest(level + 1, below - 1)])
  }

  lemma {:induction false} PathLength(level: nat)
    ensures |PathAt(level)| == if level == 0 then 0 else 2 * level - 1
  {
    if level > 1 {
      PathLength(level - 1);
    }
  }

  lemma {:induction false} NestGoesDown(level: nat, below: nat)
    ensures forall path | path in PathsOf([Nest(level, below)]) :: |path| >= |PathAt(level)|
    decreases below
  {
    var node := Nest(level, below);
    PathLength(level);
    PathLength(level + 1);
    hide PathAt;
    assert [node][1..] == [];
    if below > 0 {
      NestGoesDown(level + 1, below - 1);
    }
  }

  lemma GroundedOne(node: Node)
    requires node.entry.kind.Directory? && |node.children| <= 1 && Grounded(node.children)
    requires node.entry.path !in PathsOf(node.children)
    ensures Grounded([node])
  {
    assert [node][1..] == [];
  }

  lemma {:induction false} NestIsGrounded(level: nat, below: nat)
    ensures Grounded([Nest(level, below)])
    ensures forall path | path in PathsOf(Nest(level, below).children) :: |path| > |PathAt(level)|
    decreases below
  {
    hide PathAt, Grounded, PathsOf, Nest;
    PathLength(level);
    PathLength(level + 1);
    NestUnfolds(level, below);
    NothingGrounded();
    if below > 0 {
      NestGoesDown(level + 1, below - 1);
      NestIsGrounded(level + 1, below - 1);
    }
    GroundedOne(Nest(level, below));
  }

  lemma NestUnfolds(level: nat, below: nat)
    ensures Nest(level, below).entry == Entry(PathAt(level), Directory, 0)
    ensures Nest(level, below).children == if below == 0 then [] else [Nest(level + 1, below - 1)]
  {
  }

  lemma NothingGrounded()
    ensures Grounded([]) && PathsOf([]) == {}
  {
  }

  lemma {:induction false} NestSize(level: nat, below: nat)
    ensures Height([Nest(level, below)]) == below + 1 && |Listing(Nest(level, below).children)| == below
    decreases below
  {
    hide PathAt;
    HeightOfOne(Nest(level, below));
    if below > 0 {
      NestSize(level + 1, below - 1);
      assert Nest(level, below).children[1..] == [];
    }
  }

  lemma {:induction false} NestIsNarrow(level: nat, below: nat, path: Path)
    ensures Find([Nest(level, below)], path).Some? ==> |Find([Nest(level, below)], path).value.children| <= 1
    decreases below
  {
    var node := Nest(level, below);
    assert [node][1..] == [];
    if below > 0 {
      NestIsNarrow(level + 1, below - 1, path);
    }
  }

  lemma NestIsLibrary(below: nat)
    ensures Library(Nest(0, below)) && Narrow(Nest(0, below))
    ensures |ScopeListing(Nest(0, below), RootScope)| == below
    ensures ScopeFits(Nest(0, below), RootScope) <==> below < MAX_DIRECTORY_DEPTH
  {
    var root := Nest(0, below);
    NestIsGrounded(0, below);
    NestSize(0, below);
    forall path
      ensures |ChildrenOf(root, path)| <= 1
    {
      if below > 0 {
        NestIsNarrow(1, below - 1, path);
      }
    }
  }

  /**
   * A library of nested directories, one more than can be open at once: the first page fails, and the
   * next one reports a complete inventory without a single entry.
   */
  lemma NestIsReportedEmpty(below: nat, again: nat)
    requires MAX_DIRECTORY_DEPTH <= below < MAX_PAGE_ENTRIES && 1 <= again <= MAX_PAGE_ENTRIES
    ensures var root := Nest(0, below);
            && Library(root) && |ScopeListing(root, RootScope)| == below
            && New(root, RootScope).Ok? && Ready(root, New(root, RootScope).value)
            && var (failed, answer) := NextPage(root, New(root, RootScope).value, MAX_PAGE_ENTRIES, None);
               && answer == Err(DepthExceeded) && Inv(root, failed)
               && NextPage(root, failed, again, None).1.Ok?
               && IsLast(NextPage(root, failed, again, None).1) && EntriesOf(NextPage(root, failed, again, None).1) == []
  {
    hide Nest, New, Library, Stable, Inv, Narrow, ScopeListing, ScopeFits, Fits, Remaining, NextPage;
    var root := Nest(0, below);
    NestIsLibrary(below);
    NewWalk(root, RootScope);
    NarrowIsReportedEmpty(root, New(root, RootScope).value, MAX_PAGE_ENTRIES, again);
  }
}
