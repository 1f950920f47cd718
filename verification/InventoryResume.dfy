/** Resuming from a serialised frontier continues the interrupted walk exactly. */
module InventoryResume {
  import opened Options
  import opened Inventory
  import opened InventoryTurns
  import opened InventoryPages

  /** `seek_after`: the number of leading entries whose path is not beyond the cursor. */
  function PartitionPoint(nodes: seq<Node>, cursor: Path): nat {
    if nodes == [] || !Leq(nodes[0].entry.path, cursor) then 0 else 1 + PartitionPoint(nodes[1..], cursor)
  }

  /** The frame that one durable frontier entry restores. */
  function Restored(blank: Frame, durable: FrontierEntry): Frame {
    blank.(next := if durable.after.Some? then PartitionPoint(blank.entries, durable.after.value) else blank.next,
            after := durable.after,
            count := durable.count)
  }

  /** One durable frontier entry, whose ordinal and state have been checked. */
  function RestoreOne(root: Node, w: Walk, durable: FrontierEntry, ordinal: nat, length: nat): Result<Walk, Error>
    requires durable.ordinal == ordinal && !durable.state.Completed? && w.pendingDirectory.None?
  {
    if durable.state.Enumerating? then
      match OpenDirectory(root, w, durable.directory, durable.identity)
      case Err(error) => Err(error)
      case Ok(next) =>
        if next.stack == [] then Err(FrontierInvalid)
        else
          var seeked := WithTop(next, Restored(Top(next), durable));
          Ok(if ordinal == 0 then seeked.(scopeIdentity := durable.identity) else seeked)
    else if durable.after.Some? || ordinal + 1 != length then Err(FrontierInvalid)
    else Ok(w.(pendingDirectory := Some(Pending(durable.directory, durable.identity))))
  }

  function RestoreAll(root: Node, w: Walk, frontier: seq<FrontierEntry>, ordinal: nat, active: nat): Result<(Walk, nat), Error>
    requires ordinal <= |frontier|
    decreases |frontier| - ordinal
  {
    if ordinal == |frontier| then Ok((w, active))
    else
      var durable := frontier[ordinal];
      if durable.ordinal != ordinal || durable.state.Completed? || w.pendingDirectory.Some? then Err(FrontierInvalid)
      else if active + durable.count > U64_MAX then Err(FrontierInvalid)
      else
        match RestoreOne(root, w, durable, ordinal, |frontier|)
        case Err(error) => Err(error)
        case Ok(next) => RestoreAll(root, next, frontier, ordinal + 1, active + durable.count)
  }

  function LastCursor(stack: seq<Frame>): Option<Path> {
    if stack == [] then None
    else if stack[|stack| - 1].after.Some? then stack[|stack| - 1].after
    else LastCursor(stack[..|stack| - 1])
  }

  function DurableCursor(w: Walk): Option<Path> {
    match LastCursor(w.stack)
    case Some(path) => Some(path)
    case None => if w.pendingDirectory.Some? then Some(w.pendingDirectory.value.path) else None
  }

  function Resume(root: Node, scope: Scope, nextPage: nat, staged: nat, cursor: Option<Path>, frontier: seq<FrontierEntry>)
    : Result<Walk, Error>
  {
    if nextPage == 0 then Err(ResumeInvalid)
    else if nextPage == 1 then
      if staged != 0 || cursor.Some? || frontier != [] then Err(FrontierInvalid) else New(root, scope)
    else if frontier == [] || |frontier| > MAX_DIRECTORY_DEPTH + 1 then Err(FrontierInvalid)
    else
      match RestoreAll(root, Blank(ScopePath(scope), nextPage), frontier, 0, 0)
      case Err(error) => Err(error)
      case Ok((w, active)) =>
        if active > staged || DurableCursor(w) != cursor then Err(FrontierInvalid) else Ok(w)
  }

  // ---------------------------------------------------------------- seeking

  lemma {:induction false} LeqReflexive(path: Path)
    ensures Leq(path, path)
  {
    if path != [] {
      LeqReflexive(path[1..]);
    }
  }

  lemma {:induction false} LeqAntisymmetric(left: Path, right: Path)
    requires Leq(left, right) && Leq(right, left)
    ensures left == right
  {
    if left != [] && right != [] {
      LeqAntisymmetric(left[1..], right[1..]);
      assert left == [left[0]] + left[1..];
      assert right == [right[0]] + right[1..];
    }
  }

  /** In a sorted directory, seeking past an entry lands just behind it. */
  lemma {:induction false} SeekLandsBehind(nodes: seq<Node>, k: nat)
    requires Sorted(nodes) && k < |nodes|
    ensures PartitionPoint(nodes, nodes[k].entry.path) == k + 1
  {
    var cursor := nodes[k].entry.path;
    if k == 0 {
      LeqReflexive(cursor);
      if |nodes| > 1 && Leq(nodes[1].entry.path, cursor) {
        LeqAntisymmetric(nodes[1].entry.path, cursor);
      }
      assert PartitionPoint(nodes[1..], cursor) == 0;
    } else {
      assert nodes[1..][k - 1] == nodes[k];
      SeekLandsBehind(nodes[1..], k - 1);
    }
  }

  // ---------------------------------------------------------------- restoring a page boundary

  /** A walk between two pages, the first of which ended at `path`. */
  ghost predicate AtBoundary(root: Node, w: Walk, path: Path) {
    && Library(root) && Inv(root, w) && EndsAt(w, path) && !w.complete
    && (w.stack != [] || w.pendingDirectory.Some?)
  }

  /** The walk restored from the first `k` stack frames. */
  function PartOf(w: Walk, k: nat): Walk
    requires k <= |w.stack|
  {
    Walk(w.scope, if k == 0 then None else w.stack[0].identity, w.stack[..k], None, None, w.pageIndex, false)
  }

  lemma FrameReopens(root: Node, w: Walk, frame: Frame)
    requires FrameOk(root, frame) && |w.stack| < MAX_DIRECTORY_DEPTH
    ensures OpenDirectory(root, w, frame.directory, frame.identity)
         == Ok(w.(stack := w.stack + [Frame(frame.directory, frame.identity, frame.entries, 0, None, 0)],
                  scopeIdentity := if w.stack == [] && frame.directory == w.scope then frame.identity else w.scopeIdentity))
  {
    hide Lookup;
  }

  lemma SeekFrame(root: Node, frame: Frame, durable: FrontierEntry)
    requires Library(root) && FrameOk(root, frame) && frame.next > 0
    requires durable.after == frame.after && durable.count == frame.count
    ensures Restored(Frame(frame.directory, frame.identity, frame.entries, 0, None, 0), durable) == frame
  {
    LookupChild(root, frame.directory, frame.next - 1);
    SeekLandsBehind(frame.entries, frame.next - 1);
    hide Library, Lookup, Sorted, PartitionPoint;
  }

  lemma PartGrows(w: Walk, k: nat, blank: Frame)
    requires k < |w.stack|
    ensures (PartOf(w, k).stack + [blank])[k := w.stack[k]] == PartOf(w, k + 1).stack
  {
  }

  lemma BoundaryFrame(root: Node, w: Walk, path: Path, k: nat)
    requires AtBoundary(root, w, path) && k < |w.stack|
    ensures FrameOk(root, w.stack[k]) && w.stack[k].next > 0 && k < MAX_DIRECTORY_DEPTH
    ensures w.stack[0].directory == w.scope && Library(root)
  {
    hide Library, FrameOk;
  }

  lemma RestoreFrame(root: Node, w: Walk, path: Path, k: nat)
    requires AtBoundary(root, w, path) && k < |w.stack|
    ensures RestoreOne(root, PartOf(w, k), FrontierOf(w, false)[k], k, |FrontierOf(w, false)|) == Ok(PartOf(w, k + 1))
  {
    hide Library, Inv, FrontierOf, AtBoundary, FrameOk, Lookup, OpenDirectory, Restored;
    var frame := w.stack[k];
    BoundaryFrame(root, w, path, k);
    FrontierAt(w, k);
    SeekFrame(root, frame, FrontierOf(w, false)[k]);
    FrameReopens(root, PartOf(w, k), frame);
    PartGrows(w, k, Frame(frame.directory, frame.identity, frame.entries, 0, None, 0));
  }

  lemma {:induction false} EnumeratedPart(stack: seq<Frame>, k: nat)
    requires k <= |stack|
    ensures Enumerated(stack[..k]) <= Enumerated(stack)
    ensures k < |stack| ==> Enumerated(stack[..k + 1]) == Enumerated(stack[..k]) + stack[k].count
  {
    if k < |stack| {
      assert stack[..k + 1][..k] == stack[..k];
      EnumeratedPart(stack[..|stack| - 1], k);
      assert stack[..|stack| - 1][..k] == stack[..k];
    } else {
      assert stack[..k] == stack;
    }
  }

  /** What `resume` rebuilds: the interrupted walk, but for a scope identity it has yet to reread. */
  function Rebuilt(w: Walk): Walk {
    if w.stack == [] then w.(scopeIdentity := None) else w
  }

  lemma {:induction false} RestoreRest(root: Node, w: Walk, path: Path, k: nat)
    requires AtBoundary(root, w, path) && k <= |w.stack| && Enumerated(w.stack) <= U64_MAX
    ensures RestoreAll(root, PartOf(w, k), FrontierOf(w, false), k, Enumerated(w.stack[..k]))
         == Ok((Rebuilt(w), Enumerated(w.stack)))
    decreases |w.stack| - k
  {
    hide AtBoundary, RestoreAll, RestoreOne, Rebuilt, PartOf, FrontierOf;
    EnumeratedPart(w.stack, k);
    if k < |w.stack| {
      EnumeratedPart(w.stack, k + 1);
      FrontierAt(w, k);
      RestoreFrame(root, w, path, k);
      RestoreStep(root, PartOf(w, k), FrontierOf(w, false), k, Enumerated(w.stack[..k]), PartOf(w, k + 1));
      RestoreRest(root, w, path, k + 1);
    } else {
      assert w.stack[..k] == w.stack;
      RestorePending(root, w, path);
    }
  }

  lemma FrontierAt(w: Walk, k: nat)
    requires k < |w.stack|
    ensures k < |FrontierOf(w, false)|
    ensures FrontierOf(w, false)[k]
         == FrontierEntry(k, w.stack[k].directory, Enumerating, w.stack[k].identity, w.stack[k].after, w.stack[k].count)
    ensures PartOf(w, k).pendingDirectory.None?
  {
    assert FrontierOf(w, false)[k] == StackFrontier(w.stack)[k];
  }

  lemma RestoreStep(root: Node, w: Walk, frontier: seq<FrontierEntry>, k: nat, active: nat, next: Walk)
    requires k < |frontier| && frontier[k].ordinal == k && !frontier[k].state.Completed? && w.pendingDirectory.None?
    requires active + frontier[k].count <= U64_MAX
    requires RestoreOne(root, w, frontier[k], k, |frontier|) == Ok(next)
    ensures RestoreAll(root, w, frontier, k, active) == RestoreAll(root, next, frontier, k + 1, active + frontier[k].count)
  {
  }

  lemma RestorePending(root: Node, w: Walk, path: Path)
    requires AtBoundary(root, w, path) && Enumerated(w.stack) <= U64_MAX
    ensures RestoreAll(root, PartOf(w, |w.stack|), FrontierOf(w, false), |w.stack|, Enumerated(w.stack))
         == Ok((Rebuilt(w), Enumerated(w.stack)))
  {
    hide Library, Lookup;
    var k := |w.stack|;
    var frontier := FrontierOf(w, false);
    assert w.stack[..k] == w.stack;
    if w.pendingDirectory.Some? {
      assert frontier[k] == PendingFrontier(w)[0];
      var pending := PartOf(w, k).(pendingDirectory := w.pendingDirectory);
      assert pending == Rebuilt(w);
      assert RestoreAll(root, pending, frontier, k + 1, Enumerated(w.stack)) == Ok((pending, Enumerated(w.stack)));
    } else {
      assert PartOf(w, k) == Rebuilt(w);
    }
  }

  /** Every validity check of `resume` passes at a page boundary. */
  lemma ResumeRestores(root: Node, w: Walk, scope: Scope, path: Path, staged: nat)
    requires AtBoundary(root, w, path) && w.scope == ScopePath(scope) && w.pageIndex >= 2
    requires Enumerated(w.stack) <= staged <= U64_MAX
    ensures Resume(root, scope, w.pageIndex, staged, Some(path), FrontierOf(w, false)) == Ok(Rebuilt(w))
  {
    assert PartOf(w, 0) == Blank(ScopePath(scope), w.pageIndex);
    assert w.stack[..0] == [];
    RestoreRest(root, w, path, 0);
    assert |FrontierOf(w, false)| == |w.stack| + |PendingFrontier(w)|;
    assert DurableCursor(Rebuilt(w)) == Some(path);
  }

  /** The missing scope identity is reread before anything depends on it. */
  lemma RebuiltPage(root: Node, w: Walk, path: Path, limit: nat)
    requires Stable(root) && AtBoundary(root, w, path) && 1 <= limit <= MAX_PAGE_ENTRIES
    ensures Inv(root, Rebuilt(w))
    ensures NextPage(root, Rebuilt(w), limit, None) == NextPage(root, w, limit, None)
  {
    if w.stack == [] {
      OpenTurn(root, w);
      OpenTurn(root, Rebuilt(w));
      assert Turn(root, w) == Turn(root, Rebuilt(w));
    }
  }

  lemma RebuiltPages(root: Node, w: Walk, path: Path, limits: seq<nat>)
    requires Stable(root) && AtBoundary(root, w, path) && Admitted(limits)
    ensures Inv(root, Rebuilt(w)) && Pages(root, Rebuilt(w), limits) == Pages(root, w, limits)
  {
    RebuiltPage(root, w, path, if limits == [] then 1 else limits[0]);
  }

  // ---------------------------------------------------------------- interrupting a run

  /** An incomplete page leaves its walk at a boundary that its own frontier and cursor describe. */
  lemma PageLeavesBoundary(root: Node, w: Walk, limit: nat)
    requires Library(root) && Stable(root) && Inv(root, w)
    requires NextPage(root, w, limit, None).1.Ok? && !NextPage(root, w, limit, None).1.value.complete
    ensures var (next, outcome) := NextPage(root, w, limit, None);
            && outcome.value.entries != []
            && outcome.value.cursor == Some(outcome.value.entries[|outcome.value.entries| - 1].path)
            && AtBoundary(root, next, outcome.value.cursor.value)
            && outcome.value.frontier == FrontierOf(next, false)
            && outcome.value.index + 1 == next.pageIndex
            && next.scope == w.scope && next.pageIndex == w.pageIndex + 1
            && Enumerated(next.stack) <= Enumerated(w.stack) + |outcome.value.entries|
  {
    hide Library, Stable, Inv, Remaining, Fits;
    PageLoopTakes(root, w, [], limit, None);
    PageLoopBoundary(root, w, [], limit, None);
    var loop := PageLoop(root, w, [], limit, None).0;
    Renumbered(root, loop, loop.pageIndex + 1);
  }

  /** `resume` as the caller uses it: everything it needs comes from the pages already received. */
  function ResumeAfter(root: Node, scope: Scope, staged: nat, pages: seq<Page>): Result<Walk, Error>
    requires pages != []
  {
    var last := pages[|pages| - 1];
    Resume(root, scope, last.index + 1, staged + |Concat(pages)|, last.cursor, last.frontier)
  }

  /** The walk of a run that has staged this many entries in earlier pages. */
  ghost predicate Underway(root: Node, scope: Scope, w: Walk, staged: nat) {
    && Library(root) && Stable(root) && Inv(root, w) && w.pageIndex >= 1
    && w.scope == ScopePath(scope) && Enumerated(w.stack) <= staged
  }

  /** The resumed walk is again the walk of a run, and gives the pages that were still to come. */
  ghost predicate ContinuesAs(root: Node, scope: Scope, staged: nat, resumed: Result<Walk, Error>, pages: seq<Page>, more: seq<nat>, whole: seq<Page>)
  {
    && resumed.Ok? && Underway(root, scope, resumed.value, staged + |Concat(pages)|)
    && pages + Pages(root, resumed.value, more) == whole
  }

  lemma LastStep(root: Node, scope: Scope, w: Walk, staged: nat, limit: nat, more: seq<nat>)
    requires Underway(root, scope, w, staged) && Admitted(more) && staged + limit <= U64_MAX
    requires NextPage(root, w, limit, None).1.Ok? && !NextPage(root, w, limit, None).1.value.complete
    requires |NextPage(root, w, limit, None).1.value.entries| <= limit
    ensures var page := NextPage(root, w, limit, None).1.value;
            && Inv(root, NextPage(root, w, limit, None).0)
            && ContinuesAs(root, scope, staged, ResumeAfter(root, scope, staged, [page]), [page], more,
                           [page] + Pages(root, NextPage(root, w, limit, None).0, more))
  {
    hide Library, Stable, Inv, Resume, Remaining, NextPage, Enumerated, Pages, FrontierOf, Concat;
    PageLeavesBoundary(root, w, limit);
    var next, page := NextPage(root, w, limit, None).0, NextPage(root, w, limit, None).1.value;
    OnePage(page);
    ResumeRestores(root, next, scope, page.cursor.value, staged + |page.entries|);
    RebuiltPages(root, next, page.cursor.value, more);
  }

  lemma OnePage(page: Page)
    ensures Concat([page]) == page.entries
  {
    assert [page][1..] == [];
  }

  lemma OneMorePage(root: Node, scope: Scope, staged: nat, page: Page, rest: seq<Page>, more: seq<nat>, whole: seq<Page>)
    requires Stable(root) && rest != []
    requires ContinuesAs(root, scope, staged + |page.entries|, ResumeAfter(root, scope, staged + |page.entries|, rest), rest, more, whole)
    ensures ContinuesAs(root, scope, staged, ResumeAfter(root, scope, staged, [page] + rest), [page] + rest, more, [page] + whole)
  {
    hide Library, Stable, Inv, Resume, Pages;
    assert ([page] + rest)[1..] == rest;
    var resumed := ResumeAfter(root, scope, staged + |page.entries|, rest);
  }

  /**
   * Interrupting after any number of pages and resuming from the last page's frontier, cursor and
   * counts yields, for whatever limits follow, the same pages as the uninterrupted walk.
   */
  lemma {:induction false} ResumedRunIsTheSameRun(root: Node, scope: Scope, w: Walk, staged: nat, limits: seq<nat>, more: seq<nat>)
    requires Underway(root, scope, w, staged) && Admitted(limits) && Admitted(more) && staged + Total(limits) <= U64_MAX
    requires |Pages(root, w, limits)| == |limits| > 0 && !Pages(root, w, limits)[|limits| - 1].complete
    ensures ContinuesAs(root, scope, staged, ResumeAfter(root, scope, staged, Pages(root, w, limits)), Pages(root, w, limits), more,
                        Pages(root, w, limits + more))
    decreases |limits|
  {
    hide Library, Stable, Inv, NextPage, ResumeAfter, ContinuesAs, AtBoundary, Pages, Concat, FrontierOf, Enumerated;
    PagesBegin(root, w, limits);
    PagesStep(root, w, limits);
    PageHolds(root, w, limits[0]);
    var next, page := NextPage(root, w, limits[0], None).0, NextPage(root, w, limits[0], None).1.value;
    var rest := Pages(root, next, limits[1..]);
    assert (limits + more)[0] == limits[0] && (limits + more)[1..] == limits[1..] + more;
    PagesStep(root, w, limits + more);
    if |limits| == 1 {
      assert limits[1..] + more == more;
      assert Pages(root, w, limits) == [page];
      LastStep(root, scope, w, staged, limits[0], more);
    } else {
      PageLeavesBoundary(root, w, limits[0]);
      ResumedRunIsTheSameRun(root, scope, next, staged + |page.entries|, limits[1..], more);
      OneMorePage(root, scope, staged, page, rest, more, Pages(root, next, limits[1..] + more));
    }
  }

  lemma PagesBegin(root: Node, w: Walk, limits: seq<nat>)
    requires Stable(root) && Inv(root, w) && Pages(root, w, limits) != []
    ensures limits != [] && NextPage(root, w, limits[0], None).1.Ok?
  {
    hide Stable, Inv, NextPage;
  }

  lemma PageHolds(root: Node, w: Walk, limit: nat)
    requires Stable(root) && Inv(root, w) && NextPage(root, w, limit, None).1.Ok?
    ensures |NextPage(root, w, limit, None).1.value.entries| <= limit
  {
    hide Stable, Inv, Remaining;
    PageLoopTakes(root, w, [], limit, None);
  }

  // ---------------------------------------------------------------- any number of interruptions

  lemma NewStack(root: Node, scope: Scope)
    requires New(root, scope).Ok?
    ensures var w := New(root, scope).value;
            w.pageIndex == 1 && w.scope == ScopePath(scope) && (w.stack == [] || (|w.stack| == 1 && w.stack[0].count == 0))
  {
    hide Lookup;
  }

  lemma NothingEnumerated(stack: seq<Frame>)
    requires stack == [] || (|stack| == 1 && stack[0].count == 0)
    ensures Enumerated(stack) == 0
  {
    if stack != [] {
      assert stack[..0] == [];
    }
  }

  lemma NewIsUnderway(root: Node, scope: Scope)
    requires Library(root)
    ensures New(root, scope).Ok? && Underway(root, scope, New(root, scope).value, 0)
  {
    hide New, Library, Stable, Inv, Lookup, ScopeListing, Remaining, Fits, Enumerated;
    LibraryIsStable(root);
    NewWalk(root, scope);
    NewStack(root, scope);
    NothingEnumerated(New(root, scope).value.stack);
  }

  function Join(sessions: seq<seq<nat>>): seq<nat> {
    if sessions == [] then [] else sessions[0] + Join(sessions[1..])
  }

  /** The walk has more to give after these pages. */
  predicate GoesOn(pages: seq<Page>, limits: seq<nat>) {
    pages != [] && |pages| == |limits| && !pages[|pages| - 1].complete
  }

  /** Limits that can be asked for: in every session at least one, and not more than can be counted. */
  ghost predicate Plausible(sessions: seq<seq<nat>>, staged: nat) {
    && (forall i | 0 <= i < |sessions| :: sessions[i] != [] && Admitted(sessions[i]))
    && staged + Total(Join(sessions)) <= U64_MAX
  }

  lemma {:induction false} TotalOfBoth(first: seq<nat>, second: seq<nat>)
    ensures Total(first + second) == Total(first) + Total(second)
  {
    if first == [] {
      assert first + second == second;
    } else {
      assert (first + second)[1..] == first[1..] + second;
      TotalOfBoth(first[1..], second);
    }
  }

  lemma {:induction false} AdmittedJoin(sessions: seq<seq<nat>>)
    requires forall i | 0 <= i < |sessions| :: Admitted(sessions[i])
    ensures Admitted(Join(sessions))
  {
    if sessions != [] {
      AdmittedJoin(sessions[1..]);
    }
  }

  lemma {:induction false} PagesHold(root: Node, w: Walk, limits: seq<nat>)
    requires Stable(root) && Inv(root, w)
    ensures |Concat(Pages(root, w, limits))| <= Total(limits)
    decreases |limits|
  {
    hide Stable, Inv, NextPage;
    if limits != [] && NextPage(root, w, limits[0], None).1.Ok? {
      var next, page := NextPage(root, w, limits[0], None).0, NextPage(root, w, limits[0], None).1.value;
      PageHolds(root, w, limits[0]);
      PagesStep(root, w, limits);
      if !page.complete {
        PagesHold(root, next, limits[1..]);
        assert ([page] + Pages(root, next, limits[1..]))[1..] == Pages(root, next, limits[1..]);
      } else {
        assert ([page] + [])[1..] == [];
      }
    }
  }

  /** Once a page is complete or fails, further limits change nothing. */
  lemma {:induction false} PagesStop(root: Node, w: Walk, limits: seq<nat>, more: seq<nat>)
    requires Stable(root) && Inv(root, w) && limits != [] && !GoesOn(Pages(root, w, limits), limits)
    ensures Pages(root, w, limits + more) == Pages(root, w, limits)
    decreases |limits|
  {
    hide Stable, Inv, NextPage;
    assert (limits + more)[0] == limits[0] && (limits + more)[1..] == limits[1..] + more;
    if NextPage(root, w, limits[0], None).1.Ok? {
      PagesStep(root, w, limits);
      PagesStep(root, w, limits + more);
      var next, page := NextPage(root, w, limits[0], None).0, NextPage(root, w, limits[0], None).1.value;
      hide Pages;
      if !page.complete {
        NoLimits(root, next);
        assert [page] + [] == [page];
        assert limits[1..] != [];
        PagesStop(root, next, limits[1..], more);
      }
    }
  }

  lemma NoLimits(root: Node, w: Walk)
    requires Stable(root) && Inv(root, w)
    ensures Pages(root, w, []) == []
  {
  }

  lemma PlausibleRest(sessions: seq<seq<nat>>, staged: nat, taken: nat)
    requires sessions != [] && Plausible(sessions, staged) && taken <= Total(sessions[0])
    ensures Plausible(sessions[1..], staged + taken) && staged + Total(sessions[0]) <= U64_MAX
    ensures Admitted(sessions[0]) && Admitted(Join(sessions[1..]))
  {
    TotalOfBoth(sessions[0], Join(sessions[1..]));
    AdmittedJoin(sessions[1..]);
  }

  lemma ResumesIn(root: Node, scope: Scope, w: Walk, staged: nat, sessions: seq<seq<nat>>)
    requires Underway(root, scope, w, staged) && |sessions| > 1 && Plausible(sessions, staged)
    requires GoesOn(Pages(root, w, sessions[0]), sessions[0])
    ensures var pages := Pages(root, w, sessions[0]);
            && ContinuesAs(root, scope, staged, ResumeAfter(root, scope, staged, pages), pages, Join(sessions[1..]),
                           Pages(root, w, Join(sessions)))
            && Plausible(sessions[1..], staged + |Concat(pages)|)
  {
    hide Library, Stable, Inv, Pages, ResumeAfter, Concat, Plausible, Admitted, Total, Enumerated;
    var pages := Pages(root, w, sessions[0]);
    PagesHold(root, w, sessions[0]);
    PlausibleRest(sessions, staged, |Concat(pages)|);
    ResumedRunIsTheSameRun(root, scope, w, staged, sessions[0], Join(sessions[1..]));
    assert Join(sessions) == sessions[0] + Join(sessions[1..]);
    hide Join, Underway;
  }

  /** A run in several sessions, each but the first resumed from the last page of the one before. */
  ghost function InSessions(root: Node, scope: Scope, w: Walk, staged: nat, sessions: seq<seq<nat>>): seq<Page>
    requires Stable(root) && Inv(root, w)
    decreases |sessions|
  {
    if sessions == [] then []
    else
      var pages := Pages(root, w, sessions[0]);
      if |sessions| == 1 || !GoesOn(pages, sessions[0]) then pages
      else
        var resumed := ResumeAfter(root, scope, staged, pages);
        if resumed.Ok? && Inv(root, resumed.value) then
          pages + InSessions(root, scope, resumed.value, staged + |Concat(pages)|, sessions[1..])
        else pages
  }

  lemma SessionsUnfold(root: Node, scope: Scope, w: Walk, staged: nat, sessions: seq<seq<nat>>)
    requires Stable(root) && Inv(root, w) && sessions != []
    ensures var pages := Pages(root, w, sessions[0]);
            && (|sessions| == 1 || !GoesOn(pages, sessions[0]) ==> InSessions(root, scope, w, staged, sessions) == pages)
            && (|sessions| > 1 && GoesOn(pages, sessions[0]) ==>
                  var resumed := ResumeAfter(root, scope, staged, pages);
                  resumed.Ok? && Inv(root, resumed.value) ==>
                    InSessions(root, scope, w, staged, sessions)
                    == pages + InSessions(root, scope, resumed.value, staged + |Concat(pages)|, sessions[1..]))
  {
    hide Stable, Inv, ResumeAfter, Concat, Pages;
  }

  /** However often a run is interrupted and resumed, its pages are those of the uninterrupted one. */
  lemma {:induction false} SessionsAreOneRun(root: Node, scope: Scope, w: Walk, staged: nat, sessions: seq<seq<nat>>)
    requires Underway(root, scope, w, staged) && Plausible(sessions, staged)
    ensures InSessions(root, scope, w, staged, sessions) == Pages(root, w, Join(sessions))
    decreases |sessions|
  {
    hide Library, Stable, Inv, ResumeAfter, Concat, Plausible, Enumerated, Pages;
    if sessions == [] {
      NoLimits(root, w);
    } else {
      SessionsUnfold(root, scope, w, staged, sessions);
      hide InSessions;
      var pages := Pages(root, w, sessions[0]);
      if |sessions| == 1 {
        assert sessions[0] + Join([]) == sessions[0];
      } else if !GoesOn(pages, sessions[0]) {
        SessionsBegin(sessions, staged);
        PagesStop(root, w, sessions[0], Join(sessions[1..]));
      } else {
        ResumesIn(root, scope, w, staged, sessions);
        hide Join, GoesOn;
        SessionsAreOneRun(root, scope, ResumeAfter(root, scope, staged, pages).value, staged + |Concat(pages)|, sessions[1..]);
      }
    }
  }

  lemma SessionsBegin(sessions: seq<seq<nat>>, staged: nat)
    requires sessions != [] && Plausible(sessions, staged)
    ensures sessions[0] != [] && Join(sessions) != [] && Join(sessions)[0] == sessions[0][0]
  {
  }

  /** From construction on: the pages of all sessions together are the recursive listing of the scope. */
  lemma SessionsListTheScope(root: Node, scope: Scope, sessions: seq<seq<nat>>)
    requires Library(root) && ScopeFits(root, scope) && Plausible(sessions, 0) && |Join(sessions)| < U64_MAX
    requires !(LoneScope(root, scope) && sessions != [] && sessions[0][0] == 1)
    ensures New(root, scope).Ok? && Underway(root, scope, New(root, scope).value, 0)
    ensures var pages := InSessions(root, scope, New(root, scope).value, 0, sessions);
            Spells(pages, ScopeListing(root, scope), Join(sessions)) && NoPathTwice(Concat(pages))
  {
    hide Library, Stable, Inv, ScopeListing, ScopeFits, LoneScope, Spells, InSessions, Pages;
    NewIsUnderway(root, scope);
    AdmittedJoin(sessions);
    if sessions != [] {
      SessionsBegin(sessions, 0);
    }
    SessionsAreOneRun(root, scope, New(root, scope).value, 0, sessions);
    InventoryListsTheScope(root, scope, Join(sessions));
  }
}
