/** What a completed page says of its scope, and which durable frontiers a resumption accepts. */
module InventoryFrontiers {
  import opened Options
  import opened Inventory
  import opened InventoryTurns
  import opened InventoryPages
  import opened InventoryRetries
  import opened InventoryResume

  // ---------------------------------------------------------------- the last page

  /** The identity of the directory at the scope's path, if there is one. */
  function ScopeIdentity(root: Node, path: Path): Option<Identity> {
    match Lookup(root, path)
    case Some(node) => if node.entry.kind.Directory? then node.identity else None
    case None => None
  }

  /** The identity of the scope is known unless its directory is yet to be opened. */
  ghost predicate Identified(root: Node, w: Walk) {
    (w.stack == [] && w.pendingDirectory.Some?) || w.scopeIdentity == ScopeIdentity(root, w.scope)
  }

  lemma TurnIdentifies(root: Node, w: Walk)
    requires Inv(root, w) && Identified(root, w)
    ensures Identified(root, Turn(root, w).walk) && Turn(root, w).walk.scope == w.scope
  {
    if w.pendingEntry.None? && w.pendingDirectory.Some? {
      OpenTurn(root, w);
      assert PendingOk(root, w.pendingDirectory.value);
      hide Turn;
    }
    hide Lookup, Inv;
  }

  lemma {:induction false} PageLoopIdentifies(root: Node, w: Walk, entries: seq<Entry>, limit: nat, cancelAt: Option<nat>)
    requires Stable(root) && Inv(root, w) && Identified(root, w)
    ensures var next := PageLoop(root, w, entries, limit, cancelAt).0;
            Identified(root, next) && next.scope == w.scope && next.pageIndex == w.pageIndex
    decreases Turns(root, w)
  {
    hide Stable, Inv, Identified, Turns, Turn, Remaining;
    if |entries| < limit && cancelAt != Some(0) {
      TurnKeeps(root, w);
      TurnIdentifies(root, w);
      match Turn(root, w)
      case Emit(entry, next) => PageLoopIdentifies(root, next, entries + [entry], limit, Later(cancelAt));
      case Move(next) => PageLoopIdentifies(root, next, entries, limit, Later(cancelAt));
      case Finish(next) =>
      case Fail(error, next) =>
    }
  }

  /** The completed entry of the scope, and the last path as the cursor. */
  predicate LastPage(root: Node, scope: Path, page: Page) {
    && page.frontier == [FrontierEntry(0, scope, Completed, ScopeIdentity(root, scope), None, 0)]
    && page.cursor == if page.entries == [] then None else Some(page.entries[|page.entries| - 1].path)
  }

  lemma PageIdentifies(root: Node, w: Walk, limit: nat)
    requires Stable(root) && Inv(root, w) && Identified(root, w)
    ensures var (next, answer) := NextPage(root, w, limit, None);
            && Inv(root, next) && Identified(root, next) && next.scope == w.scope
            && (IsLast(answer) ==> LastPage(root, w.scope, answer.value) && answer.value.index == w.pageIndex)
  {
    RequestKeepsInv(root, w, limit);
    PageLoopIdentifies(root, w, [], limit, None);
    hide Stable, Inv, PageLoop, ScopeIdentity;
  }

  lemma {:induction false} LastAnswersSay(root: Node, w: Walk, limits: seq<nat>)
    requires Stable(root) && Inv(root, w) && Identified(root, w)
    ensures forall answer | answer in Requests(root, w, limits) && IsLast(answer) :: LastPage(root, w.scope, answer.value)
    decreases |limits|
  {
    hide Stable, Inv, Identified, NextPage, LastPage, Requests;
    if limits == [] {
      NoRequests(root, w);
    } else {
      RequestsBegin(root, w, limits);
      PageIdentifies(root, w, limits[0]);
      var (next, answer) := NextPage(root, w, limits[0], None);
      if !IsLast(answer) {
        LastAnswersSay(root, next, limits[1..]);
      }
    }
  }

  /**
   * From construction on, whatever fails in between: a page that reports completion carries the one
   * completed frontier entry of its scope, with the identity of the directory there, and its last path.
   */
  lemma CompletedPageSays(root: Node, scope: Scope, limits: seq<nat>)
    requires Library(root)
    ensures New(root, scope).Ok? && Ready(root, New(root, scope).value)
    ensures forall answer | answer in Requests(root, New(root, scope).value, limits) && IsLast(answer) ::
              LastPage(root, ScopePath(scope), answer.value)
  {
    NewWalk(root, scope);
    NewIdentifies(root, scope);
    hide New, Library, Stable, Inv, Identified, LastPage, Requests;
    LastAnswersSay(root, New(root, scope).value, limits);
  }

  lemma NewIdentifies(root: Node, scope: Scope)
    requires Library(root) && New(root, scope).Ok?
    ensures Identified(root, New(root, scope).value) && New(root, scope).value.scope == ScopePath(scope)
  {
    if scope.Subtree? && Lookup(root, scope.path).Some? {
      LookupIsSound(root, scope.path);
    }
    hide Find, WellFormed;
  }

  // ---------------------------------------------------------------- what a resumption accepts

  /** The directory can be opened again: it is there, and the same if its identity was known. */
  predicate Reopens(root: Node, durable: FrontierEntry) {
    match Lookup(root, durable.directory)
    case None => false
    case Some(node) => node.entry.kind.Directory? && (durable.identity.None? || durable.identity == node.identity)
  }

  predicate EntryFits(root: Node, frontier: seq<FrontierEntry>, i: nat)
    requires i < |frontier|
  {
    && frontier[i].ordinal == i
    && match frontier[i].state
       case Completed => false
       case Enumerating => i < 1024 && Reopens(root, frontier[i])
       case IsPending => frontier[i].after.None? && i == |frontier| - 1
  }

  predicate RestFits(root: Node, frontier: seq<FrontierEntry>, k: nat)
    requires k <= |frontier|
  {
    forall i: nat | k <= i < |frontier| :: EntryFits(root, frontier, i)
  }

  function Counts(frontier: seq<FrontierEntry>): nat {
    if frontier == [] then 0 else frontier[0].count + Counts(frontier[1..])
  }

  /** The cursor that a frontier stands for: the innermost one there is, else the pending directory. */
  function CursorOf(frontier: seq<FrontierEntry>): Option<Path> {
    if frontier == [] then None
    else
      var last, rest := frontier[|frontier| - 1], CursorOf(frontier[..|frontier| - 1]);
      if last.after.Some? then last.after
      else if last.state.IsPending? && rest.None? then Some(last.directory)
      else rest
  }

  ghost predicate Resumable(root: Node, staged: nat, cursor: Option<Path>, frontier: seq<FrontierEntry>) {
    && 1 <= |frontier| <= 1025
    && RestFits(root, frontier, 0)
    && Counts(frontier) <= staged && Counts(frontier) <= U64_MAX
    && cursor == CursorOf(frontier)
  }

  /** Where the frame of a durable entry stands: behind every path up to its cursor. */
  function FrameOf(root: Node, durable: FrontierEntry): Frame
    requires Reopens(root, durable)
  {
    var node := Lookup(root, durable.directory).value;
    Frame(durable.directory, node.identity, node.children,
          if durable.after.Some? then PartitionPoint(node.children, durable.after.value) else 0, durable.after, durable.count)
  }

  lemma OpensAgain(root: Node, w: Walk, durable: FrontierEntry)
    ensures OpenDirectory(root, w, durable.directory, durable.identity).Ok? <==>
            |w.stack| < MAX_DIRECTORY_DEPTH && Reopens(root, durable)
  {
    hide Lookup;
  }

  lemma RestoresOne(root: Node, w: Walk, frontier: seq<FrontierEntry>, k: nat)
    requires k < |frontier| && |w.stack| == k && w.pendingDirectory.None? && w.pendingEntry.None?
    requires frontier[k].ordinal == k && !frontier[k].state.Completed?
    ensures var r := RestoreOne(root, w, frontier[k], k, |frontier|);
            && (r.Ok? <==> EntryFits(root, frontier, k))
            && (r.Ok? && frontier[k].state.Enumerating? ==>
                  r.value.stack == w.stack + [FrameOf(root, frontier[k])] && r.value.pendingDirectory.None?)
            && (r.Ok? && frontier[k].state.IsPending? ==>
                  r.value.stack == w.stack
                  && r.value.pendingDirectory == Some(Pending(frontier[k].directory, frontier[k].identity)))
            && (r.Ok? ==> r.value.pendingEntry.None? && r.value.scope == w.scope && r.value.pageIndex == w.pageIndex
                          && r.value.complete == w.complete)
  {
    OpensAgain(root, w, frontier[k]);
    hide Lookup, PartitionPoint;
  }

  /** The frames of the entries from the `k`th on that were being enumerated. */
  function FramesFrom(root: Node, frontier: seq<FrontierEntry>, k: nat): seq<Frame>
    requires k <= |frontier| && RestFits(root, frontier, k)
    decreases |frontier| - k
  {
    if k == |frontier| || frontier[k].state.IsPending? then []
    else
      assert EntryFits(root, frontier, k);
      [FrameOf(root, frontier[k])] + FramesFrom(root, frontier, k + 1)
  }

  function PendingOf(frontier: seq<FrontierEntry>): Option<Pending> {
    if frontier == [] || !frontier[|frontier| - 1].state.IsPending? then None
    else Some(Pending(frontier[|frontier| - 1].directory, frontier[|frontier| - 1].identity))
  }

  lemma RestFitsFrom(root: Node, frontier: seq<FrontierEntry>, k: nat)
    requires k < |frontier|
    ensures RestFits(root, frontier, k) <==> EntryFits(root, frontier, k) && RestFits(root, frontier, k + 1)
    ensures RestFits(root, frontier, k) ==>
              && (frontier[k].state.Enumerating? ==>
                    FramesFrom(root, frontier, k) == [FrameOf(root, frontier[k])] + FramesFrom(root, frontier, k + 1))
              && (frontier[k].state.IsPending? ==>
                    k == |frontier| - 1 && FramesFrom(root, frontier, k) == [] == FramesFrom(root, frontier, k + 1))
    ensures Counts(frontier[k..]) == frontier[k].count + Counts(frontier[k + 1..])
  {
    assert frontier[k..][1..] == frontier[k + 1..] && frontier[k..][0] == frontier[k];
    hide Reopens, FrameOf;
  }

  /** The walk and the count that a frontier restores from its `k`th entry on. */
  ghost predicate RestoresAs(root: Node, w: Walk, frontier: seq<FrontierEntry>, k: nat, restored: Walk)
    requires k <= |frontier| && RestFits(root, frontier, k)
  {
    && restored.stack == w.stack + FramesFrom(root, frontier, k)
    && restored.pendingDirectory == (if k < |frontier| then PendingOf(frontier) else w.pendingDirectory)
    && restored.pendingEntry.None? && restored.scope == w.scope && restored.pageIndex == w.pageIndex
    && restored.complete == w.complete
  }

  lemma {:induction false} RestoresRest(root: Node, w: Walk, frontier: seq<FrontierEntry>, k: nat, active: nat)
    requires k <= |frontier| && w.pendingEntry.None?
    requires k < |frontier| ==> |w.stack| == k && w.pendingDirectory.None?
    ensures var r := RestoreAll(root, w, frontier, k, active);
            && (r.Ok? <==> RestFits(root, frontier, k) && (k < |frontier| ==> active + Counts(frontier[k..]) <= U64_MAX))
            && (r.Ok? ==> r.value.1 == active + Counts(frontier[k..]) && RestoresAs(root, w, frontier, k, r.value.0))
    decreases |frontier| - k
  {
    hide RestoreOne, EntryFits, FrameOf, FramesFrom, RestFits, Counts;
    if k == |frontier| {
      NothingToRestore(root, frontier);
    } else {
      var durable := frontier[k];
      RestFitsFrom(root, frontier, k);
      MustFit(root, frontier, k);
      if durable.ordinal == k && !durable.state.Completed? && active + durable.count <= U64_MAX {
        RestoresOne(root, w, frontier, k);
        var one := RestoreOne(root, w, durable, k, |frontier|);
        if one.Ok? {
          RestoresRest(root, one.value, frontier, k + 1, active + durable.count);
        }
      }
    }
  }

  lemma MustFit(root: Node, frontier: seq<FrontierEntry>, k: nat)
    requires k < |frontier|
    ensures EntryFits(root, frontier, k) ==>
              frontier[k].ordinal == k && !frontier[k].state.Completed? && (frontier[k].state.IsPending? ==> k == |frontier| - 1)
  {
  }

  lemma NothingToRestore(root: Node, frontier: seq<FrontierEntry>)
    ensures RestFits(root, frontier, |frontier|) && FramesFrom(root, frontier, |frontier|) == []
    ensures frontier[|frontier|..] == [] && Counts([]) == 0
  {
  }

  ghost predicate FrameIs(root: Node, durable: FrontierEntry, frame: Frame) {
    durable.state.Enumerating? && Reopens(root, durable) && frame == FrameOf(root, durable)
  }

  lemma {:induction false} FramesAre(root: Node, frontier: seq<FrontierEntry>, k: nat)
    requires k <= |frontier| && RestFits(root, frontier, k)
    ensures var frames := FramesFrom(root, frontier, k);
            && |frames| == |frontier| - k - (if k < |frontier| && PendingOf(frontier).Some? then 1 else 0)
            && forall i: nat | k <= i < k + |frames| :: FrameIs(root, frontier[i], frames[i - k])
    decreases |frontier| - k
  {
    hide Reopens, FrameOf;
    if k < |frontier| {
      assert EntryFits(root, frontier, k);
      RestFitsFrom(root, frontier, k);
      if !frontier[k].state.IsPending? {
        FramesAre(root, frontier, k + 1);
        var frames, rest := FramesFrom(root, frontier, k), FramesFrom(root, frontier, k + 1);
        hide FramesFrom;
        assert FrameIs(root, frontier[k], frames[0]);
        forall i: nat | k < i < k + |frames|
          ensures FrameIs(root, frontier[i], frames[i - k])
        {
          assert frames[i - k] == rest[i - (k + 1)];
        }
      }
    }
  }

  lemma {:induction false} CursorOfFrames(stack: seq<Frame>, frontier: seq<FrontierEntry>)
    requires |stack| == |frontier|
    requires forall i: nat | i < |stack| :: stack[i].after == frontier[i].after && !frontier[i].state.IsPending?
    ensures LastCursor(stack) == CursorOf(frontier)
  {
    if stack != [] {
      CursorOfFrames(stack[..|stack| - 1], frontier[..|frontier| - 1]);
    }
  }

  lemma CursorFits(root: Node, w: Walk, frontier: seq<FrontierEntry>)
    requires RestFits(root, frontier, 0) && frontier != []
    requires w.stack == FramesFrom(root, frontier, 0) && w.pendingDirectory == PendingOf(frontier)
    ensures DurableCursor(w) == CursorOf(frontier)
  {
    FramesAre(root, frontier, 0);
    hide FramesFrom, Reopens;
    var last := |frontier| - 1;
    if PendingOf(frontier).Some? {
      assert EntryFits(root, frontier, last);
      CursorOfFrames(w.stack, frontier[..last]);
    } else {
      CursorOfFrames(w.stack, frontier);
    }
  }

  /** The walk that a resumption rebuilds. */
  ghost predicate Continues(root: Node, scope: Scope, nextPage: nat, frontier: seq<FrontierEntry>, w: Walk) {
    && |w.stack| == |frontier| - (if PendingOf(frontier).Some? then 1 else 0)
    && (forall i: nat | i < |w.stack| :: FrameIs(root, frontier[i], w.stack[i]))
    && w.pendingDirectory == PendingOf(frontier) && w.pendingEntry.None? && !w.complete
    && w.scope == ScopePath(scope) && w.pageIndex == nextPage
  }

  /**
   * Exactly what a resumption accepts after the first page: ordinals in order, nothing completed,
   * directories that are still there and still the same, at most one pending directory and that last,
   * counts within what was staged, and the cursor that the frontier stands for. Everything else is
   * refused, and what is accepted is continued where the frontier says.
   */
  lemma ResumeIff(root: Node, scope: Scope, nextPage: nat, staged: nat, cursor: Option<Path>, frontier: seq<FrontierEntry>)
    requires nextPage >= 2
    ensures var r := Resume(root, scope, nextPage, staged, cursor, frontier);
            && (r.Ok? <==> Resumable(root, staged, cursor, frontier))
            && (r.Ok? ==> Continues(root, scope, nextPage, frontier, r.value))
  {
    hide RestoreAll, RestFits, Counts, CursorOf, DurableCursor, Continues;
    if frontier != [] {
      RestoredWalk(root, scope, nextPage, frontier);
    }
  }

  lemma RestoredWalk(root: Node, scope: Scope, nextPage: nat, frontier: seq<FrontierEntry>)
    requires frontier != []
    ensures var r := RestoreAll(root, Blank(ScopePath(scope), nextPage), frontier, 0, 0);
            && (r.Ok? <==> RestFits(root, frontier, 0) && Counts(frontier) <= U64_MAX)
            && (r.Ok? ==> r.value.1 == Counts(frontier) && DurableCursor(r.value.0) == CursorOf(frontier)
                          && Continues(root, scope, nextPage, frontier, r.value.0))
  {
    hide RestoreAll, RestFits, RestoresAs, Counts, CursorOf, DurableCursor, Continues;
    var blank := Blank(ScopePath(scope), nextPage);
    RestoresRest(root, blank, frontier, 0, 0);
    var r := RestoreAll(root, blank, frontier, 0, 0);
    assert frontier[0..] == frontier;
    if r.Ok? {
      RestoredContinues(root, scope, nextPage, frontier, r.value.0);
    }
  }

  lemma RestoredContinues(root: Node, scope: Scope, nextPage: nat, frontier: seq<FrontierEntry>, w: Walk)
    requires frontier != [] && RestFits(root, frontier, 0)
    requires RestoresAs(root, Blank(ScopePath(scope), nextPage), frontier, 0, w)
    ensures DurableCursor(w) == CursorOf(frontier) && Continues(root, scope, nextPage, frontier, w)
  {
    hide RestFits, EntryFits, FramesFrom, FrameOf, Reopens, CursorOf, DurableCursor, PendingOf, LastCursor, Lookup;
    assert w.stack == FramesFrom(root, frontier, 0);
    hide RestoresAs;
    hide FrameIs;
    CursorFits(root, w, frontier);
    FramesAre(root, frontier, 0);
    assert forall i: nat | i < |w.stack| :: i - 0 == i && FrameIs(root, frontier[i], w.stack[i - 0]);
  }

  /** Before the first page nothing may have been staged. */
  lemma FirstResumeIff(root: Node, scope: Scope, staged: nat, cursor: Option<Path>, frontier: seq<FrontierEntry>)
    requires Library(root)
    ensures Resume(root, scope, 1, staged, cursor, frontier).Ok? <==> staged == 0 && cursor.None? && frontier == []
    ensures Resume(root, scope, 1, 0, None, []) == New(root, scope)
    ensures Resume(root, scope, 0, staged, cursor, frontier) == Err(ResumeInvalid)
  {
    NewWalk(root, scope);
    hide New, Library;
  }

  // ---------------------------------------------------------------- seeking

  lemma {:induction false} LeqTransitive(a: Path, b: Path, c: Path)
    requires Leq(a, b) && Leq(b, c)
    ensures Leq(a, c)
  {
    if a != [] && a[0] == b[0] == c[0] {
      LeqTransitive(a[1..], b[1..], c[1..]);
    }
  }

  /** In a sorted directory seeking stops at the first path beyond the cursor, listed or not. */
  lemma {:induction false} SeekStopsBeyond(nodes: seq<Node>, cursor: Path)
    requires Sorted(nodes)
    ensures PartitionPoint(nodes, cursor) <= |nodes|
    ensures forall i | 0 <= i < |nodes| :: i < PartitionPoint(nodes, cursor) <==> Leq(nodes[i].entry.path, cursor)
  {
    if nodes != [] {
      SeekStopsBeyond(nodes[1..], cursor);
      assert forall i | 0 < i < |nodes| :: nodes[i] == nodes[1..][i - 1];
      forall i | 0 < i < |nodes| && Leq(nodes[i].entry.path, cursor)
        ensures Leq(nodes[0].entry.path, cursor)
      {
        LeqTransitive(nodes[0].entry.path, nodes[i].entry.path, cursor);
      }
    }
  }
}
