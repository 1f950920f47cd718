/** One iteration of the paging loop keeps the walk's invariant and makes exact progress. */
module InventoryTurns {
  import opened Options
  import opened Inventory

  /** Where a page may end: the last entry emitted is the cursor that `resume` will find. */
  ghost predicate EndsAt(w: Walk, path: Path) {
    && w.pendingEntry.None?
    && (w.stack != [] ==> Top(w).next > 0 && Top(w).after == Some(path))
    && (w.stack == [] && w.pendingDirectory.Some? ==> w.pendingDirectory.value.path == path)
  }

  ghost predicate Lone(w: Walk) {
    w.pendingEntry.Some? && w.pendingDirectory.None?
  }

  ghost function Enumerated(stack: seq<Frame>): nat {
    if stack == [] then 0 else stack[|stack| - 1].count + Enumerated(stack[..|stack| - 1])
  }

  /** The state after a turn is again a walk over the same scope, one turn closer to its end. */
  ghost predicate Steps(root: Node, w: Walk, next: Walk) {
    && Inv(root, w) && Inv(root, next)
    && next.scope == w.scope && next.pageIndex == w.pageIndex && next.complete == w.complete
    && next.pendingEntry.None?
    && Turns(root, w) == Turns(root, next) + 1
  }

  lemma EmitPendingEntry(root: Node, w: Walk)
    requires Stable(root) && Inv(root, w) && w.pendingEntry.Some?
    ensures Turn(root, w) == Emit(w.pendingEntry.value, w.(pendingEntry := None))
    ensures var next := w.(pendingEntry := None);
            && Steps(root, w, next)
            && Remaining(root, w) == [w.pendingEntry.value] + Remaining(root, next)
            && EndsAt(next, w.pendingEntry.value.path)
  {
    var next := w.(pendingEntry := None);
    assert Remaining(root, w) == [w.pendingEntry.value] + Remaining(root, next);
  }

  lemma StackOnTop(stack: seq<Frame>, frame: Frame)
    ensures StackListing(stack + [frame]) == Listing(Unread(frame)) + StackListing(stack)
    ensures StackTurns(stack + [frame]) == 1 + TurnsFor(Unread(frame)) + StackTurns(stack)
    ensures Enumerated(stack + [frame]) == frame.count + Enumerated(stack)
  {
    assert (stack + [frame])[..|stack|] == stack;
  }

  function FreshFrame(path: Path, node: Node): Frame {
    Frame(path, node.identity, node.children, 0, None, 0)
  }

  lemma OpenTurn(root: Node, w: Walk)
    requires Inv(root, w) && w.pendingEntry.None? && w.pendingDirectory.Some?
    ensures |w.stack| == MAX_DIRECTORY_DEPTH ==> Turn(root, w) == Fail(DepthExceeded, w.(pendingDirectory := None))
    ensures |w.stack| < MAX_DIRECTORY_DEPTH ==>
              var node := Lookup(root, w.pendingDirectory.value.path).value;
              Turn(root, w) == Move(w.(pendingDirectory := None,
                                       scopeIdentity := if w.stack == [] then node.identity else w.scopeIdentity,
                                       stack := w.stack + [FreshFrame(w.pendingDirectory.value.path, node)]))
  {
  }

  lemma OpenInv(root: Node, w: Walk, node: Node)
    requires Inv(root, w) && w.pendingEntry.None? && w.pendingDirectory.Some? && |w.stack| < MAX_DIRECTORY_DEPTH
    requires Lookup(root, w.pendingDirectory.value.path) == Some(node)
    ensures Inv(root, w.(pendingDirectory := None,
                         scopeIdentity := if w.stack == [] then node.identity else w.scopeIdentity,
                         stack := w.stack + [FreshFrame(w.pendingDirectory.value.path, node)]))
  {
    var frame := FreshFrame(w.pendingDirectory.value.path, node);
    assert FrameOk(root, frame);
    if w.stack != [] {
      assert FrameOk(root, Top(w));
    }
  }

  /** Opening a pending directory succeeds exactly below the depth limit. */
  lemma OpenPending(root: Node, w: Walk)
    requires Inv(root, w) && w.pendingEntry.None? && w.pendingDirectory.Some?
    ensures |w.stack| == MAX_DIRECTORY_DEPTH ==> Turn(root, w) == Fail(DepthExceeded, w.(pendingDirectory := None))
    ensures |w.stack| < MAX_DIRECTORY_DEPTH ==>
              && Turn(root, w).Move?
              && Steps(root, w, Turn(root, w).walk)
              && Remaining(root, w) == Remaining(root, Turn(root, w).walk)
              && Turn(root, w).walk.pendingDirectory.None?
              && Enumerated(Turn(root, w).walk.stack) == Enumerated(w.stack)
  {
    hide Lookup, Listing, TurnsFor, Turn, FrameOk;
    OpenTurn(root, w);
    if |w.stack| < MAX_DIRECTORY_DEPTH {
      assert Lookup(root, w.pendingDirectory.value.path).Some?;
      var node := Lookup(root, w.pendingDirectory.value.path).value;
      var frame := FreshFrame(w.pendingDirectory.value.path, node);
      OpenInv(root, w, node);
      hide Inv;
      StackOnTop(w.stack, frame);
      assert Unread(frame) == node.children;
    }
  }

  lemma NothingUnread()
    ensures Listing([]) == [] && TurnsFor([]) == 0
  {
  }

  /** The frame after one more of its entries has been read. */
  function ReadOne(frame: Frame): Frame
    requires frame.next < |frame.entries|
  {
    frame.(next := frame.next + 1, after := Some(frame.entries[frame.next].entry.path), count := frame.count + 1)
  }

  lemma ReadTurn(root: Node, w: Walk)
    requires Stable(root) && Inv(root, w) && w.pendingEntry.None? && w.pendingDirectory.None?
    requires w.stack != [] && Top(w).next < |Top(w).entries|
    ensures var child := Top(w).entries[Top(w).next];
            && Lookup(root, child.entry.path) == Some(child)
            && (!child.entry.kind.Directory? ==> child.children == [])
            && Turn(root, w) == Emit(child.entry, AfterRead(w, child))
  {
    var frame := Top(w);
    assert FrameOk(root, frame);
    assert frame.entries[frame.next] == ChildrenOf(root, frame.directory)[frame.next];
    assert w.stack[|w.stack| - 1 := ReadOne(frame)] == w.stack[..|w.stack| - 1] + [ReadOne(frame)];
  }

  function AfterRead(w: Walk, child: Node): Walk
    requires w.stack != [] && Top(w).next < |Top(w).entries|
  {
    w.(stack := w.stack[..|w.stack| - 1] + [ReadOne(Top(w))],
       pendingDirectory := if child.entry.kind.Directory? then Some(Pending(child.entry.path, child.identity)) else None)
  }

  lemma ReadInv(root: Node, w: Walk, child: Node)
    requires Inv(root, w) && w.pendingEntry.None? && w.pendingDirectory.None?
    requires w.stack != [] && Top(w).next < |Top(w).entries|
    requires child == Top(w).entries[Top(w).next] && Lookup(root, child.entry.path) == Some(child)
    ensures Inv(root, AfterRead(w, child)) && EndsAt(AfterRead(w, child), child.entry.path)
  {
    assert FrameOk(root, Top(w));
    assert FrameOk(root, ReadOne(Top(w)));
  }

  lemma Regroup(a: seq<Entry>, b: seq<Entry>, c: seq<Entry>, d: seq<Entry>)
    ensures (a + b + c) + d == a + (b + (c + d))
  {
  }

  lemma ReadStack(below: seq<Frame>, frame: Frame)
    requires frame.next < |frame.entries|
    ensures var child := frame.entries[frame.next];
            && StackListing(below + [frame])
                 == [child.entry] + (Listing(child.children) + StackListing(below + [ReadOne(frame)]))
            && StackTurns(below + [frame])
                 == 1 + (if child.entry.kind.Directory? then 2 + TurnsFor(child.children) else 0)
                    + StackTurns(below + [ReadOne(frame)])
            && Enumerated(below + [ReadOne(frame)]) == Enumerated(below + [frame]) + 1
  {
    var child := frame.entries[frame.next];
    StackOnTop(below, frame);
    StackOnTop(below, ReadOne(frame));
    Regroup([child.entry], Listing(child.children), Listing(Unread(ReadOne(frame))), StackListing(below));
  }

  lemma ReadCounts(root: Node, w: Walk, child: Node)
    requires w.pendingEntry.None? && w.pendingDirectory.None? && w.stack != [] && Top(w).next < |Top(w).entries|
    requires child == Top(w).entries[Top(w).next] && ChildrenOf(root, child.entry.path) == child.children
    requires !child.entry.kind.Directory? ==> child.children == []
    ensures Remaining(root, w) == [child.entry] + Remaining(root, AfterRead(w, child))
    ensures Turns(root, w) == Turns(root, AfterRead(w, child)) + 1
    ensures Enumerated(AfterRead(w, child).stack) == Enumerated(w.stack) + 1
  {
    hide Lookup, ChildrenOf, Listing, TurnsFor, StackListing, StackTurns, Enumerated;
    NothingUnread();
    var after := AfterRead(w, child);
    assert w.stack == w.stack[..|w.stack| - 1] + [Top(w)];
    ReadStack(w.stack[..|w.stack| - 1], Top(w));
    assert Remaining(root, w) == StackListing(w.stack);
    assert Remaining(root, after) == Listing(child.children) + StackListing(after.stack);
  }

  lemma ReadEntry(root: Node, w: Walk)
    requires Stable(root) && Inv(root, w) && w.pendingEntry.None? && w.pendingDirectory.None?
    requires w.stack != [] && Top(w).next < |Top(w).entries|
    ensures var child := Top(w).entries[Top(w).next];
            var next := AfterRead(w, child);
            && Turn(root, w) == Emit(child.entry, next)
            && Lookup(root, child.entry.path) == Some(child)
            && Steps(root, w, next)
            && Remaining(root, w) == [child.entry] + Remaining(root, next)
            && EndsAt(next, child.entry.path)
            && Enumerated(next.stack) == Enumerated(w.stack) + 1
  {
    var child := Top(w).entries[Top(w).next];
    ReadTurn(root, w);
    ReadInv(root, w, child);
    ReadCounts(root, w, child);
  }

  /** Every turn of the loop, in one statement. */
  lemma TurnKeeps(root: Node, w: Walk)
    requires Stable(root) && Inv(root, w)
    ensures match Turn(root, w)
            case Emit(entry, next) =>
              && !w.complete && Steps(root, w, next) && Remaining(root, w) == [entry] + Remaining(root, next)
              && EndsAt(next, entry.path) && Enumerated(next.stack) <= Enumerated(w.stack) + 1
              && (next.stack == [] && next.pendingDirectory.None? ==> Lone(w))
            case Move(next) =>
              && Steps(root, w, next) && Remaining(root, w) == Remaining(root, next)
              && Enumerated(next.stack) <= Enumerated(w.stack)
              && w.pendingEntry.None?
            case Finish(next) =>
              && Inv(root, next) && next == w.(complete := true)
              && Turns(root, w) == 0 && Remaining(root, w) == [] == Remaining(root, next)
              && next.stack == [] && next.pendingDirectory.None? && next.pendingEntry.None?
            case Fail(error, next) =>
              && error == DepthExceeded && |w.stack| == MAX_DIRECTORY_DEPTH
              && w.pendingDirectory.Some? && w.pendingEntry.None? && next == w.(pendingDirectory := None)
  {
    if w.pendingEntry.Some? {
      EmitPendingEntry(root, w);
    } else if w.pendingDirectory.Some? {
      OpenPending(root, w);
    } else if w.stack == [] {
    } else {
      assert FrameOk(root, Top(w));
      if Top(w).next >= |Top(w).entries| {
      } else {
        ReadEntry(root, w);
      }
    }
  }

  // ---------------------------------------------------------------- depth

  ghost predicate FrameFits(stack: seq<Frame>, i: nat)
    requires i < |stack|
  {
    i + 1 + Height(Unread(stack[i])) <= MAX_DIRECTORY_DEPTH
  }

  /** Everything still to be visited stays within the depth limit. */
  ghost predicate Fits(root: Node, w: Walk) {
    && (forall i: nat | i < |w.stack| :: FrameFits(w.stack, i))
    && (w.pendingDirectory.Some? ==>
          |w.stack| + 1 + Height(ChildrenOf(root, w.pendingDirectory.value.path)) <= MAX_DIRECTORY_DEPTH)
  }

  lemma StackFits(stack: seq<Frame>, frame: Frame)
    ensures (forall i: nat | i < |stack| + 1 :: FrameFits(stack + [frame], i))
       <==> (forall i: nat | i < |stack| :: FrameFits(stack, i)) && |stack| + 1 + Height(Unread(frame)) <= MAX_DIRECTORY_DEPTH
  {
    var taller := stack + [frame];
    assert forall i: nat | i < |stack| :: FrameFits(taller, i) <==> FrameFits(stack, i);
    assert FrameFits(taller, |stack|) <==> |stack| + 1 + Height(Unread(frame)) <= MAX_DIRECTORY_DEPTH;
  }

  /** A turn fails, or else it preserves both fitting and not fitting. */
  lemma TurnFits(root: Node, w: Walk)
    requires Stable(root) && Inv(root, w)
    ensures Turn(root, w).Fail? ==> !Fits(root, w)
    ensures Turn(root, w).Finish? ==> Fits(root, w)
    ensures !Turn(root, w).Fail? ==> (Fits(root, w) <==> Fits(root, Turn(root, w).walk))
  {
    if w.pendingEntry.Some? {
    } else if w.pendingDirectory.Some? {
      OpenFits(root, w);
    } else if w.stack != [] {
      assert FrameOk(root, Top(w));
      assert w.stack == w.stack[..|w.stack| - 1] + [Top(w)];
      StackFits(w.stack[..|w.stack| - 1], Top(w));
      if Top(w).next < |Top(w).entries| {
        ReadFits(root, w);
      }
    }
  }

  lemma OpenFits(root: Node, w: Walk)
    requires Inv(root, w) && w.pendingEntry.None? && w.pendingDirectory.Some?
    ensures Turn(root, w).Fail? ==> !Fits(root, w)
    ensures !Turn(root, w).Fail? ==> (Fits(root, w) <==> Fits(root, Turn(root, w).walk))
  {
    if |w.stack| < MAX_DIRECTORY_DEPTH {
      var path := w.pendingDirectory.value.path;
      var node := Lookup(root, path).value;
      var frame := Frame(path, node.identity, node.children, 0, None, 0);
      assert Turn(root, w).walk.stack == w.stack + [frame];
      assert Unread(frame) == node.children;
      StackFits(w.stack, frame);
    }
  }

  ghost predicate BelowFits(stack: seq<Frame>) {
    forall i: nat | i < |stack| :: FrameFits(stack, i)
  }

  lemma FitsTop(root: Node, w: Walk, below: seq<Frame>, frame: Frame)
    requires w.stack == below + [frame]
    ensures Fits(root, w) <==>
            && BelowFits(below) && |below| + 1 + Height(Unread(frame)) <= MAX_DIRECTORY_DEPTH
            && (w.pendingDirectory.Some? ==>
                  |below| + 2 + Height(ChildrenOf(root, w.pendingDirectory.value.path)) <= MAX_DIRECTORY_DEPTH)
  {
    StackFits(below, frame);
    hide FrameFits, Height, ChildrenOf;
  }

  lemma ReadFits(root: Node, w: Walk)
    requires Stable(root) && Inv(root, w) && w.pendingEntry.None? && w.pendingDirectory.None?
    requires w.stack != [] && Top(w).next < |Top(w).entries|
    ensures Turn(root, w).Emit? && (Fits(root, w) <==> Fits(root, Turn(root, w).walk))
  {
    hide Lookup, Inv, Stable, Remaining, Turns, Steps, Turn, Fits, EndsAt, Enumerated;
    var below, child := w.stack[..|w.stack| - 1], Top(w).entries[Top(w).next];
    var next := AfterRead(w, child);
    ReadEntry(root, w);
    hide Height;
    FitsTop(root, w, below, Top(w));
    FitsTop(root, next, below, ReadOne(Top(w)));
  }
}
