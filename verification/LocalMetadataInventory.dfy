/** The inventory object itself: loops and field updates, proved against the functions of the walk. */
module LocalMetadataInventory {
  import opened Options
  import opened Inventory
  import opened InventoryTurns
  import opened InventoryPages
  import opened InventoryResume

  /** How one iteration of the page loop went. */
  datatype Progress = Emitted(entry: Entry) | Moved | Exhausted | Failed(error: Error)

  class MetadataInventory {
    const root: Node
    const scopeRelativeDirectory: Path
    var scopeIdentity: Option<Identity>
    var stack: seq<Frame>
    var pendingEntry: Option<Entry>
    var pendingDirectory: Option<Pending>
    var pageIndex: nat
    var isComplete: bool

    ghost function View(): Walk
      reads this
    {
      Walk(scopeRelativeDirectory, scopeIdentity, stack, pendingEntry, pendingDirectory, pageIndex, isComplete)
    }

    constructor (root: Node, scope: Path, pageIndex: nat)
      ensures this.root == root && View() == Blank(scope, pageIndex)
    {
      this.root := root;
      scopeRelativeDirectory := scope;
      scopeIdentity, stack, pendingEntry, pendingDirectory := None, [], None, None;
      this.pageIndex, isComplete := pageIndex, false;
    }

    static method Start(root: Node, scope: Scope) returns (r: Result<MetadataInventory, Error>)
      ensures match New(root, scope)
              case Ok(w) => r.Ok? && fresh(r.value) && r.value.root == root && r.value.View() == w
              case Err(error) => r == Err(error)
    {
      var inventory := new MetadataInventory(root, ScopePath(scope), 1);
      if scope.RootScope? {
        var opening := inventory.Open("", None);
        if opening.Some? {
          return Err(opening.value);
        }
        return Ok(inventory);
      }
      var found := Lookup(root, scope.path);
      if found.None? {
        inventory.isComplete := true;
        return Ok(inventory);
      }
      if found.value.entry.kind.Directory? {
        inventory.scopeIdentity := found.value.identity;
        inventory.pendingDirectory := Some(Pending(found.value.entry.path, found.value.identity));
      }
      inventory.pendingEntry := Some(found.value.entry);
      return Ok(inventory);
    }

    method Open(path: Path, expected: Option<Identity>) returns (failure: Option<Error>)
      modifies this
      ensures match OpenDirectory(root, old(View()), path, expected)
              case Ok(w) => failure.None? && View() == w
              case Err(error) => failure == Some(error) && View() == old(View())
    {
      if |stack| >= MAX_DIRECTORY_DEPTH {
        return Some(DepthExceeded);
      }
      var found := Lookup(root, path);
      if found.None? || !found.value.entry.kind.Directory? {
        return Some(Unreadable);
      }
      if expected.Some? && found.value.identity != expected {
        return Some(IdentityChanged);
      }
      if stack == [] && path == scopeRelativeDirectory {
        scopeIdentity := found.value.identity;
      }
      stack := stack + [Frame(path, found.value.identity, found.value.children, 0, None, 0)];
      return None;
    }

    /** One entry of the top frame is read. */
    method ReadNext() returns (entry: Entry)
      requires pendingEntry.None? && pendingDirectory.None? && stack != []
      requires stack[|stack| - 1].next < |stack[|stack| - 1].entries|
      modifies this
      ensures Turn(root, old(View())) == Emit(entry, View())
    {
      var current := stack[|stack| - 1];
      entry := current.entries[current.next].entry;
      current := current.(next := current.next + 1, after := Some(entry.path), count := current.count + 1);
      stack := stack[|stack| - 1 := current];
      if entry.kind.Directory? {
        pendingDirectory := Some(Pending(entry.path, Identify(root, entry.path)));
      }
    }

    method NextPage(maxEntries: nat, cancelAt: Option<nat>) returns (r: Result<Page, Error>)
      requires Stable(root) && Inv(root, View())
      modifies this
      ensures (View(), r) == InventoryPages.NextPage(root, old(View()), maxEntries, cancelAt)
    {
      hide Stable, Inv, PageLoop;
      if maxEntries == 0 || maxEntries > MAX_PAGE_ENTRIES {
        return Err(PageLimitInvalid);
      }
      if pageIndex > 1 && isComplete && pendingEntry.None? && stack == [] {
        return Err(SourceComplete);
      }
      var filled := Fill(maxEntries, cancelAt);
      if filled.Err? {
        return Err(filled.error);
      }
      var complete := isComplete && pendingEntry.None? && pendingDirectory.None? && stack == [];
      var frontier := Frontier(complete);
      if frontier == [] {
        return Err(FrontierInvalid);
      }
      var entries := filled.value;
      var cursor := if entries == [] then None else Some(entries[|entries| - 1].path);
      var page := Page(pageIndex, entries, cursor, complete, frontier);
      if pageIndex >= U64_MAX {
        return Err(PageOverflow);
      }
      pageIndex := pageIndex + 1;
      return Ok(page);
    }

    /** The body of the page loop. */
    method TakeTurn() returns (progress: Progress)
      modifies this
      ensures match progress
              case Emitted(entry) => Turn(root, old(View())) == Emit(entry, View())
              case Moved => Turn(root, old(View())) == Move(View())
              case Exhausted => Turn(root, old(View())) == Finish(View())
              case Failed(error) => Turn(root, old(View())) == Fail(error, View())
    {
      if pendingEntry.Some? {
        var entry := pendingEntry.value;
        pendingEntry := None;
        return Emitted(entry);
      }
      if pendingDirectory.Some? {
        var directory := pendingDirectory.value;
        pendingDirectory := None;
        var failure := Open(directory.path, directory.identity);
        return if failure.Some? then Failed(failure.value) else Moved;
      }
      if stack == [] {
        isComplete := true;
        return Exhausted;
      }
      if stack[|stack| - 1].next >= |stack[|stack| - 1].entries| {
        stack := stack[..|stack| - 1];
        return Moved;
      }
      var entry := ReadNext();
      return Emitted(entry);
    }

    /** The page loop, one turn per iteration. */
    method Fill(maxEntries: nat, cancelAt: Option<nat>) returns (r: Result<seq<Entry>, Error>)
      requires Stable(root) && Inv(root, View())
      modifies this
      ensures (View(), r) == PageLoop(root, old(View()), [], maxEntries, cancelAt)
    {
      hide Stable, Inv, Turn, Remaining, Turns;
      var entries: seq<Entry> := [];
      var untilCancelled := cancelAt;
      while |entries| < maxEntries
        invariant Inv(root, View())
        invariant PageLoop(root, View(), entries, maxEntries, untilCancelled)
               == PageLoop(root, old(View()), [], maxEntries, cancelAt)
        decreases Turns(root, View())
      {
        if untilCancelled == Some(0) {
          return Err(Cancelled);
        }
        TurnKeeps(root, View());
        var progress := TakeTurn();
        untilCancelled := Later(untilCancelled);
        match progress {
          case Emitted(entry) => entries := entries + [entry];
          case Moved =>
          case Exhausted => return Ok(entries);
          case Failed(error) => return Err(error);
        }
      }
      return Ok(entries);
    }

    method Frontier(complete: bool) returns (frontier: seq<FrontierEntry>)
      ensures frontier == FrontierOf(View(), complete)
    {
      if complete {
        return [FrontierEntry(0, scopeRelativeDirectory, Completed, scopeIdentity, None, 0)];
      }
      frontier := [];
      for i := 0 to |stack|
        invariant frontier == StackFrontier(stack)[..i]
      {
        var frame := stack[i];
        frontier := frontier + [FrontierEntry(|frontier|, frame.directory, Enumerating, frame.identity, frame.after, frame.count)];
      }
      if pendingDirectory.Some? {
        frontier := frontier + [FrontierEntry(|frontier|, pendingDirectory.value.path, IsPending, pendingDirectory.value.identity, None, 0)];
      }
    }

    static method Restart(root: Node, scope: Scope, nextPage: nat, staged: nat, cursor: Option<Path>, frontier: seq<FrontierEntry>)
      returns (r: Result<MetadataInventory, Error>)
      ensures match Resume(root, scope, nextPage, staged, cursor, frontier)
              case Ok(w) => r.Ok? && fresh(r.value) && r.value.root == root && r.value.View() == w
              case Err(error) => r == Err(error)
    {
      if nextPage == 0 {
        return Err(ResumeInvalid);
      }
      if nextPage == 1 {
        if staged != 0 || cursor.Some? || frontier != [] {
          return Err(FrontierInvalid);
        }
        r := Start(root, scope);
        return;
      }
      if frontier == [] || |frontier| > MAX_DIRECTORY_DEPTH + 1 {
        return Err(FrontierInvalid);
      }
      var inventory := new MetadataInventory(root, ScopePath(scope), nextPage);
      var active: nat := 0;
      for ordinal := 0 to |frontier|
        invariant fresh(inventory) && inventory.root == root
        invariant RestoreAll(root, inventory.View(), frontier, ordinal, active)
               == RestoreAll(root, Blank(ScopePath(scope), nextPage), frontier, 0, 0)
      {
        var durable := frontier[ordinal];
        if durable.ordinal != ordinal || durable.state.Completed? || inventory.pendingDirectory.Some? {
          return Err(FrontierInvalid);
        }
        if active + durable.count > U64_MAX {
          return Err(FrontierInvalid);
        }
        active := active + durable.count;
        var failure := inventory.RestoreEntry(durable, ordinal, |frontier|);
        if failure.Some? {
          return Err(failure.value);
        }
      }
      var durableCursor := inventory.FindCursor();
      if active > staged || durableCursor != cursor {
        return Err(FrontierInvalid);
      }
      return Ok(inventory);
    }

    method RestoreEntry(durable: FrontierEntry, ordinal: nat, length: nat) returns (failure: Option<Error>)
      requires durable.ordinal == ordinal && !durable.state.Completed? && pendingDirectory.None?
      modifies this
      ensures match RestoreOne(root, old(View()), durable, ordinal, length)
              case Ok(w) => failure.None? && View() == w
              case Err(error) => failure == Some(error)
    {
      if durable.state.Enumerating? {
        failure := Open(durable.directory, durable.identity);
        if failure.Some? {
          return;
        }
        var frame := stack[|stack| - 1];
        if durable.after.Some? {
          frame := frame.(next := PartitionPoint(frame.entries, durable.after.value));
        }
        frame := frame.(after := durable.after, count := durable.count);
        stack := stack[|stack| - 1 := frame];
        if ordinal == 0 {
          scopeIdentity := durable.identity;
        }
      } else {
        if durable.after.Some? || ordinal + 1 != length {
          return Some(FrontierInvalid);
        }
        pendingDirectory := Some(Pending(durable.directory, durable.identity));
        failure := None;
      }
    }

    /** The cursor of the deepest frame that has one, else the pending directory. */
    method FindCursor() returns (cursor: Option<Path>)
      ensures cursor == DurableCursor(View())
    {
      var i := |stack|;
      assert stack[..i] == stack;
      while i > 0
        invariant 0 <= i <= |stack|
        invariant LastCursor(stack) == LastCursor(stack[..i])
      {
        i := i - 1;
        assert stack[..i + 1][..i] == stack[..i];
        if stack[i].after.Some? {
          return stack[i].after;
        }
      }
      return if pendingDirectory.Some? then Some(pendingDirectory.value.path) else None;
    }
  }
}
