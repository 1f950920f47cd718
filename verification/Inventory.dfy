/**
 * The paged, resumable metadata inventory (rust/src/adapters/local_metadata_inventory.rs).
 *
 * The library is a finite ordered tree that does not change during the walk. `Walk` is the value
 * of an inventory's fields; `Turn` is one iteration of the loop in `next_page`.
 */
module Inventory {
  import opened Options

  const MAX_PAGE_ENTRIES: nat := 4096
  const MAX_DIRECTORY_DEPTH: nat := 1024

  type Path = string
  type Identity = nat

  datatype Kind = File | Directory | Other

  datatype Entry = Entry(path: Path, kind: Kind, evidence: int)

  datatype Node = Node(entry: Entry, identity: Option<Identity>, children: seq<Node>)

  // ---------------------------------------------------------------- the library tree

  /** Byte-wise order of relative paths. */
  predicate Leq(left: Path, right: Path) {
    left == [] || (right != [] && (left[0] < right[0] || (left[0] == right[0] && Leq(left[1..], right[1..]))))
  }

  ghost predicate Sorted(nodes: seq<Node>) {
    forall i, j | 0 <= i < j < |nodes| ::
      Leq(nodes[i].entry.path, nodes[j].entry.path) && nodes[i].entry.path != nodes[j].entry.path
  }

  function PathsOf(nodes: seq<Node>): set<Path> {
    if nodes == [] then {} else {nodes[0].entry.path} + PathsOf(nodes[0].children) + PathsOf(nodes[1..])
  }

  /** Sorted directories, nothing below a non-directory, and no path twice. */
  ghost predicate WellFormed(nodes: seq<Node>) {
    Sorted(nodes) && Grounded(nodes)
  }

  ghost predicate Grounded(nodes: seq<Node>) {
    nodes != [] ==>
      && (!nodes[0].entry.kind.Directory? ==> nodes[0].children == [])
      && Sorted(nodes[0].children)
      && Grounded(nodes[0].children)
      && Grounded(nodes[1..])
      && nodes[0].entry.path !in PathsOf(nodes[0].children) + PathsOf(nodes[1..])
      && PathsOf(nodes[0].children) !! PathsOf(nodes[1..])
  }

  ghost predicate Library(root: Node) {
    && root.entry.path == "" && root.entry.kind.Directory?
    && WellFormed(root.children)
    && "" !in PathsOf(root.children)
  }

  function Find(nodes: seq<Node>, path: Path): Option<Node> {
    if nodes == [] then None
    else if nodes[0].entry.path == path then Some(nodes[0])
    else
      match Find(nodes[0].children, path)
      case Some(node) => Some(node)
      case None => Find(nodes[1..], path)
  }

  function Lookup(root: Node, path: Path): Option<Node> {
    if path == root.entry.path then Some(root) else Find(root.children, path)
  }

  function ChildrenOf(root: Node, path: Path): seq<Node> {
    match Lookup(root, path)
    case Some(node) => node.children
    case None => []
  }

  /** The recursive preorder listing: the reference that the paged walk must reproduce. */
  function Listing(nodes: seq<Node>): seq<Entry> {
    if nodes == [] then [] else [nodes[0].entry] + Listing(nodes[0].children) + Listing(nodes[1..])
  }

  /** Directories that must be open at once to visit everything below. */
  function Height(nodes: seq<Node>): nat {
    if nodes == [] then 0
    else
      var first := if nodes[0].entry.kind.Directory? then 1 + Height(nodes[0].children) else 0;
      var rest := Height(nodes[1..]);
      if first < rest then rest else first
  }

  // ---------------------------------------------------------------- the walk

  datatype Frame = Frame(
    directory: Path,
    identity: Option<Identity>,
    entries: seq<Node>,
    next: nat,
    after: Option<Path>,
    count: nat)

  datatype Pending = Pending(path: Path, identity: Option<Identity>)

  datatype Walk = Walk(
    scope: Path,
    scopeIdentity: Option<Identity>,
    stack: seq<Frame>,
    pendingEntry: Option<Entry>,
    pendingDirectory: Option<Pending>,
    pageIndex: nat,
    complete: bool)

  datatype Scope = RootScope | Subtree(path: Path)

  datatype Error =
    | PageLimitInvalid | SourceComplete | Cancelled | DepthExceeded | IdentityChanged
    | Unreadable | FrontierInvalid | PageOverflow | ResumeInvalid

  datatype FrontierState = IsPending | Enumerating | Completed

  datatype FrontierEntry = FrontierEntry(
    ordinal: nat,
    directory: Path,
    state: FrontierState,
    identity: Option<Identity>,
    after: Option<Path>,
    count: nat)

  datatype Page = Page(index: nat, entries: seq<Entry>, cursor: Option<Path>, complete: bool, frontier: seq<FrontierEntry>)

  function Top(w: Walk): Frame
    requires w.stack != []
  {
    w.stack[|w.stack| - 1]
  }

  function WithTop(w: Walk, frame: Frame): Walk
    requires w.stack != []
  {
    w.(stack := w.stack[|w.stack| - 1 := frame])
  }

  function Identify(root: Node, path: Path): Option<Identity> {
    match Lookup(root, path)
    case Some(node) => node.identity
    case None => None
  }

  function ScopePath(scope: Scope): Path {
    match scope
    case RootScope => ""
    case Subtree(path) => path
  }

  function OpenDirectory(root: Node, w: Walk, path: Path, expected: Option<Identity>): Result<Walk, Error> {
    if |w.stack| >= MAX_DIRECTORY_DEPTH then Err(DepthExceeded)
    else
      match Lookup(root, path)
      case None => Err(Unreadable)
      case Some(node) =>
        if !node.entry.kind.Directory? then Err(Unreadable)
        else if expected.Some? && node.identity != expected then Err(IdentityChanged)
        else
          var identity := if w.stack == [] && path == w.scope then node.identity else w.scopeIdentity;
          Ok(w.(scopeIdentity := identity,
                stack := w.stack + [Frame(path, node.identity, node.children, 0, None, 0)]))
  }

  function Blank(scope: Path, pageIndex: nat): Walk {
    Walk(scope, None, [], None, None, pageIndex, false)
  }

  function New(root: Node, scope: Scope): Result<Walk, Error> {
    var blank := Blank(ScopePath(scope), 1);
    match scope
    case RootScope => OpenDirectory(root, blank, "", None)
    case Subtree(path) =>
      match Lookup(root, path)
      case None => Ok(blank.(complete := true))
      case Some(node) =>
        if node.entry.kind.Directory? then
          Ok(blank.(scopeIdentity := node.identity,
                    pendingDirectory := Some(Pending(node.entry.path, node.identity)),
                    pendingEntry := Some(node.entry)))
        else Ok(blank.(pendingEntry := Some(node.entry)))
  }

  datatype Turned =
    | Emit(entry: Entry, walk: Walk)
    | Move(walk: Walk)
    | Finish(walk: Walk)
    | Fail(error: Error, walk: Walk)

  function Turn(root: Node, w: Walk): Turned {
    if w.pendingEntry.Some? then Emit(w.pendingEntry.value, w.(pendingEntry := None))
    else if w.pendingDirectory.Some? then
      var taken := w.(pendingDirectory := None);
      match OpenDirectory(root, taken, w.pendingDirectory.value.path, w.pendingDirectory.value.identity)
      case Ok(next) => Move(next)
      case Err(error) => Fail(error, taken)
    else if w.stack == [] then Finish(w.(complete := true))
    else if Top(w).next >= |Top(w).entries| then Move(w.(stack := w.stack[..|w.stack| - 1]))
    else
      var entry := Top(w).entries[Top(w).next].entry;
      var read := WithTop(w, Top(w).(next := Top(w).next + 1, after := Some(entry.path), count := Top(w).count + 1));
      if entry.kind.Directory? then
        Emit(entry, read.(pendingDirectory := Some(Pending(entry.path, Identify(root, entry.path)))))
      else Emit(entry, read)
  }

  // ---------------------------------------------------------------- what every turn keeps

  /** Looking up the path of a listed entry gives that entry with what is below it. */
  ghost predicate Stable(root: Node) {
    forall path, i | 0 <= i < |ChildrenOf(root, path)| ::
      && Lookup(root, ChildrenOf(root, path)[i].entry.path) == Some(ChildrenOf(root, path)[i])
      && (!ChildrenOf(root, path)[i].entry.kind.Directory? ==> ChildrenOf(root, path)[i].children == [])
  }

  ghost predicate FrameOk(root: Node, frame: Frame) {
    && Lookup(root, frame.directory).Some?
    && Lookup(root, frame.directory).value.entry.kind.Directory?
    && frame.identity == Lookup(root, frame.directory).value.identity
    && frame.entries == Lookup(root, frame.directory).value.children
    && frame.next <= |frame.entries|
    && frame.count == frame.next
    && frame.after == if frame.next == 0 then None else Some(frame.entries[frame.next - 1].entry.path)
  }

  ghost predicate PendingOk(root: Node, pending: Pending) {
    && Lookup(root, pending.path).Some?
    && Lookup(root, pending.path).value.entry.kind.Directory?
    && pending.identity == Lookup(root, pending.path).value.identity
  }

  /** What holds between two turns of the loop over a library that does not change. */
  ghost predicate Inv(root: Node, w: Walk) {
    && |w.stack| <= MAX_DIRECTORY_DEPTH
    && (forall i | 0 <= i < |w.stack| :: FrameOk(root, w.stack[i]))
    && (forall i | 0 <= i < |w.stack| - 1 :: w.stack[i].next > 0)
    && (w.pendingDirectory.Some? ==> PendingOk(root, w.pendingDirectory.value))
    && (w.pendingDirectory.Some? && w.stack != [] ==> Top(w).after == Some(w.pendingDirectory.value.path))
    && (w.pendingDirectory.Some? && w.stack == [] ==> w.pendingDirectory.value.path == w.scope)
    && (w.pendingEntry.Some? ==> w.stack == [] && !w.complete)
    && (w.pendingEntry.Some? && w.pendingDirectory.Some? ==> w.pendingEntry.value.path == w.scope)
    && (w.stack != [] ==> w.stack[0].directory == w.scope && w.scopeIdentity == w.stack[0].identity)
    && (w.complete ==> w.stack == [] && w.pendingDirectory.None?)
  }

  /** The entries that a frame has not read yet, with everything below them. */
  function Unread(frame: Frame): seq<Node> {
    if frame.next <= |frame.entries| then frame.entries[frame.next..] else []
  }

  /** The entries still to be emitted. */
  function StackListing(stack: seq<Frame>): seq<Entry> {
    if stack == [] then []
    else Listing(Unread(stack[|stack| - 1])) + StackListing(stack[..|stack| - 1])
  }

  function Remaining(root: Node, w: Walk): seq<Entry> {
    (if w.pendingEntry.Some? then [w.pendingEntry.value] else [])
    + (if w.pendingDirectory.Some? then Listing(ChildrenOf(root, w.pendingDirectory.value.path)) else [])
    + StackListing(w.stack)
  }

  /** Turns still to be taken: one per entry, and an opening and a closing per directory. */
  function TurnsFor(nodes: seq<Node>): nat {
    if nodes == [] then 0
    else 1 + (if nodes[0].entry.kind.Directory? then 2 + TurnsFor(nodes[0].children) else 0) + TurnsFor(nodes[1..])
  }

  function StackTurns(stack: seq<Frame>): nat {
    if stack == [] then 0
    else 1 + TurnsFor(Unread(stack[|stack| - 1])) + StackTurns(stack[..|stack| - 1])
  }

  function Turns(root: Node, w: Walk): nat {
    (if w.pendingEntry.Some? then 1 else 0)
    + (if w.pendingDirectory.Some? then 2 + TurnsFor(ChildrenOf(root, w.pendingDirectory.value.path)) else 0)
    + StackTurns(w.stack)
  }

  // ---------------------------------------------------------------- looking up what the walk reads

  lemma {:induction false} FindGoesDown(nodes: seq<Node>, path: Path, child: Node)
    requires Grounded(nodes) && Find(nodes, path).Some? && child in Find(nodes, path).value.children
    ensures child.entry.path in PathsOf(nodes) && Find(nodes, child.entry.path) == Some(child)
    ensures WellFormed(Find(nodes, path).value.children)
    ensures !Find(nodes, path).value.entry.kind.Directory? ==> Find(nodes, path).value.children == []
  {
    if nodes[0].entry.path == path {
      ChildFound(nodes[0].children, child);
    } else if Find(nodes[0].children, path).Some? {
      FindGoesDown(nodes[0].children, path, child);
    } else {
      FindGoesDown(nodes[1..], path, child);
      FindMisses(nodes[0].children, child.entry.path);
    }
  }

  lemma {:induction false} ChildFound(nodes: seq<Node>, child: Node)
    requires Grounded(nodes) && child in nodes
    ensures child.entry.path in PathsOf(nodes) && Find(nodes, child.entry.path) == Some(child)
  {
    if nodes[0] != child {
      ChildFound(nodes[1..], child);
      FindMisses(nodes[0].children, child.entry.path);
    }
  }

  lemma {:induction false} FindMisses(nodes: seq<Node>, path: Path)
    requires path !in PathsOf(nodes)
    ensures Find(nodes, path).None?
  {
    if nodes != [] {
      FindMisses(nodes[0].children, path);
      FindMisses(nodes[1..], path);
    }
  }

  /** Looking up the path of a listed child gives that child, and its directory is sorted. */
  lemma LookupChild(root: Node, path: Path, i: nat)
    requires Library(root) && i < |ChildrenOf(root, path)|
    ensures Lookup(root, ChildrenOf(root, path)[i].entry.path) == Some(ChildrenOf(root, path)[i])
    ensures Sorted(ChildrenOf(root, path))
  {
    var child := ChildrenOf(root, path)[i];
    if path == root.entry.path {
      ChildFound(root.children, child);
    } else {
      FindGoesDown(root.children, path, child);
    }
  }

  lemma {:induction false} FoundIsSound(nodes: seq<Node>, path: Path)
    requires Grounded(nodes) && Find(nodes, path).Some?
    ensures Find(nodes, path).value.entry.path == path
    ensures !Find(nodes, path).value.entry.kind.Directory? ==> Find(nodes, path).value.children == []
  {
    if nodes[0].entry.path == path {
    } else if Find(nodes[0].children, path).Some? {
      FoundIsSound(nodes[0].children, path);
    } else {
      FoundIsSound(nodes[1..], path);
    }
  }

  lemma LookupIsSound(root: Node, path: Path)
    requires Library(root) && Lookup(root, path).Some?
    ensures Lookup(root, path).value.entry.path == path
    ensures !Lookup(root, path).value.entry.kind.Directory? ==> Lookup(root, path).value.children == []
  {
    if path != root.entry.path {
      FoundIsSound(root.children, path);
    }
  }

  lemma LibraryIsStable(root: Node)
    requires Library(root)
    ensures Stable(root)
  {
    forall path, i | 0 <= i < |ChildrenOf(root, path)|
      ensures Lookup(root, ChildrenOf(root, path)[i].entry.path) == Some(ChildrenOf(root, path)[i])
      ensures !ChildrenOf(root, path)[i].entry.kind.Directory? ==> ChildrenOf(root, path)[i].children == []
    {
      LookupChild(root, path, i);
      LookupIsSound(root, ChildrenOf(root, path)[i].entry.path);
    }
  }

  lemma {:induction false} ListedPaths(nodes: seq<Node>)
    ensures forall i | 0 <= i < |Listing(nodes)| :: Listing(nodes)[i].path in PathsOf(nodes)
  {
    if nodes != [] {
      ListedPaths(nodes[0].children);
      ListedPaths(nodes[1..]);
      var below, rest := Listing(nodes[0].children), Listing(nodes[1..]);
      assert Listing(nodes) == [nodes[0].entry] + below + rest;
    }
  }

  ghost predicate NoPathTwice(entries: seq<Entry>) {
    forall i, j | 0 <= i < j < |entries| :: entries[i].path != entries[j].path
  }

  /** No entry is listed twice. */
  lemma {:induction false} ListingHasNoRepeats(nodes: seq<Node>)
    requires Grounded(nodes)
    ensures NoPathTwice(Listing(nodes))
  {
    if nodes != [] {
      var below, rest := Listing(nodes[0].children), Listing(nodes[1..]);
      ListingHasNoRepeats(nodes[0].children);
      ListingHasNoRepeats(nodes[1..]);
      ListedPaths(nodes[0].children);
      ListedPaths(nodes[1..]);
      assert Listing(nodes) == [nodes[0].entry] + below + rest;
    }
  }

  /** What is found is as well grounded as the tree it is found in. */
  lemma {:induction false} FoundIsGrounded(nodes: seq<Node>, path: Path)
    requires Grounded(nodes) && Find(nodes, path).Some?
    ensures Grounded(Find(nodes, path).value.children)
    ensures Find(nodes, path).value.entry.path !in PathsOf(Find(nodes, path).value.children)
  {
    if nodes[0].entry.path == path {
    } else if Find(nodes[0].children, path).Some? {
      FoundIsGrounded(nodes[0].children, path);
    } else {
      FoundIsGrounded(nodes[1..], path);
    }
  }

  lemma SubtreeHasNoRepeats(node: Node)
    requires Grounded(node.children) && node.entry.path !in PathsOf(node.children)
    ensures NoPathTwice([node.entry] + Listing(node.children))
  {
    ListingHasNoRepeats(node.children);
    ListedPaths(node.children);
    hide Listing, PathsOf, Grounded;
  }
}
