/**
 * Following a file reference to a path through the parents that USN records name
 * (rust/src/windows_usn.rs). A record names the file, its parent at that moment and
 * its name under that parent.
 */
module Usn {
  import opened Options

  const FILE_DELETE: bv32 := 0x200
  const RENAME_OLD_NAME: bv32 := 0x1000
  const DEPTH_LIMIT := 256

  /** The two widths of file identifiers; the bytes are only ever compared. */
  datatype FileReference = V2(bytes: nat) | V3(bytes: nat)

  datatype Record = Record(fileReference: FileReference, parentReference: FileReference, usn: int, reason: bv32, name: string)

  type Histories = map<FileReference, seq<nat>>

  // ---------------------------------------------------------------- the history index

  /** Every reference has exactly the positions of its records, in order. */
  ghost predicate IndexesAll(histories: Histories, records: seq<Record>) {
    IndexesUpTo(histories, records, |records|)
  }

  ghost predicate IndexesUpTo(histories: Histories, records: seq<Record>, count: nat)
    requires count <= |records|
  {
    forall reference: FileReference :: IndexesOne(histories, records, count, reference)
  }

  ghost predicate IndexesOne(histories: Histories, records: seq<Record>, count: nat, reference: FileReference)
    requires count <= |records|
  {
    && PositionsOf(Positions(histories, reference), records, count, reference)
    && (reference in histories ==> histories[reference] != [])
  }

  ghost predicate PositionsOf(indices: seq<nat>, records: seq<Record>, count: nat, reference: FileReference)
    requires count <= |records|
  {
    && (forall a, b | 0 <= a < b < |indices| :: indices[a] < indices[b])
    && (forall i: nat :: i in indices <==> i < count && records[i].fileReference == reference)
  }

  function Positions(histories: Histories, reference: FileReference): seq<nat> {
    if reference in histories then histories[reference] else []
  }

  method ReferenceHistories(records: seq<Record>) returns (histories: Histories)
    ensures IndexesAll(histories, records)
  {
    hide PositionsOf;
    histories := map[];
    NoPositions(records);
    for index := 0 to |records|
      invariant IndexesUpTo(histories, records, index)
    {
      var reference := records[index].fileReference;
      ghost var before := histories;
      histories := histories[reference := Positions(histories, reference) + [index]];
      ghost var count := index + 1;
      forall other: FileReference
        ensures IndexesOne(histories, records, count, other)
      {
        assert IndexesOne(before, records, index, other);
        PositionsGrow(Positions(before, other), records, index, other);
      }
    }
  }

  lemma NoPositions(records: seq<Record>)
    ensures forall reference: FileReference :: PositionsOf([], records, 0, reference)
  {
  }

  lemma PositionsGrow(indices: seq<nat>, records: seq<Record>, index: nat, reference: FileReference)
    requires index < |records| && PositionsOf(indices, records, index, reference)
    ensures PositionsOf(if records[index].fileReference == reference then indices + [index] else indices,
                        records, index + 1, reference)
  {
    assert forall a | 0 <= a < |indices| :: indices[a] in indices;
  }

  // ---------------------------------------------------------------- choosing a record

  predicate EndsName(reason: bv32) {
    reason & (FILE_DELETE | RENAME_OLD_NAME) != 0
  }

  /** The record of the last index below the bound. Indices outside the records are skipped. */
  function LastBefore(indices: seq<nat>, records: seq<Record>, bound: int): Option<Record> {
    if indices == [] then None
    else
      var index := indices[|indices| - 1];
      if index < |records| && records[index].usn < bound then Some(records[index])
      else LastBefore(indices[..|indices| - 1], records, bound)
  }

  /** The record of the first index that deletes or renames away at or after the bound. */
  function FirstEnding(indices: seq<nat>, records: seq<Record>, bound: int): Option<Record> {
    if indices == [] then None
    else if indices[0] < |records| && records[indices[0]].usn >= bound && EndsName(records[indices[0]].reason) then
      Some(records[indices[0]])
    else FirstEnding(indices[1..], records, bound)
  }

  function HistoricalParentRecord(indices: seq<nat>, records: seq<Record>, bound: int): Option<Record> {
    match LastBefore(indices, records, bound)
    case Some(record) => Some(record)
    case None => FirstEnding(indices, records, bound)
  }

  predicate Before(records: seq<Record>, reference: FileReference, bound: int, i: nat) {
    i < |records| && records[i].fileReference == reference && records[i].usn < bound
  }

  predicate Ending(records: seq<Record>, reference: FileReference, bound: int, i: nat) {
    i < |records| && records[i].fileReference == reference && records[i].usn >= bound && EndsName(records[i].reason)
  }

  /** What a scan over all records finds: the last one before the bound, else the first ending one. */
  ghost predicate ScanFinds(records: seq<Record>, reference: FileReference, bound: int, found: Option<Record>) {
    if exists i: nat :: Before(records, reference, bound, i) then
      exists i: nat :: Before(records, reference, bound, i) && found == Some(records[i])
                       && forall j: nat | j > i :: !Before(records, reference, bound, j)
    else if exists i: nat :: Ending(records, reference, bound, i) then
      exists i: nat :: Ending(records, reference, bound, i) && found == Some(records[i])
                       && forall j: nat | j < i :: !Ending(records, reference, bound, j)
    else found == None
  }

  lemma {:induction false} LastBeforeIs(indices: seq<nat>, records: seq<Record>, bound: int) returns (at: nat)
    ensures LastBefore(indices, records, bound).None? ==>
              forall a | 0 <= a < |indices| && indices[a] < |records| :: records[indices[a]].usn >= bound
    ensures LastBefore(indices, records, bound).Some? ==>
              && at < |indices| && indices[at] < |records| && records[indices[at]].usn < bound
              && LastBefore(indices, records, bound) == Some(records[indices[at]])
              && forall a | at < a < |indices| && indices[a] < |records| :: records[indices[a]].usn >= bound
    decreases |indices|
  {
    at := 0;
    if indices != [] {
      var last := |indices| - 1;
      if indices[last] < |records| && records[indices[last]].usn < bound {
        at := last;
      } else {
        at := LastBeforeIs(indices[..last], records, bound);
      }
    }
  }

  lemma {:induction false} FirstEndingIs(indices: seq<nat>, records: seq<Record>, bound: int) returns (at: nat)
    ensures FirstEnding(indices, records, bound).None? ==>
              forall a | 0 <= a < |indices| && indices[a] < |records| ::
                !(records[indices[a]].usn >= bound && EndsName(records[indices[a]].reason))
    ensures FirstEnding(indices, records, bound).Some? ==>
              && at < |indices| && indices[at] < |records| && records[indices[at]].usn >= bound
              && EndsName(records[indices[at]].reason)
              && FirstEnding(indices, records, bound) == Some(records[indices[at]])
              && forall a | 0 <= a < at && indices[a] < |records| ::
                   !(records[indices[a]].usn >= bound && EndsName(records[indices[a]].reason))
    decreases |indices|
  {
    hide EndsName;
    at := 0;
    if indices != [] {
      if !(indices[0] < |records| && records[indices[0]].usn >= bound && EndsName(records[indices[0]].reason)) {
        var rest := FirstEndingIs(indices[1..], records, bound);
        assert forall a | 0 <= a < |indices| - 1 :: indices[1..][a] == indices[a + 1];
        at := rest + 1;
        forall a | 0 <= a < |indices| && indices[a] < |records| && (FirstEnding(indices, records, bound).Some? ==> a < at)
          ensures !(records[indices[a]].usn >= bound && EndsName(records[indices[a]].reason))
        {
          if a > 0 {
            assert indices[1..][a - 1] == indices[a];
          }
        }
      }
    }
  }

  lemma LastIsLast(indices: seq<nat>, records: seq<Record>, reference: FileReference, bound: int)
    requires PositionsOf(indices, records, |records|, reference)
    ensures LastBefore(indices, records, bound).None? ==> forall j: nat :: !Before(records, reference, bound, j)
    ensures LastBefore(indices, records, bound).Some? ==>
              exists i: nat :: Before(records, reference, bound, i) && LastBefore(indices, records, bound) == Some(records[i])
                               && forall j: nat | j > i :: !Before(records, reference, bound, j)
  {
    var last := LastBeforeIs(indices, records, bound);
    hide LastBefore;
    if LastBefore(indices, records, bound).Some? {
      var i := indices[last];
      assert i in indices && Before(records, reference, bound, i);
      forall j: nat | j in indices && j > i
        ensures !Before(records, reference, bound, j)
      {
        var a :| 0 <= a < |indices| && indices[a] == j;
      }
    }
  }

  lemma FirstIsFirst(indices: seq<nat>, records: seq<Record>, reference: FileReference, bound: int)
    requires PositionsOf(indices, records, |records|, reference)
    ensures FirstEnding(indices, records, bound).None? ==> forall j: nat :: !Ending(records, reference, bound, j)
    ensures FirstEnding(indices, records, bound).Some? ==>
              exists i: nat :: Ending(records, reference, bound, i) && FirstEnding(indices, records, bound) == Some(records[i])
                               && forall j: nat | j < i :: !Ending(records, reference, bound, j)
  {
    var first := FirstEndingIs(indices, records, bound);
    hide FirstEnding, EndsName;
    if FirstEnding(indices, records, bound).Some? {
      var i := indices[first];
      assert i in indices && Ending(records, reference, bound, i);
      forall j: nat | j in indices && j < i
        ensures !Ending(records, reference, bound, j)
      {
        var a :| 0 <= a < |indices| && indices[a] == j;
      }
    }
  }

  /** Choosing through the history index is the scan over all records. */
  lemma HistoryRefinesScan(histories: Histories, records: seq<Record>, reference: FileReference, bound: int)
    requires IndexesAll(histories, records)
    ensures ScanFinds(records, reference, bound,
                      HistoricalParentRecord(Positions(histories, reference), records, bound))
  {
    var indices := Positions(histories, reference);
    assert IndexesOne(histories, records, |records|, reference);
    LastIsLast(indices, records, reference, bound);
    FirstIsFirst(indices, records, reference, bound);
    hide IndexesAll, LastBefore, FirstEnding, PositionsOf, Before, Ending;
  }

  ghost predicate Chronological(records: seq<Record>) {
    forall i, j | 0 <= i < j < |records| :: records[i].usn < records[j].usn
  }

  /** In a chronological journal the choice is by update number alone. */
  lemma ChosenByUsn(records: seq<Record>, reference: FileReference, bound: int, found: Option<Record>)
    requires Chronological(records) && ScanFinds(records, reference, bound, found)
    ensures found.None? <==> forall i: nat :: !Before(records, reference, bound, i) && !Ending(records, reference, bound, i)
    ensures found.Some? ==> found.value in records && found.value.fileReference == reference
    ensures found.Some? && found.value.usn < bound ==>
              forall i: nat | Before(records, reference, bound, i) :: records[i].usn <= found.value.usn
    ensures found.Some? && found.value.usn >= bound ==>
              && EndsName(found.value.reason)
              && (forall i: nat :: !Before(records, reference, bound, i))
              && (forall i: nat | Ending(records, reference, bound, i) :: found.value.usn <= records[i].usn)
  {
    hide EndsName;
    if exists i: nat :: Before(records, reference, bound, i) {
      var i: nat :| Before(records, reference, bound, i) && found == Some(records[i])
                    && forall j: nat | j > i :: !Before(records, reference, bound, j);
      assert forall j: nat | Before(records, reference, bound, j) :: j <= i;
    } else if exists i: nat :: Ending(records, reference, bound, i) {
      var i: nat :| Ending(records, reference, bound, i) && found == Some(records[i])
                    && forall j: nat | j < i :: !Ending(records, reference, bound, j);
      assert forall j: nat | Ending(records, reference, bound, j) :: j >= i;
    }
  }

  // ---------------------------------------------------------------- the chain of parents

  datatype Journal = Journal(records: seq<Record>, histories: Histories)

  /** A reference together with the update number its parent is looked up before. */
  datatype Place = Place(reference: FileReference, bound: int)

  function ParentOf(journal: Journal, place: Place): Option<Record> {
    if place.reference in journal.histories then
      HistoricalParentRecord(journal.histories[place.reference], journal.records, place.bound)
    else None
  }

  function Up(record: Record): Place {
    Place(record.parentReference, record.usn)
  }

  /** Each place is the parent of the one before it. */
  ghost predicate Ascends(journal: Journal, trail: seq<Place>) {
    forall k | 0 <= k < |trail| - 1 ::
      ParentOf(journal, trail[k]).Some? && trail[k + 1] == Up(ParentOf(journal, trail[k]).value)
  }

  function References(trail: seq<Place>): set<FileReference> {
    set k: nat | k < |trail| :: trail[k].reference
  }

  ghost predicate Distinct(trail: seq<Place>) {
    forall a, b | 0 <= a < b < |trail| :: trail[a].reference != trail[b].reference
  }

  /** A finished chain that visits nothing twice and stays within the depth limit. */
  ghost predicate Admissible(journal: Journal, place: Place, chain: seq<Place>, visiting: set<FileReference>) {
    && chain != [] && chain[0] == place && Ascends(journal, chain)
    && ParentOf(journal, chain[|chain| - 1]).None?
    && Distinct(chain) && References(chain) !! visiting
    && |visiting| + |chain| <= DEPTH_LIMIT
  }

  /** The places a resolution looks at, whatever the callbacks answer. */
  function Descend(journal: Journal, place: Place, visiting: set<FileReference>): (trail: seq<Place>)
    ensures trail != [] && trail[0] == place
    decreases DEPTH_LIMIT - |visiting|
  {
    if place.reference in visiting || |visiting| >= DEPTH_LIMIT then [place]
    else
      match ParentOf(journal, place)
      case None => [place]
      case Some(record) => [place] + Descend(journal, Up(record), visiting + {place.reference})
  }

  /** The last place was visited before, or is one too many. */
  ghost predicate Stuck(trail: seq<Place>, visiting: set<FileReference>)
    requires trail != []
  {
    || trail[|trail| - 1].reference in visiting + References(trail[..|trail| - 1])
    || |visiting| + |trail| > DEPTH_LIMIT
  }

  lemma ReferencesOfRest(place: Place, rest: seq<Place>)
    ensures References([place] + rest) == {place.reference} + References(rest)
  {
    var trail := [place] + rest;
    forall reference
      ensures reference in References(trail) <==> reference in {place.reference} + References(rest)
    {
      if reference in References(rest) {
        var k: nat :| k < |rest| && rest[k].reference == reference;
        assert trail[k + 1].reference == reference;
      }
      if reference in References(trail) {
        var k: nat :| k < |trail| && trail[k].reference == reference;
        assert k > 0 ==> rest[k - 1].reference == reference;
      }
      assert trail[0].reference == place.reference;
    }
  }

  lemma StuckRest(place: Place, rest: seq<Place>, visiting: set<FileReference>)
    requires rest != [] && place.reference !in visiting
    ensures Stuck([place] + rest, visiting) <==> Stuck(rest, visiting + {place.reference})
  {
    var trail := [place] + rest;
    assert trail[..|trail| - 1] == [place] + rest[..|rest| - 1];
    ReferencesOfRest(place, rest[..|rest| - 1]);
    hide References;
  }

  /** The only admissible chain is the descent itself. */
  lemma {:induction false} ChainIsTheDescent(journal: Journal, place: Place, chain: seq<Place>, visiting: set<FileReference>)
    requires Admissible(journal, place, chain, visiting)
    ensures chain == Descend(journal, place, visiting) && !Stuck(chain, visiting)
    decreases |chain|
  {
    if |chain| > 1 {
      ChainIsTheDescent(journal, Up(ParentOf(journal, place).value), chain[1..], visiting + {place.reference});
      StuckRest(place, chain[1..], visiting);
      hide ParentOf, Admissible, Stuck;
      assert chain == [place] + chain[1..] by {
        assert chain[0] == place;
      }
    } else {
      hide ParentOf;
      assert References(chain[..0]) == {};
      assert chain == [place];
      assert ParentOf(journal, chain[0]).None?;
    }
  }

  lemma AscendsExtend(journal: Journal, place: Place, rest: seq<Place>)
    requires ParentOf(journal, place).Some? && rest != [] && rest[0] == Up(ParentOf(journal, place).value) && Ascends(journal, rest)
    ensures Ascends(journal, [place] + rest)
  {
    hide ParentOf;
    var chain := [place] + rest;
    forall k | 0 <= k < |chain| - 1
      ensures ParentOf(journal, chain[k]).Some? && chain[k + 1] == Up(ParentOf(journal, chain[k]).value)
    {
      if k > 0 {
        assert chain[k] == rest[k - 1];
      }
    }
  }

  lemma DistinctExtend(place: Place, rest: seq<Place>)
    requires Distinct(rest) && place.reference !in References(rest)
    ensures Distinct([place] + rest)
  {
    assert forall b | 0 <= b < |rest| :: rest[b].reference in References(rest);
  }

  lemma AdmissibleExtend(journal: Journal, place: Place, rest: seq<Place>, visiting: set<FileReference>)
    requires ParentOf(journal, place).Some? && place.reference !in visiting
    requires Admissible(journal, Up(ParentOf(journal, place).value), rest, visiting + {place.reference})
    ensures Admissible(journal, place, [place] + rest, visiting)
  {
    hide ParentOf, Ascends, Distinct, References;
    ReferencesOfRest(place, rest);
    AscendsExtend(journal, place, rest);
    assert place.reference in visiting + {place.reference};
    DistinctExtend(place, rest);
  }

  lemma ButLast(place: Place, rest: seq<Place>)
    requires rest != []
    ensures ([place] + rest)[..|rest|] == [place] + rest[..|rest| - 1]
  {
  }

  /** The descent climbs parent by parent, and only its last place can repeat a reference. */
  lemma {:induction false} DescentAscends(journal: Journal, place: Place, visiting: set<FileReference>)
    ensures var trail := Descend(journal, place, visiting);
            && Ascends(journal, trail)
            && Distinct(trail[..|trail| - 1]) && References(trail[..|trail| - 1]) !! visiting
    decreases DEPTH_LIMIT - |visiting|
  {
    var trail := Descend(journal, place, visiting);
    if place.reference !in visiting && |visiting| < DEPTH_LIMIT && ParentOf(journal, place).Some? {
      var rest := Descend(journal, Up(ParentOf(journal, place).value), visiting + {place.reference});
      DescentAscends(journal, Up(ParentOf(journal, place).value), visiting + {place.reference});
      AscendsExtend(journal, place, rest);
      assert trail == [place] + rest;
      hide Descend, ParentOf, Ascends, Distinct, References;
      ButLast(place, rest);
      ReferencesOfRest(place, rest[..|rest| - 1]);
      assert place.reference in visiting + {place.reference};
      DistinctExtend(place, rest[..|rest| - 1]);
    } else {
      assert trail == [place] && trail[..0] == [];
      hide ParentOf;
    }
  }

  /** A descent that does not get stuck is an admissible chain. */
  lemma {:induction false} DescentIsAdmissible(journal: Journal, place: Place, visiting: set<FileReference>)
    requires !Stuck(Descend(journal, place, visiting), visiting)
    ensures Admissible(journal, place, Descend(journal, place, visiting), visiting)
    decreases DEPTH_LIMIT - |visiting|
  {
    var trail := Descend(journal, place, visiting);
    if place.reference !in visiting && |visiting| < DEPTH_LIMIT && ParentOf(journal, place).Some? {
      var next := Up(ParentOf(journal, place).value);
      StuckRest(place, Descend(journal, next, visiting + {place.reference}), visiting);
      DescentIsAdmissible(journal, next, visiting + {place.reference});
      AdmissibleExtend(journal, place, Descend(journal, next, visiting + {place.reference}), visiting);
    } else {
      hide ParentOf;
      assert trail == [place];
      assert References(trail) == {place.reference};
    }
  }

  /** The descent is stuck exactly when no admissible chain leads out of the place. */
  lemma StuckIffNoChain(journal: Journal, place: Place, visiting: set<FileReference>)
    ensures Stuck(Descend(journal, place, visiting), visiting) <==>
            !exists chain: seq<Place> :: Admissible(journal, place, chain, visiting)
  {
    if !Stuck(Descend(journal, place, visiting), visiting) {
      DescentIsAdmissible(journal, place, visiting);
    }
    forall chain: seq<Place> | Admissible(journal, place, chain, visiting)
      ensures !Stuck(Descend(journal, place, visiting), visiting)
    {
      ChainIsTheDescent(journal, place, chain, visiting);
    }
  }

  // ---------------------------------------------------------------- resolving

  datatype Failure<+E> = CycleOrDepth | Callback(error: E)

  datatype Callbacks<!P, !E> = Callbacks(open: FileReference -> Result<P, E>, append: (P, string) -> Result<P, E>)

  function NameAt(journal: Journal, place: Place): string {
    match ParentOf(journal, place)
    case Some(record) => record.name
    case None => ""
  }

  /**
   * The path of the place at position `from` of a chain: the last reference is opened and
   * the names are appended from the far end, stopping at the first failing callback.
   */
  function Built<P, E>(journal: Journal, callbacks: Callbacks<P, E>, chain: seq<Place>, from: nat): Result<P, E>
    requires from < |chain|
    decreases |chain| - from
  {
    if from == |chain| - 1 then callbacks.open(chain[from].reference)
    else
      match Built(journal, callbacks, chain, from + 1)
      case Err(error) => Err(error)
      case Ok(parent) => callbacks.append(parent, NameAt(journal, chain[from]))
  }

  /** The last position at which a callback fails, or 0 if none fails. */
  function FailedAt<P, E>(journal: Journal, callbacks: Callbacks<P, E>, chain: seq<Place>, from: nat): nat
    requires from < |chain|
    decreases |chain| - from
  {
    if from == |chain| - 1 || Built(journal, callbacks, chain, from + 1).Ok? then 0
    else 1 + FailedAt(journal, callbacks, chain, from + 1)
  }

  lemma {:induction false} BuiltRest<P, E>(journal: Journal, callbacks: Callbacks<P, E>, place: Place, rest: seq<Place>, from: nat)
    requires from < |rest|
    ensures Built(journal, callbacks, [place] + rest, from + 1) == Built(journal, callbacks, rest, from)
    ensures FailedAt(journal, callbacks, [place] + rest, from + 1) == FailedAt(journal, callbacks, rest, from)
    decreases |rest| - from
  {
    hide NameAt;
    if from < |rest| - 1 {
      BuiltRest(journal, callbacks, place, rest, from + 1);
    }
  }

  lemma {:induction false} FailedWithin<P, E>(journal: Journal, callbacks: Callbacks<P, E>, chain: seq<Place>, from: nat)
    requires from < |chain|
    ensures from + FailedAt(journal, callbacks, chain, from) < |chain|
    ensures Built(journal, callbacks, chain, from).Ok? ==> FailedAt(journal, callbacks, chain, from) == 0
    decreases |chain| - from
  {
    hide NameAt;
    if from < |chain| - 1 {
      FailedWithin(journal, callbacks, chain, from + 1);
    }
  }

  class Visiting {
    var references: set<FileReference>

    constructor ()
      ensures references == {}
    {
      references := {};
    }
  }

  function Lift<P, E>(result: Result<P, E>): Result<P, Failure<E>> {
    match result
    case Ok(path) => Ok(path)
    case Err(error) => Err(Callback(error))
  }

  /** What a resolution leaves in the visiting set. */
  ghost function LeftBehind<P, E>(
      journal: Journal, callbacks: Callbacks<P, E>, place: Place, visiting: set<FileReference>): set<FileReference>
  {
    var trail := Descend(journal, place, visiting);
    if Stuck(trail, visiting) then visiting + References(trail)
    else
      FailedWithin(journal, callbacks, trail, 0);
      visiting + References(trail[..FailedAt(journal, callbacks, trail, 0)])
  }

  ghost function Outcome<P, E>(
      journal: Journal, callbacks: Callbacks<P, E>, place: Place, visiting: set<FileReference>): Result<P, Failure<E>>
  {
    var trail := Descend(journal, place, visiting);
    if Stuck(trail, visiting) then Err(CycleOrDepth)
    else
      Lift(Built(journal, callbacks, trail, 0))
  }

  lemma ResolvedAtLimit<P, E>(journal: Journal, callbacks: Callbacks<P, E>, place: Place, visiting: set<FileReference>)
    requires place.reference in visiting || |visiting| >= DEPTH_LIMIT
    ensures Outcome(journal, callbacks, place, visiting) == Err(CycleOrDepth)
    ensures LeftBehind(journal, callbacks, place, visiting) == visiting + {place.reference}
  {
    assert Descend(journal, place, visiting) == [place];
    ReferencesOfRest(place, []);
    assert [place] + [] == [place];
  }

  lemma ResolvedAtEnd<P, E>(journal: Journal, callbacks: Callbacks<P, E>, place: Place, visiting: set<FileReference>)
    requires place.reference !in visiting && |visiting| < DEPTH_LIMIT && ParentOf(journal, place).None?
    ensures Outcome(journal, callbacks, place, visiting) == Lift(callbacks.open(place.reference))
    ensures LeftBehind(journal, callbacks, place, visiting) == visiting
  {
    var trail := Descend(journal, place, visiting);
    hide ParentOf;
    assert trail == [place];
    assert References(trail[..0]) == {};
  }

  lemma DescendsAbove(journal: Journal, place: Place, visiting: set<FileReference>, record: Record)
    requires place.reference !in visiting && |visiting| < DEPTH_LIMIT && ParentOf(journal, place) == Some(record)
    ensures var rest := Descend(journal, Up(record), visiting + {place.reference});
            && Descend(journal, place, visiting) == [place] + rest
            && (Stuck([place] + rest, visiting) <==> Stuck(rest, visiting + {place.reference}))
  {
    hide ParentOf;
    StuckRest(place, Descend(journal, Up(record), visiting + {place.reference}), visiting);
  }

  lemma OutcomeAbove<P, E>(journal: Journal, callbacks: Callbacks<P, E>, place: Place, visiting: set<FileReference>, record: Record)
    requires place.reference !in visiting && |visiting| < DEPTH_LIMIT && ParentOf(journal, place) == Some(record)
    ensures var above := Outcome(journal, callbacks, Up(record), visiting + {place.reference});
            Outcome(journal, callbacks, place, visiting)
            == (if above.Err? then above else Lift(callbacks.append(above.value, record.name)))
  {
    var rest := Descend(journal, Up(record), visiting + {place.reference});
    assert NameAt(journal, place) == record.name;
    hide Stuck, Descend, ParentOf, NameAt;
    DescendsAbove(journal, place, visiting, record);
    BuiltRest(journal, callbacks, place, rest, 0);
    var trail := [place] + rest;
    assert trail[0] == place && |trail| > 1;
    assert Built(journal, callbacks, trail, 0)
        == (match Built(journal, callbacks, rest, 0)
            case Err(error) => Err(error)
            case Ok(parent) => callbacks.append(parent, record.name));
    hide Built;
  }

  lemma LeftAbove<P, E>(journal: Journal, callbacks: Callbacks<P, E>, place: Place, visiting: set<FileReference>, record: Record)
    requires place.reference !in visiting && |visiting| < DEPTH_LIMIT && ParentOf(journal, place) == Some(record)
    ensures var inner := visiting + {place.reference};
            var above := Outcome(journal, callbacks, Up(record), inner);
            var left := LeftBehind(journal, callbacks, Up(record), inner);
            && LeftBehind(journal, callbacks, place, visiting) == (if above.Err? then left else visiting)
            && (above.Ok? ==> left == inner)
  {
    hide Stuck, Descend, ParentOf, References;
    var inner := visiting + {place.reference};
    var rest := Descend(journal, Up(record), inner);
    var trail := [place] + rest;
    DescendsAbove(journal, place, visiting, record);
    if Stuck(rest, inner) {
      ReferencesOfRest(place, rest);
    } else {
      BuiltRest(journal, callbacks, place, rest, 0);
      FailedWithin(journal, callbacks, rest, 0);
      var failed := FailedAt(journal, callbacks, rest, 0);
      if Built(journal, callbacks, rest, 0).Err? {
        assert trail[..failed + 1] == [place] + rest[..failed];
        ReferencesOfRest(place, rest[..failed]);
      } else {
        assert failed == 0;
        NoReferences();
      }
    }
  }

  lemma NoReferences()
    ensures References([]) == {}
  {
  }

  method Resolve<P, E>(place: Place, journal: Journal, visiting: Visiting, callbacks: Callbacks<P, E>)
    returns (result: Result<P, Failure<E>>)
    modifies visiting
    ensures result == Outcome(journal, callbacks, place, old(visiting.references))
    ensures visiting.references == LeftBehind(journal, callbacks, place, old(visiting.references))
    decreases DEPTH_LIMIT - |visiting.references|
  {
    hide Outcome, LeftBehind, ParentOf;
    ghost var before := visiting.references;
    var reference := place.reference;
    var added := reference !in visiting.references;
    visiting.references := visiting.references + {reference};
    if !added || |visiting.references| > DEPTH_LIMIT {
      ResolvedAtLimit(journal, callbacks, place, before);
      return Err(CycleOrDepth);
    }
    var historical := ParentOf(journal, place);
    match historical {
      case Some(record) =>
        OutcomeAbove(journal, callbacks, place, before, record);
        LeftAbove(journal, callbacks, place, before, record);
        var parent := Resolve(Up(record), journal, visiting, callbacks);
        if parent.Err? {
          return Err(parent.error);
        }
        result := Lift(callbacks.append(parent.value, record.name));
      case None =>
        ResolvedAtEnd(journal, callbacks, place, before);
        result := Lift(callbacks.open(reference));
    }
    visiting.references := visiting.references - {reference};
  }

  /**
   * Resolution fails for a cycle or for depth exactly when no admissible chain leads out of the
   * place, whatever the callbacks do; otherwise the path is built along the one chain there is.
   * A success leaves the visiting set as it was.
   */
  lemma ResolutionFollowsTheChain<P, E>(journal: Journal, callbacks: Callbacks<P, E>, place: Place, visiting: set<FileReference>)
    ensures Outcome(journal, callbacks, place, visiting) == Err(CycleOrDepth) <==>
            !exists chain: seq<Place> :: Admissible(journal, place, chain, visiting)
    ensures forall chain: seq<Place> | Admissible(journal, place, chain, visiting) ::
              Outcome(journal, callbacks, place, visiting) == Lift(Built(journal, callbacks, chain, 0))
    ensures Outcome(journal, callbacks, place, visiting).Ok? ==> LeftBehind(journal, callbacks, place, visiting) == visiting
  {
    StuckIffNoChain(journal, place, visiting);
    forall chain: seq<Place> | Admissible(journal, place, chain, visiting)
      ensures chain == Descend(journal, place, visiting)
    {
      ChainIsTheDescent(journal, place, chain, visiting);
    }
    FailedWithin(journal, callbacks, Descend(journal, place, visiting), 0);
    NoReferences();
    hide Descend, Stuck, Admissible, Built, FailedAt, References;
  }

  // ---------------------------------------------------------------- what an error leaves behind

  lemma NeverShrinks<P, E>(journal: Journal, callbacks: Callbacks<P, E>, place: Place, visiting: set<FileReference>)
    ensures visiting <= LeftBehind(journal, callbacks, place, visiting)
  {
    hide Descend, Stuck, FailedAt, References;
  }

  /** An admissible chain along which no callback fails. */
  ghost predicate LeadsOut<P, E>(
      journal: Journal, callbacks: Callbacks<P, E>, place: Place, chain: seq<Place>, visiting: set<FileReference>)
  {
    Admissible(journal, place, chain, visiting) && Built(journal, callbacks, chain, 0).Ok?
  }

  lemma ResolvesIff<P, E>(journal: Journal, callbacks: Callbacks<P, E>, place: Place, visiting: set<FileReference>)
    ensures Outcome(journal, callbacks, place, visiting).Ok? <==>
            exists chain: seq<Place> :: LeadsOut(journal, callbacks, place, chain, visiting)
  {
    ResolutionFollowsTheChain(journal, callbacks, place, visiting);
    hide Outcome, Admissible, Built;
    if Outcome(journal, callbacks, place, visiting).Ok? {
      var chain :| Admissible(journal, place, chain, visiting);
      assert LeadsOut(journal, callbacks, place, chain, visiting);
    }
  }

  /**
   * The visiting set is restored exactly if the reference was being visited already, or there is
   * room for it and it has no parent record or an admissible chain, with no callback failing on it,
   * leads out of its parent. So a failing callback of the outermost call restores the set, while a
   * cycle, too long a chain or a callback that fails further up leaves references behind.
   */
  lemma RestoredIff<P, E>(journal: Journal, callbacks: Callbacks<P, E>, place: Place, visiting: set<FileReference>)
    ensures LeftBehind(journal, callbacks, place, visiting) == visiting <==>
            || place.reference in visiting
            || (&& |visiting| < DEPTH_LIMIT
                && match ParentOf(journal, place)
                   case None => true
                   case Some(record) =>
                     exists chain: seq<Place> :: LeadsOut(journal, callbacks, Up(record), chain, visiting + {place.reference}))
  {
    hide LeftBehind, Outcome, ParentOf, LeadsOut;
    if place.reference in visiting || |visiting| >= DEPTH_LIMIT {
      ResolvedAtLimit(journal, callbacks, place, visiting);
    } else {
      match ParentOf(journal, place)
      case None => ResolvedAtEnd(journal, callbacks, place, visiting);
      case Some(record) =>
        LeftAbove(journal, callbacks, place, visiting, record);
        NeverShrinks(journal, callbacks, Up(record), visiting + {place.reference});
        ResolvesIff(journal, callbacks, Up(record), visiting + {place.reference});
    }
  }

  const SELF := Record(V2(1), V2(1), 0, 0, "a")

  /** A file that is its own parent: the failed resolution leaves its reference in the set. */
  lemma SelfParentIsLeftBehind<P, E>(callbacks: Callbacks<P, E>)
    ensures var journal := Journal([SELF], map[V2(1) := [0]]);
            && IndexesAll(journal.histories, journal.records)
            && Outcome(journal, callbacks, Place(V2(1), 1), {}) == Err(CycleOrDepth)
            && LeftBehind(journal, callbacks, Place(V2(1), 1), {}) == {V2(1)}
  {
    var journal := Journal([SELF], map[V2(1) := [0]]);
    var place := Place(V2(1), 1);
    assert LastBefore([0], [SELF], 1) == Some(SELF);
    assert ParentOf(journal, place) == Some(SELF);
    assert IndexesAll(journal.histories, journal.records) by {
      assert forall reference: FileReference :: IndexesOne(journal.histories, journal.records, 1, reference);
    }
    hide ParentOf, LeftBehind, Outcome, IndexesAll;
    OutcomeAbove(journal, callbacks, place, {}, SELF);
    LeftAbove(journal, callbacks, place, {}, SELF);
    ResolvedAtLimit(journal, callbacks, Up(SELF), {} + {V2(1)});
    assert {} + {V2(1)} + {V2(1)} == {V2(1)};
  }
}
