/** What a resolution says in terms of the journal's records alone. */
module UsnRecords {
  import opened Options
  import opened Usn

  /** The two reasons after which a name no longer stands: deletion, and renaming away from it. */
  lemma EndsNameIff(reason: bv32)
    ensures EndsName(reason) <==> reason & 0x200 != 0 || reason & 0x1000 != 0
  {
    assert reason & (0x200 | 0x1000) == (reason & 0x200) | (reason & 0x1000);
  }

  /**
   * Place by place the record that a scan chooses: it names the parent, and the parent is looked up
   * before that record.
   */
  ghost predicate Recorded(records: seq<Record>, place: Place, trail: seq<Place>, story: seq<Record>) {
    && |trail| == |story| + 1 && trail[0] == place
    && forall k: nat | k < |story| ::
         && ScanFinds(records, trail[k].reference, trail[k].bound, Some(story[k]))
         && trail[k + 1].reference == story[k].parentReference
         && trail[k + 1].bound == story[k].usn
  }

  /** The path: the last reference opened and the names of the records appended, the farthest first. */
  function Spelled<P, E>(callbacks: Callbacks<P, E>, story: seq<Record>, last: FileReference): Result<P, E> {
    if story == [] then callbacks.open(last)
    else
      match Spelled(callbacks, story[1..], last)
      case Err(error) => Err(error)
      case Ok(parent) => callbacks.append(parent, story[0].name)
  }

  /** A recorded trail that ends where no record is left, within the limit and without a repetition. */
  ghost predicate Leads<P, E>(records: seq<Record>, callbacks: Callbacks<P, E>, place: Place, visiting: set<FileReference>,
                              trail: seq<Place>, story: seq<Record>, result: Result<P, E>)
  {
    && Recorded(records, place, trail, story)
    && ScanFinds(records, trail[|story|].reference, trail[|story|].bound, None)
    && (forall a, b | 0 <= a < b < |trail| :: trail[a].reference != trail[b].reference)
    && (forall a | 0 <= a < |trail| :: trail[a].reference !in visiting)
    && |visiting| + |trail| <= 256
    && Spelled(callbacks, story, trail[|story|].reference) == result
  }

  lemma ScanIsUnique(records: seq<Record>, reference: FileReference, bound: int, a: Option<Record>, b: Option<Record>)
    requires ScanFinds(records, reference, bound, a) && ScanFinds(records, reference, bound, b)
    ensures a == b
  {
    if exists i: nat :: Before(records, reference, bound, i) {
      var i: nat :| Before(records, reference, bound, i) && a == Some(records[i])
                    && forall j: nat | j > i :: !Before(records, reference, bound, j);
      var k: nat :| Before(records, reference, bound, k) && b == Some(records[k])
                    && forall j: nat | j > k :: !Before(records, reference, bound, j);
      assert i == k;
    } else if exists i: nat :: Ending(records, reference, bound, i) {
      var i: nat :| Ending(records, reference, bound, i) && a == Some(records[i])
                    && forall j: nat | j < i :: !Ending(records, reference, bound, j);
      var k: nat :| Ending(records, reference, bound, k) && b == Some(records[k])
                    && forall j: nat | j < k :: !Ending(records, reference, bound, j);
      assert i == k;
    }
  }

  lemma ParentIsScanned(journal: Journal, place: Place)
    requires IndexesAll(journal.histories, journal.records)
    ensures ScanFinds(journal.records, place.reference, place.bound, ParentOf(journal, place))
  {
    HistoryRefinesScan(journal.histories, journal.records, place.reference, place.bound);
    hide IndexesAll, ScanFinds;
    assert Positions(journal.histories, place.reference) == [] ==>
             HistoricalParentRecord([], journal.records, place.bound) == None;
  }

  /** The records along a trail that ascends. */
  function StoryOf(journal: Journal, trail: seq<Place>): (story: seq<Record>)
    requires trail != [] && forall k | 0 <= k < |trail| - 1 :: ParentOf(journal, trail[k]).Some?
    ensures |story| == |trail| - 1
  {
    seq(|trail| - 1, k requires 0 <= k < |trail| - 1 && ParentOf(journal, trail[k]).Some? => ParentOf(journal, trail[k]).value)
  }

  /** Every trail that a resolution follows is recorded, stuck or not. */
  lemma TrailIsRecorded(journal: Journal, place: Place, visiting: set<FileReference>)
    requires IndexesAll(journal.histories, journal.records)
    ensures exists story: seq<Record> :: Recorded(journal.records, place, Descend(journal, place, visiting), story)
  {
    var trail := Descend(journal, place, visiting);
    DescentAscends(journal, place, visiting);
    hide Descend, IndexesAll, ScanFinds, ParentOf;
    var story := StoryOf(journal, trail);
    forall k: nat | k < |story|
      ensures ScanFinds(journal.records, trail[k].reference, trail[k].bound, Some(story[k]))
      ensures trail[k + 1] == Up(story[k])
    {
      ParentIsScanned(journal, trail[k]);
    }
    assert Recorded(journal.records, place, trail, story);
  }

  /** A recorded trail with nothing above it is the chain that the resolution follows. */
  lemma RecordedIsAdmissible<P, E>(journal: Journal, callbacks: Callbacks<P, E>, place: Place, visiting: set<FileReference>,
                                   trail: seq<Place>, story: seq<Record>, result: Result<P, E>)
    requires IndexesAll(journal.histories, journal.records)
    requires Leads(journal.records, callbacks, place, visiting, trail, story, result)
    ensures Admissible(journal, place, trail, visiting)
    ensures forall k: nat | k < |story| :: ParentOf(journal, trail[k]) == Some(story[k])
  {
    hide IndexesAll, ScanFinds, ParentOf, Spelled;
    forall k: nat | k < |story|
      ensures ParentOf(journal, trail[k]) == Some(story[k]) && trail[k + 1] == Up(story[k])
    {
      ParentIsScanned(journal, trail[k]);
      ScanIsUnique(journal.records, trail[k].reference, trail[k].bound, ParentOf(journal, trail[k]), Some(story[k]));
    }
    var last := trail[|story|];
    ParentIsScanned(journal, last);
    ScanIsUnique(journal.records, last.reference, last.bound, ParentOf(journal, last), None);
    assert References(trail) !! visiting;
  }

  lemma {:induction false} BuiltIsSpelled<P, E>(journal: Journal, callbacks: Callbacks<P, E>, chain: seq<Place>,
                                                story: seq<Record>, from: nat)
    requires |chain| == |story| + 1 && from < |chain|
    requires forall k: nat | k < |story| :: ParentOf(journal, chain[k]) == Some(story[k])
    ensures Built(journal, callbacks, chain, from) == Spelled(callbacks, story[from..], chain[|story|].reference)
    decreases |chain| - from
  {
    hide ParentOf;
    if from < |story| {
      BuiltIsSpelled(journal, callbacks, chain, story, from + 1);
      assert story[from..][1..] == story[from + 1..];
      assert NameAt(journal, chain[from]) == story[from].name;
    }
  }

  /** Along the chain that the resolution follows the records lead to what it builds. */
  lemma ChainLeads<P, E>(journal: Journal, callbacks: Callbacks<P, E>, place: Place, visiting: set<FileReference>,
                         chain: seq<Place>)
    requires IndexesAll(journal.histories, journal.records) && Admissible(journal, place, chain, visiting)
    ensures exists story: seq<Record> ::
              Leads(journal.records, callbacks, place, visiting, chain, story, Built(journal, callbacks, chain, 0))
  {
    hide IndexesAll, ScanFinds, ParentOf, Built, Spelled;
    var story := StoryOf(journal, chain);
    forall k: nat | k < |story|
      ensures ScanFinds(journal.records, chain[k].reference, chain[k].bound, Some(story[k]))
      ensures chain[k + 1] == Up(story[k]) && ParentOf(journal, chain[k]) == Some(story[k])
    {
      ParentIsScanned(journal, chain[k]);
    }
    ParentIsScanned(journal, chain[|story|]);
    BuiltIsSpelled(journal, callbacks, chain, story, 0);
    assert story[0..] == story;
    assert Leads(journal.records, callbacks, place, visiting, chain, story, Built(journal, callbacks, chain, 0));
  }

  /**
   * What a resolution answers, in terms of the records: it succeeds with a path, or fails with a
   * callback's error, exactly if a recorded trail leads there; otherwise there is a cycle or no end
   * within the limit.
   */
  lemma ResolutionFollowsTheRecords<P, E>(journal: Journal, callbacks: Callbacks<P, E>, place: Place,
                                          visiting: set<FileReference>, result: Result<P, E>)
    requires IndexesAll(journal.histories, journal.records)
    ensures Outcome(journal, callbacks, place, visiting) == Lift(result) <==>
            exists trail: seq<Place>, story: seq<Record> ::
              Leads(journal.records, callbacks, place, visiting, trail, story, result)
  {
    ResolutionFollowsTheChain(journal, callbacks, place, visiting);
    hide IndexesAll, Outcome, Leads, Admissible, Built;
    if Outcome(journal, callbacks, place, visiting) == Lift(result) {
      var chain :| Admissible(journal, place, chain, visiting);
      ChainLeads(journal, callbacks, place, visiting, chain);
    }
    if trail: seq<Place>, story: seq<Record> :| Leads(journal.records, callbacks, place, visiting, trail, story, result) {
      RecordedIsAdmissible(journal, callbacks, place, visiting, trail, story, result);
      LeadsTo(journal, callbacks, place, visiting, trail, story, result);
    }
  }

  lemma LeadsTo<P, E>(journal: Journal, callbacks: Callbacks<P, E>, place: Place, visiting: set<FileReference>,
                      trail: seq<Place>, story: seq<Record>, result: Result<P, E>)
    requires Leads(journal.records, callbacks, place, visiting, trail, story, result)
    requires forall k: nat | k < |story| :: ParentOf(journal, trail[k]) == Some(story[k])
    ensures trail != [] && Built(journal, callbacks, trail, 0) == result
  {
    hide ScanFinds, ParentOf, Built, Spelled;
    BuiltIsSpelled(journal, callbacks, trail, story, 0);
    assert story[0..] == story;
  }
}
