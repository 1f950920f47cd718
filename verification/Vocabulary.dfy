/**
 * The local concept vocabulary (rust/src/adapters/classification_vocabulary.rs): opening a
 * document with its references closed and bounded, and reading neighbourhoods page by page.
 * Concept identities are numbers; how a name becomes an identity is a parameter.
 */
module Vocabulary {
  import opened Options

  const MAX_REFERENCES := 16_384
  const MAX_EDGES := 1_048_576
  const MAX_PAGE := 64

  datatype Concept = Concept(id: nat, definition: nat)

  datatype Entry = Entry(name: string, definition: nat, related: seq<string>, broader: seq<string>)

  datatype Document = Document(concepts: seq<Entry>, entries: seq<string>)

  /** What the resource layer decides: the identity of a name, and whether a definition is sound. */
  datatype Reading = Reading(identity: string -> Option<nat>, sound: nat -> bool)

  datatype Vocabulary = Vocabulary(
    concepts: map<nat, Concept>, entries: seq<nat>, related: map<nat, seq<nat>>, broader: map<nat, seq<nat>>)

  ghost predicate Ascending(ids: seq<nat>) {
    forall i, j | 0 <= i < j < |ids| :: ids[i] < ids[j]
  }

  // ---------------------------------------------------------------- references

  predicate Names(reading: Reading, names: seq<string>, i: nat, id: nat) {
    i < |names| && reading.identity(names[i]) == Some(id)
  }

  ghost predicate Named(reading: Reading, names: seq<string>, count: nat)
    requires count <= |names|
  {
    forall i | 0 <= i < count :: reading.identity(names[i]).Some?
  }

  ghost predicate NamedOnce(reading: Reading, names: seq<string>, count: nat)
    requires count <= |names|
  {
    && Named(reading, names, count)
    && forall i, j | 0 <= i < j < count :: reading.identity(names[i]) != reading.identity(names[j])
  }

  /** The ids are exactly the identities of the first names. */
  ghost predicate Identifies(reading: Reading, names: seq<string>, count: nat, ids: seq<nat>) {
    forall id: nat :: id in ids <==> exists i: nat :: i < count && Names(reading, names, i, id)
  }

  /** The ids are the identities of the names, in ascending order. */
  ghost predicate Lists(reading: Reading, names: seq<string>, ids: seq<nat>) {
    Ascending(ids) && |ids| == |names| && Identifies(reading, names, |names|, ids)
  }

  /** Insertion into an ordered set. */
  method Insert(ids: seq<nat>, id: nat) returns (more: seq<nat>)
    requires Ascending(ids)
    ensures Ascending(more) && forall other: nat :: other in more <==> other == id || other in ids
    ensures |more| == |ids| + if id in ids then 0 else 1
  {
    var at := PartitionPoint(ids, id);
    if at > 0 && ids[at - 1] == id {
      return ids;
    }
    more := ids[..at] + [id] + ids[at..];
  }

  /** How many of the ids are at most the bound, by bisection. */
  method PartitionPoint(ids: seq<nat>, bound: nat) returns (at: nat)
    requires Ascending(ids)
    ensures at <= |ids|
    ensures forall i | 0 <= i < at :: ids[i] <= bound
    ensures forall i | at <= i < |ids| :: ids[i] > bound
  {
    var low, high := 0, |ids|;
    while low < high
      invariant 0 <= low <= high <= |ids|
      invariant forall i | 0 <= i < low :: ids[i] <= bound
      invariant forall i | high <= i < |ids| :: ids[i] > bound
    {
      var middle := (low + high) / 2;
      if ids[middle] <= bound {
        low := middle + 1;
      } else {
        high := middle;
      }
    }
    at := low;
  }

  /** A list of references is taken exactly if it is short enough, and names known things once. */
  method References(reading: Reading, names: seq<string>, total: nat) returns (ids: Option<seq<nat>>, sum: nat)
    ensures sum == total + |names|
    ensures ids.Some? <==> |names| <= MAX_REFERENCES && sum <= MAX_EDGES && NamedOnce(reading, names, |names|)
    ensures ids.Some? ==> Lists(reading, names, ids.value)
  {
    hide Ascending;
    sum := total + |names|;
    if |names| > MAX_REFERENCES || sum > MAX_EDGES {
      return None, sum;
    }
    var collected := [];
    NoneCollected();
    for i := 0 to |names|
      invariant Ascending(collected) && Named(reading, names, i) && Identifies(reading, names, i, collected)
      invariant |collected| <= i && (|collected| == i <==> NamedOnce(reading, names, i))
    {
      var identity := reading.identity(names[i]);
      if identity.None? {
        return None, sum;
      }
      NameOneMore(reading, names, i, collected);
      collected := Insert(collected, identity.value);
      assert forall id: nat :: id in collected <==> exists k: nat :: k < i + 1 && Names(reading, names, k, id);
    }
    ids := if |collected| != |names| then None else Some(collected);
  }

  lemma NoneCollected()
    ensures Ascending([])
  {
  }

  lemma NameOneMore(reading: Reading, names: seq<string>, i: nat, ids: seq<nat>)
    requires i < |names| && reading.identity(names[i]).Some?
    requires Named(reading, names, i) && Identifies(reading, names, i, ids)
    ensures Named(reading, names, i + 1)
    ensures NamedOnce(reading, names, i + 1) <==> NamedOnce(reading, names, i) && reading.identity(names[i]).value !in ids
    ensures forall id: nat :: (exists k: nat :: k < i + 1 && Names(reading, names, k, id)) <==>
                              id in ids || id == reading.identity(names[i]).value
  {
    var here := reading.identity(names[i]).value;
    assert Names(reading, names, i, here);
    forall id: nat
      ensures (exists k: nat :: k < i + 1 && Names(reading, names, k, id)) <==> id in ids || id == here
    {
      if id in ids {
        var k: nat :| k < i && Names(reading, names, k, id);
      }
    }
    if here in ids {
      var k: nat :| k < i && Names(reading, names, k, here);
    }
    if NamedOnce(reading, names, i) && here !in ids {
      forall k | 0 <= k < i
        ensures reading.identity(names[k]) != reading.identity(names[i])
      {
        assert Names(reading, names, k, reading.identity(names[k]).value);
      }
    }
  }

  // ---------------------------------------------------------------- opening

  ghost predicate ListFits(reading: Reading, names: seq<string>) {
    |names| <= MAX_REFERENCES && NamedOnce(reading, names, |names|)
  }

  ghost predicate EntryFits(reading: Reading, entry: Entry) {
    && reading.identity(entry.name).Some? && reading.sound(entry.definition)
    && ListFits(reading, entry.related) && ListFits(reading, entry.broader)
  }

  function Edges(concepts: seq<Entry>): nat {
    if concepts == [] then 0
    else
      var last := concepts[|concepts| - 1];
      Edges(concepts[..|concepts| - 1]) + |last.related| + |last.broader|
  }

  /** All references of the first concepts are short and named once, and no two concepts share an identity. */
  ghost predicate ConceptsFit(reading: Reading, concepts: seq<Entry>) {
    && (forall i | 0 <= i < |concepts| :: EntryFits(reading, concepts[i]))
    && (forall i, j | 0 <= i < j < |concepts| :: reading.identity(concepts[i].name) != reading.identity(concepts[j].name))
    && Edges(concepts) <= MAX_EDGES
  }

  ghost predicate KnownConcept(reading: Reading, concepts: seq<Entry>, id: nat) {
    exists i: nat :: i < |concepts| && reading.identity(concepts[i].name) == Some(id)
  }

  ghost predicate AllKnown(reading: Reading, concepts: seq<Entry>, names: seq<string>) {
    forall i | 0 <= i < |names| ::
      reading.identity(names[i]).Some? ==> KnownConcept(reading, concepts, reading.identity(names[i]).value)
  }

  /** What a document must satisfy to be opened. */
  ghost predicate WellFormed(reading: Reading, document: Document) {
    && ConceptsFit(reading, document.concepts) && ListFits(reading, document.entries)
    && Edges(document.concepts) + |document.entries| <= MAX_EDGES
    && AllKnown(reading, document.concepts, document.entries)
    && (forall i | 0 <= i < |document.concepts| ::
          && AllKnown(reading, document.concepts, document.concepts[i].related)
          && AllKnown(reading, document.concepts, document.concepts[i].broader))
  }

  /** The vocabulary says of this concept what the document says. */
  ghost predicate Shows(reading: Reading, v: Vocabulary, entry: Entry) {
    reading.identity(entry.name).Some? &&
    var id := reading.identity(entry.name).value;
    && id in v.concepts && id in v.related && id in v.broader
    && v.concepts[id] == Concept(id, entry.definition)
    && Lists(reading, entry.related, v.related[id]) && Lists(reading, entry.broader, v.broader[id])
  }

  ghost predicate Represents(reading: Reading, v: Vocabulary, concepts: seq<Entry>) {
    && (forall i | 0 <= i < |concepts| :: Shows(reading, v, concepts[i]))
    && (forall id: nat | id in v.concepts || id in v.related || id in v.broader :: KnownConcept(reading, concepts, id))
  }

  /** Every reference leads to a concept. */
  ghost predicate Closed(v: Vocabulary) {
    && v.related.Keys == v.concepts.Keys && v.broader.Keys == v.concepts.Keys
    && Within(v.entries, v.concepts)
    && (forall id | id in v.related :: Within(v.related[id], v.concepts))
    && (forall id | id in v.broader :: Within(v.broader[id], v.concepts))
  }

  ghost predicate Within(ids: seq<nat>, concepts: map<nat, Concept>) {
    forall i | 0 <= i < |ids| :: ids[i] in concepts
  }

  method IsWithin(ids: seq<nat>, concepts: map<nat, Concept>) returns (within: bool)
    ensures within <==> Within(ids, concepts)
  {
    for i := 0 to |ids|
      invariant forall k | 0 <= k < i :: ids[k] in concepts
    {
      if ids[i] !in concepts {
        return false;
      }
    }
    within := true;
  }

  method AreWithin(lists: map<nat, seq<nat>>, concepts: map<nat, Concept>) returns (within: bool)
    ensures within <==> forall id | id in lists :: Within(lists[id], concepts)
  {
    var rest := lists.Keys;
    while rest != {}
      invariant rest <= lists.Keys && forall id | id in lists && id !in rest :: Within(lists[id], concepts)
      decreases |rest|
    {
      var id :| id in rest;
      var fine := IsWithin(lists[id], concepts);
      if !fine {
        return false;
      }
      rest := rest - {id};
    }
    within := true;
  }

  /** Reading one concept of the document into the maps. */
  method AddConcept(reading: Reading, v: Vocabulary, concepts: seq<Entry>, i: nat, total: nat)
    returns (more: Option<Vocabulary>, sum: nat)
    requires i < |concepts| && Represents(reading, v, concepts[..i]) && ConceptsFit(reading, concepts[..i])
    requires total == Edges(concepts[..i])
    ensures more.Some? <==> ConceptsFit(reading, concepts[..i + 1])
    ensures more.Some? ==> Represents(reading, more.value, concepts[..i + 1]) && sum == Edges(concepts[..i + 1])
    ensures more.Some? ==> more.value.entries == v.entries
  {
    hide Lists, Ascending, Identifies, NamedOnce, Shows;
    ghost var prefix, longer := concepts[..i], concepts[..i + 1];
    var entry := concepts[i];
    FitsOneMore(reading, concepts, i);
    var identity := reading.identity(entry.name);
    sum := total;
    if identity.None? || !reading.sound(entry.definition) {
      return None, sum;
    }
    var id := identity.value;
    if id in v.concepts {
      assert KnownConcept(reading, prefix, id);
      return None, sum;
    }
    assert !KnownConcept(reading, prefix, id) by {
      NotYetKnown(reading, v, prefix, id);
    }
    var neighbors, parents;
    neighbors, sum := References(reading, entry.related, sum);
    if neighbors.None? {
      return None, sum;
    }
    parents, sum := References(reading, entry.broader, sum);
    if parents.None? {
      return None, sum;
    }
    more := Some(v.(concepts := v.concepts[id := Concept(id, entry.definition)],
                    related := v.related[id := neighbors.value],
                    broader := v.broader[id := parents.value]));
    AddedShows(reading, v, concepts, i, neighbors.value, parents.value);
  }

  lemma NotYetKnown(reading: Reading, v: Vocabulary, concepts: seq<Entry>, id: nat)
    requires Represents(reading, v, concepts) && id !in v.concepts
    ensures !KnownConcept(reading, concepts, id)
  {
    hide Lists;
  }

  lemma FitsOneMore(reading: Reading, concepts: seq<Entry>, i: nat)
    requires i < |concepts| && ConceptsFit(reading, concepts[..i])
    ensures Edges(concepts[..i + 1]) == Edges(concepts[..i]) + |concepts[i].related| + |concepts[i].broader|
    ensures ConceptsFit(reading, concepts[..i + 1]) <==>
            && EntryFits(reading, concepts[i])
            && !KnownConcept(reading, concepts[..i], reading.identity(concepts[i].name).value)
            && Edges(concepts[..i + 1]) <= MAX_EDGES
  {
    hide ListFits;
    var prefix, longer := concepts[..i], concepts[..i + 1];
    assert longer[..i] == prefix && longer[i] == concepts[i];
    hide Edges;
    if ConceptsFit(reading, longer) {
      assert EntryFits(reading, longer[i]);
      forall k: nat | k < |prefix|
        ensures reading.identity(prefix[k].name) != reading.identity(concepts[i].name)
      {
        assert reading.identity(longer[k].name) != reading.identity(longer[i].name);
      }
    }
    if EntryFits(reading, concepts[i]) && !KnownConcept(reading, prefix, reading.identity(concepts[i].name).value) {
      forall a, b | 0 <= a < b < |longer|
        ensures reading.identity(longer[a].name) != reading.identity(longer[b].name)
      {
        assert longer[a] == prefix[a];
        if b < i {
          assert longer[b] == prefix[b];
        }
      }
      forall a | 0 <= a < |longer|
        ensures EntryFits(reading, longer[a])
      {
        if a < i {
          assert longer[a] == prefix[a];
        }
      }
    }
  }

  lemma AddedShows(reading: Reading, v: Vocabulary, concepts: seq<Entry>, i: nat, neighbors: seq<nat>, parents: seq<nat>)
    requires i < |concepts| && Represents(reading, v, concepts[..i])
    requires reading.identity(concepts[i].name).Some?
    requires !KnownConcept(reading, concepts[..i], reading.identity(concepts[i].name).value)
    requires Lists(reading, concepts[i].related, neighbors) && Lists(reading, concepts[i].broader, parents)
    ensures var id := reading.identity(concepts[i].name).value;
            Represents(reading, v.(concepts := v.concepts[id := Concept(id, concepts[i].definition)],
                                   related := v.related[id := neighbors],
                                   broader := v.broader[id := parents]), concepts[..i + 1])
  {
    hide Lists;
    var prefix, longer := concepts[..i], concepts[..i + 1];
    var id := reading.identity(concepts[i].name).value;
    var w := v.(concepts := v.concepts[id := Concept(id, concepts[i].definition)],
                related := v.related[id := neighbors], broader := v.broader[id := parents]);
    forall k | 0 <= k < |longer|
      ensures Shows(reading, w, longer[k])
    {
      if k < i {
        assert longer[k] == prefix[k] && Shows(reading, v, prefix[k]);
      }
    }
    forall other: nat | other in w.concepts || other in w.related || other in w.broader
      ensures KnownConcept(reading, longer, other)
    {
      if other == id {
        assert reading.identity(longer[i].name) == Some(other);
      } else {
        var k: nat :| k < |prefix| && reading.identity(prefix[k].name) == Some(other);
        assert reading.identity(longer[k].name) == Some(other);
      }
    }
  }

  lemma WithinKnown(reading: Reading, v: Vocabulary, concepts: seq<Entry>, names: seq<string>, ids: seq<nat>)
    requires Represents(reading, v, concepts) && Lists(reading, names, ids) && Named(reading, names, |names|)
    ensures Within(ids, v.concepts) <==> AllKnown(reading, concepts, names)
  {
    hide Ascending;
    assert forall id: nat :: id in v.concepts <==> KnownConcept(reading, concepts, id) by {
      ConceptsAreKnown(reading, v, concepts);
    }
    if Within(ids, v.concepts) {
      forall i | 0 <= i < |names| && reading.identity(names[i]).Some?
        ensures KnownConcept(reading, concepts, reading.identity(names[i]).value)
      {
        var id := reading.identity(names[i]).value;
        assert Names(reading, names, i, id) && id in ids;
        var k :| 0 <= k < |ids| && ids[k] == id;
      }
    }
    if AllKnown(reading, concepts, names) {
      forall k | 0 <= k < |ids|
        ensures ids[k] in v.concepts
      {
        assert ids[k] in ids;
        var i: nat :| i < |names| && Names(reading, names, i, ids[k]);
      }
    }
  }

  lemma ConceptsAreKnown(reading: Reading, v: Vocabulary, concepts: seq<Entry>)
    requires Represents(reading, v, concepts)
    ensures forall id: nat :: id in v.concepts <==> KnownConcept(reading, concepts, id)
    ensures v.related.Keys == v.concepts.Keys && v.broader.Keys == v.concepts.Keys
  {
    hide Lists;
    forall id: nat | KnownConcept(reading, concepts, id)
      ensures id in v.concepts && id in v.related && id in v.broader
    {
      var i: nat :| i < |concepts| && reading.identity(concepts[i].name) == Some(id);
      assert Shows(reading, v, concepts[i]);
    }
  }

  /** All lists of one kind are within the concepts exactly if the document's names are known. */
  lemma AllWithinKnown(reading: Reading, v: Vocabulary, concepts: seq<Entry>)
    requires Represents(reading, v, concepts) && ConceptsFit(reading, concepts)
    ensures (forall id | id in v.related :: Within(v.related[id], v.concepts)) <==>
            (forall i | 0 <= i < |concepts| :: AllKnown(reading, concepts, concepts[i].related))
    ensures (forall id | id in v.broader :: Within(v.broader[id], v.concepts)) <==>
            (forall i | 0 <= i < |concepts| :: AllKnown(reading, concepts, concepts[i].broader))
  {
    hide Lists, Within, AllKnown, Named, Edges;
    ConceptsAreKnown(reading, v, concepts);
    forall i | 0 <= i < |concepts|
      ensures var id := reading.identity(concepts[i].name).value;
              && id in v.related && id in v.broader
              && (Within(v.related[id], v.concepts) <==> AllKnown(reading, concepts, concepts[i].related))
              && (Within(v.broader[id], v.concepts) <==> AllKnown(reading, concepts, concepts[i].broader))
    {
      assert Shows(reading, v, concepts[i]) && EntryFits(reading, concepts[i]);
      var id := reading.identity(concepts[i].name).value;
      WithinKnown(reading, v, concepts, concepts[i].related, v.related[id]);
      WithinKnown(reading, v, concepts, concepts[i].broader, v.broader[id]);
    }
    hide Shows, EntryFits;
    forall id | id in v.related || id in v.broader
      ensures KnownConcept(reading, concepts, id)
    {
    }
  }

  lemma {:induction false} FitPrefix(reading: Reading, concepts: seq<Entry>, i: nat)
    requires i <= |concepts| && ConceptsFit(reading, concepts)
    ensures ConceptsFit(reading, concepts[..i])
  {
    EdgesGrow(concepts, i);
    hide Edges;
  }

  lemma {:induction false} EdgesGrow(concepts: seq<Entry>, i: nat)
    requires i <= |concepts|
    ensures Edges(concepts[..i]) <= Edges(concepts)
    decreases |concepts| - i
  {
    if i == |concepts| {
      assert concepts[..i] == concepts;
    } else {
      EdgesGrow(concepts, i + 1);
      assert concepts[..i + 1][..i] == concepts[..i];
    }
  }

  /**
   * A document opens exactly if it is well formed; the vocabulary then says what the document
   * says, and every reference in it leads to a concept.
   */
  method Open(reading: Reading, document: Document) returns (opening: Option<Vocabulary>)
    ensures opening.Some? <==> WellFormed(reading, document)
    ensures opening.Some? ==> Represents(reading, opening.value, document.concepts) && Closed(opening.value)
                              && Lists(reading, document.entries, opening.value.entries)
  {
    hide Represents, ConceptsFit, Lists, AllKnown, Within, NamedOnce;
    var concepts := document.concepts;
    var v := Vocabulary(map[], [], map[], map[]);
    var total := 0;
    NothingRead(reading, concepts, v);
    for i := 0 to |concepts|
      invariant Represents(reading, v, concepts[..i]) && ConceptsFit(reading, concepts[..i]) && total == Edges(concepts[..i])
    {
      var more;
      more, total := AddConcept(reading, v, concepts, i, total);
      if more.None? {
        if ConceptsFit(reading, concepts) {
          FitPrefix(reading, concepts, i + 1);
        }
        return None;
      }
      v := more.value;
    }
    assert concepts[..|concepts|] == concepts;
    var entries, sum := References(reading, document.entries, total);
    if entries.None? {
      return None;
    }
    v := WithEntries(reading, v, concepts, entries.value);
    assert Named(reading, document.entries, |document.entries|) by {
      OnceIsNamed(reading, document.entries);
    }
    WithinKnown(reading, v, concepts, document.entries, v.entries);
    AllWithinKnown(reading, v, concepts);
    ConceptsAreKnown(reading, v, concepts);
    var entriesFine := IsWithin(v.entries, v.concepts);
    var relatedFine := AreWithin(v.related, v.concepts);
    var broaderFine := AreWithin(v.broader, v.concepts);
    opening := if entriesFine && relatedFine && broaderFine then Some(v) else None;
  }

  lemma OnceIsNamed(reading: Reading, names: seq<string>)
    requires NamedOnce(reading, names, |names|)
    ensures Named(reading, names, |names|)
  {
  }

  lemma NothingRead(reading: Reading, concepts: seq<Entry>, v: Vocabulary)
    requires v == Vocabulary(map[], [], map[], map[])
    ensures Represents(reading, v, concepts[..0]) && ConceptsFit(reading, concepts[..0]) && Edges(concepts[..0]) == 0
  {
  }

  method WithEntries(reading: Reading, v: Vocabulary, ghost concepts: seq<Entry>, entries: seq<nat>) returns (w: Vocabulary)
    requires Represents(reading, v, concepts)
    ensures w == v.(entries := entries) && Represents(reading, w, concepts)
  {
    hide Lists;
    w := v.(entries := entries);
    assert forall i | 0 <= i < |concepts| :: Shows(reading, v, concepts[i]) ==> Shows(reading, w, concepts[i]);
  }

  // ---------------------------------------------------------------- reading page by page

  datatype Neighborhood = EntryPoints | Related(id: nat) | Broader(id: nat)

  datatype Page = Page(concepts: seq<Concept>, hasMore: bool)

  function Ids(v: Vocabulary, neighborhood: Neighborhood): seq<nat> {
    match neighborhood
    case EntryPoints => v.entries
    case Related(id) => if id in v.related then v.related[id] else []
    case Broader(id) => if id in v.broader then v.broader[id] else []
  }

  /** What an opened vocabulary guarantees to its readers. */
  ghost predicate Readable(v: Vocabulary) {
    && Closed(v) && Ascending(v.entries)
    && (forall id | id in v.related :: Ascending(v.related[id]))
    && (forall id | id in v.broader :: Ascending(v.broader[id]))
    && (forall id | id in v.concepts :: v.concepts[id].id == id)
  }

  lemma OpenedIsReadable(reading: Reading, v: Vocabulary, document: Document)
    requires Represents(reading, v, document.concepts) && Closed(v) && Lists(reading, document.entries, v.entries)
    ensures Readable(v)
  {
    ConceptsAreKnown(reading, v, document.concepts);
    hide Ascending, Closed;
    forall id | id in v.concepts
      ensures v.concepts[id].id == id && Ascending(v.related[id]) && Ascending(v.broader[id])
    {
      var i: nat :| i < |document.concepts| && reading.identity(document.concepts[i].name) == Some(id);
      assert Shows(reading, v, document.concepts[i]);
    }
  }

  /** The concepts of some ids, in the order of the ids. */
  ghost predicate Are(concepts: seq<Concept>, v: Vocabulary, ids: seq<nat>) {
    |concepts| == |ids| && forall i | 0 <= i < |ids| :: ids[i] in v.concepts && concepts[i] == v.concepts[ids[i]]
  }

  /** The first id after the cursor. */
  ghost predicate StartsAfter(ids: seq<nat>, after: Option<nat>, start: nat) {
    match after
    case None => start == 0
    case Some(id) =>
      start <= |ids| && (forall i | 0 <= i < start :: ids[i] <= id) && (forall i | start <= i < |ids| :: ids[i] > id)
  }

  /** One page: the next ids after the cursor, as many as the limit allows, with their concepts. */
  ghost predicate IsPage(v: Vocabulary, ids: seq<nat>, after: Option<nat>, limit: nat, page: Page) {
    exists start: nat :: start <= |ids| && StartsAfter(ids, after, start)
                         && Are(page.concepts, v, ids[start..End(ids, start, limit)])
                         && (page.hasMore <==> End(ids, start, limit) < |ids|)
  }

  function End(ids: seq<nat>, start: nat, limit: nat): (end: nat)
    requires start <= |ids|
    ensures start <= end <= |ids|
  {
    if start + limit < |ids| then start + limit else |ids|
  }

  /** Reading is refused for a bad limit only; every lookup of a concept is defined. */
  method ReadConcepts(v: Vocabulary, neighborhood: Neighborhood, after: Option<nat>, limit: nat)
    returns (page: Option<Page>)
    requires Readable(v)
    ensures page.Some? <==> 1 <= limit <= MAX_PAGE
    ensures page.Some? ==> IsPage(v, Ids(v, neighborhood), after, limit, page.value)
    ensures page.Some? ==> |page.value.concepts| <= limit && (page.value.hasMore ==> |page.value.concepts| == limit)
  {
    if !(1 <= limit <= MAX_PAGE) {
      return None;
    }
    hide Readable;
    var ids := Ids(v, neighborhood);
    var start := 0;
    if after.Some? {
      start := PartitionPoint(ids, after.value);
    }
    var end := End(ids, start, limit);
    var concepts := [];
    for i := start to end
      invariant |concepts| == i - start && forall k | 0 <= k < |concepts| :: concepts[k] == v.concepts[ids[start + k]]
    {
      concepts := concepts + [v.concepts[ids[i]]];
    }
    assert Are(concepts, v, ids[start..end]);
    assert StartsAfter(ids, after, start);
    page := Some(Page(concepts, end < |ids|));
  }

  /** A reader that continues after the last concept it was given while there is more. */
  ghost predicate Session(v: Vocabulary, ids: seq<nat>, after: Option<nat>, limits: seq<nat>, pages: seq<Page>)
    decreases |pages|
  {
    if pages == [] then true
    else
      && limits != [] && 1 <= limits[0] <= MAX_PAGE
      && IsPage(v, ids, after, limits[0], pages[0])
      && (if pages[0].hasMore && pages[0].concepts != []
          then Session(v, ids, Some(pages[0].concepts[|pages[0].concepts| - 1].id), limits[1..], pages[1..])
          else |pages| == 1)
  }

  function All(pages: seq<Page>): seq<Concept> {
    if pages == [] then [] else pages[0].concepts + All(pages[1..])
  }

  lemma StartIsUnique(ids: seq<nat>, after: Option<nat>, a: nat, b: nat)
    requires a <= |ids| && b <= |ids| && StartsAfter(ids, after, a) && StartsAfter(ids, after, b)
    ensures a <= b
  {
    if after.Some? && b < |ids| {
      assert ids[b] > after.value;
    }
  }

  /** A page that starts at a known position, and where it leaves the reader. */
  lemma PageFrom(v: Vocabulary, ids: seq<nat>, after: Option<nat>, start: nat, limit: nat, page: Page)
    requires Ascending(ids) && Within(ids, v.concepts) && (forall id | id in v.concepts :: v.concepts[id].id == id)
    requires start <= |ids| && StartsAfter(ids, after, start) && limit >= 1 && IsPage(v, ids, after, limit, page)
    ensures var end := End(ids, start, limit);
            && Are(page.concepts, v, ids[start..end]) && |page.concepts| == end - start && (page.hasMore <==> end < |ids|)
            && (page.concepts != [] ==> StartsAfter(ids, Some(page.concepts[|page.concepts| - 1].id), end))
  {
    var from: nat :| from <= |ids| && StartsAfter(ids, after, from)
                     && Are(page.concepts, v, ids[from..End(ids, from, limit)])
                     && (page.hasMore <==> End(ids, from, limit) < |ids|);
    StartIsUnique(ids, after, from, start);
    StartIsUnique(ids, after, start, from);
    var end := End(ids, start, limit);
    hide StartsAfter, Within, IsPage;
  }

  lemma AreJoined(v: Vocabulary, ids: seq<nat>, start: nat, middle: nat, end: nat, first: seq<Concept>, second: seq<Concept>)
    requires start <= middle <= end <= |ids| && Are(first, v, ids[start..middle]) && Are(second, v, ids[middle..end])
    ensures Are(first + second, v, ids[start..end])
  {
    assert ids[start..end] == ids[start..middle] + ids[middle..end];
  }

  /**
   * Paging by the last returned id gives the neighbourhood's ids in order, each exactly once, for
   * any limits: what has been read is always a prefix, the reader is told there is more exactly
   * when something is missing, and only an empty neighbourhood gives an empty page.
   */
  lemma {:induction false} PagesSpellTheIds(v: Vocabulary, ids: seq<nat>, after: Option<nat>, start: nat, limits: seq<nat>, pages: seq<Page>)
    returns (end: nat)
    requires Ascending(ids) && Within(ids, v.concepts) && (forall id | id in v.concepts :: v.concepts[id].id == id)
    requires start <= |ids| && StartsAfter(ids, after, start) && pages != [] && Session(v, ids, after, limits, pages)
    ensures start <= end <= |ids| && Are(All(pages), v, ids[start..end])
    ensures pages[|pages| - 1].hasMore <==> end < |ids|
    ensures start < |ids| ==> end - start >= |pages|
    decreases |pages|
  {
    hide Ascending, Within, StartsAfter, IsPage, Are;
    var page := pages[0];
    PageFrom(v, ids, after, start, limits[0], page);
    end := End(ids, start, limits[0]);
    if |pages| == 1 {
      assert All(pages[1..]) == [];
      assert All(pages) == page.concepts;
    } else {
      var middle := end;
      end := PagesSpellTheIds(v, ids, Some(page.concepts[|page.concepts| - 1].id), middle, limits[1..], pages[1..]);
      assert All(pages) == page.concepts + All(pages[1..]);
      hide Session, All;
      AreJoined(v, ids, start, middle, end, page.concepts, All(pages[1..]));
    }
  }

  /** The ids are the identities that the document lists for the neighbourhood, in order; none if it has no such concept. */
  ghost predicate Meant(reading: Reading, document: Document, neighborhood: Neighborhood, ids: seq<nat>) {
    match neighborhood
    case EntryPoints => Lists(reading, document.entries, ids)
    case Related(id) =>
      && (forall i | 0 <= i < |document.concepts| && reading.identity(document.concepts[i].name) == Some(id) ::
            Lists(reading, document.concepts[i].related, ids))
      && (!KnownConcept(reading, document.concepts, id) ==> ids == [])
    case Broader(id) =>
      && (forall i | 0 <= i < |document.concepts| && reading.identity(document.concepts[i].name) == Some(id) ::
            Lists(reading, document.concepts[i].broader, ids))
      && (!KnownConcept(reading, document.concepts, id) ==> ids == [])
  }

  lemma IdsAreMeant(reading: Reading, document: Document, v: Vocabulary, neighborhood: Neighborhood)
    requires Represents(reading, v, document.concepts) && Lists(reading, document.entries, v.entries)
    ensures Meant(reading, document, neighborhood, Ids(v, neighborhood))
  {
    hide Lists;
    forall i | 0 <= i < |document.concepts|
      ensures Shows(reading, v, document.concepts[i])
    {
    }
    hide KnownConcept;
  }

  /** Reading an opened vocabulary until there is no more gives the whole neighbourhood, in order, as the document lists it. */
  lemma ReadingIsComplete(
      reading: Reading, document: Document, v: Vocabulary, neighborhood: Neighborhood, limits: seq<nat>, pages: seq<Page>)
    requires Represents(reading, v, document.concepts) && Closed(v) && Lists(reading, document.entries, v.entries)
    requires pages != [] && Session(v, Ids(v, neighborhood), None, limits, pages)
    ensures pages[|pages| - 1].hasMore <==> |All(pages)| < |Ids(v, neighborhood)|
    ensures !pages[|pages| - 1].hasMore ==> Are(All(pages), v, Ids(v, neighborhood))
    ensures Meant(reading, document, neighborhood, Ids(v, neighborhood))
  {
    IdsAreMeant(reading, document, v, neighborhood);
    hide Meant;
    OpenedIsReadable(reading, v, document);
    var ids := Ids(v, neighborhood);
    hide Session, All, Represents, Lists;
    var end := PagesSpellTheIds(v, ids, None, 0, limits, pages);
    assert ids[0..|ids|] == ids;
  }
}
