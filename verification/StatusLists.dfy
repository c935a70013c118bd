/** Status fields kept as lists: search-index statuses (api/v1/status/atlasdeployment.go), IP access
    entries (api/v1/status/atlasipaccesslist.go) and stream connections
    (api/v1/status/atlasstreaminstance.go). The option closures update the slice of the status. */
module StatusLists {
  import opened Common
  import opened GoSlices
  import opened Picking
  import opened Text
  import opened KeyedList

  datatype SearchIndexStatus = SearchIndexStatus(name: string, id: string, status: string, message: string)

  datatype IPAccessEntry = IPAccessEntry(entry: string, status: string)

  datatype StreamConnection = StreamConnection(name: string, resourceRef: ResourceRef)

  function SearchIndexes(): Table<SearchIndexStatus> {
    Table((x: SearchIndexStatus) => x.name,
          (was: SearchIndexStatus, x: SearchIndexStatus) =>
            SearchIndexStatus(was.name, if x.id != "" then x.id else was.id, x.status, x.message))
  }

  predicate HasID(x: SearchIndexStatus) {
    x.id != ""
  }

  function Entries(): Table<IPAccessEntry> {
    Table((x: IPAccessEntry) => x.entry, (was: IPAccessEntry, x: IPAccessEntry) => was.(status := x.status))
  }

  function Connections(): Table<StreamConnection> {
    Table((x: StreamConnection) => x.name,
          (was: StreamConnection, x: StreamConnection) => was.(resourceRef := x.resourceRef))
  }

  ghost function WithID(): SearchIndexStatus -> bool {
    (x: SearchIndexStatus) => x.id != ""
  }

  lemma WithIDPicked(s: seq<SearchIndexStatus>)
    ensures Picks(WithID(), Same, s, SearchIndexes().Filter(s, HasID))
  {
    SearchIndexes().FilterPicks(s, HasID);
    PicksAlike(HasID, Same, WithID(), Same, s, SearchIndexes().Filter(s, HasID));
  }

  lemma NextKept(s: seq<SearchIndexStatus>, i: nat)
    requires i < |s|
    ensures SearchIndexes().Filter(s[..i + 1], HasID)
      == SearchIndexes().Filter(s[..i], HasID) + if HasID(s[i]) then [s[i]] else []
  {
    SearchIndexes().FilterAppend(s[..i], HasID, s[i]);
    assert s[..i + 1] == s[..i] + [s[i]];
  }

  class AtlasDeploymentStatus {
    var searchIndexes: Slice<SearchIndexStatus>

    constructor ()
      ensures searchIndexes.Valid() && searchIndexes.Contents() == []
    {
      searchIndexes := new Slice();
    }

    /** The kept statuses go to a new slice; the old one is left as it was. */
    method RemoveStatusesWithEmptyIDs()
      requires searchIndexes.Valid()
      modifies this
      ensures fresh(searchIndexes) && searchIndexes.Valid()
      ensures searchIndexes.Contents() == SearchIndexes().Filter(old(searchIndexes.Contents()), HasID)
      ensures Picks(WithID(), Same, old(searchIndexes.Contents()), searchIndexes.Contents())
    {
      ghost var was := searchIndexes.Contents();
      var s, n := searchIndexes.data, searchIndexes.length;
      var result := new Slice<SearchIndexStatus>();
      var i := 0;
      while i < n
        invariant 0 <= i <= n == |was| <= s.Length
        invariant fresh(result) && fresh(result.data) && result.Valid()
        invariant result.Contents() == SearchIndexes().Filter(was[..i], HasID)
      {
        NextKept(was, i);
        if s[i].id != "" {
          result.Append(s[i]);
        }
        i := i + 1;
      }
      assert was[..i] == was;
      searchIndexes := result;
      WithIDPicked(was);
    }

    method SetSearchIndexStatus(indexStatus: SearchIndexStatus)
      requires searchIndexes.Valid()
      modifies searchIndexes, searchIndexes.data
      ensures searchIndexes.Valid()
      ensures searchIndexes.Contents() == SearchIndexes().Upsert(old(searchIndexes.Contents()), indexStatus)
    {
      ghost var was := searchIndexes.Contents();
      var s := searchIndexes.data;
      var i := 0;
      while i < searchIndexes.length
        invariant 0 <= i <= searchIndexes.length == |was| && s[..] == old(s[..])
        invariant forall j :: 0 <= j < i ==> was[j].name != indexStatus.name
      {
        if s[i].name == indexStatus.name {
          assert SearchIndexes().IndexOf(was, indexStatus.name) == i;
          s[i] := s[i].(status := indexStatus.status);
          s[i] := s[i].(message := indexStatus.message);
          if indexStatus.id != "" {
            s[i] := s[i].(id := indexStatus.id);
          }
          assert searchIndexes.Contents() == was[i := s[i]];
          return;
        }
        i := i + 1;
      }
      searchIndexes.Append(indexStatus);
    }

    method UnsetSearchIndexStatus(indexStatus: SearchIndexStatus)
      requires searchIndexes.Valid()
      modifies searchIndexes, searchIndexes.data
      ensures searchIndexes.Valid() && searchIndexes.data == old(searchIndexes.data)
      ensures searchIndexes.Contents() == SearchIndexes().Remove(old(searchIndexes.Contents()), indexStatus.name)
    {
      ghost var was := searchIndexes.Contents();
      var i := 0;
      while i < searchIndexes.length
        invariant 0 <= i <= searchIndexes.length == |was| && searchIndexes.Contents() == was
        invariant forall j :: 0 <= j < i ==> was[j].name != indexStatus.name
      {
        if searchIndexes.data[i].name == indexStatus.name {
          assert SearchIndexes().IndexOf(was, indexStatus.name) == i;
          searchIndexes.RemoveAt(i);
          return;
        }
        i := i + 1;
      }
    }
  }

  class AtlasIPAccessListStatus {
    var entries: Slice<IPAccessEntry>

    constructor ()
      ensures entries.Valid() && entries.Contents() == []
    {
      entries := new Slice();
    }

    method AddEntryStatus(entry: string, entryStatus: string)
      requires entries.Valid()
      modifies entries, entries.data
      ensures entries.Valid()
      ensures entries.Contents() == Entries().Upsert(old(entries.Contents()), IPAccessEntry(entry, entryStatus))
    {
      ghost var was := entries.Contents();
      var s := entries.data;
      var i := 0;
      while i < entries.length
        invariant 0 <= i <= entries.length == |was| && s[..] == old(s[..])
        invariant forall j :: 0 <= j < i ==> was[j].entry != entry
      {
        if s[i].entry == entry {
          assert Entries().IndexOf(was, entry) == i;
          s[i] := s[i].(status := entryStatus);
          assert entries.Contents() == was[i := s[i]];
          return;
        }
        i := i + 1;
      }
      entries.Append(IPAccessEntry(entry, entryStatus));
    }

    method RemoveEntryStatus(entry: string)
      requires entries.Valid()
      modifies entries, entries.data
      ensures entries.Valid() && entries.data == old(entries.data)
      ensures entries.Contents() == Entries().Remove(old(entries.Contents()), entry)
    {
      ghost var was := entries.Contents();
      var i := 0;
      while i < entries.length
        invariant 0 <= i <= entries.length == |was| && entries.Contents() == was
        invariant forall j :: 0 <= j < i ==> was[j].entry != entry
      {
        if entries.data[i].entry == entry {
          assert Entries().IndexOf(was, entry) == i;
          entries.RemoveAt(i);
          return;
        }
        i := i + 1;
      }
    }
  }

  class AtlasStreamInstanceStatus {
    var connections: Slice<StreamConnection>

    constructor ()
      ensures connections.Valid() && connections.Contents() == []
    {
      connections := new Slice();
    }

    method AddConnection(name: string, ref: ResourceRef)
      requires connections.Valid()
      modifies connections, connections.data
      ensures connections.Valid()
      ensures connections.Contents() == Connections().Upsert(old(connections.Contents()), StreamConnection(name, ref))
    {
      ghost var was := connections.Contents();
      var s := connections.data;
      var i := 0;
      while i < connections.length
        invariant 0 <= i <= connections.length == |was| && s[..] == old(s[..])
        invariant forall j :: 0 <= j < i ==> was[j].name != name
      {
        if s[i].name == name {
          assert Connections().IndexOf(was, name) == i;
          s[i] := s[i].(resourceRef := ref);
          assert connections.Contents() == was[i := s[i]];
          return;
        }
        i := i + 1;
      }
      connections.Append(StreamConnection(name, ref));
    }

    method RemoveConnection(name: string)
      requires connections.Valid()
      modifies connections, connections.data
      ensures connections.Valid() && connections.data == old(connections.data)
      ensures connections.Contents() == Connections().Remove(old(connections.Contents()), name)
    {
      ghost var was := connections.Contents();
      var i := 0;
      while i < connections.length
        invariant 0 <= i <= connections.length == |was| && connections.Contents() == was
        invariant forall j :: 0 <= j < i ==> was[j].name != name
      {
        if connections.data[i].name == name {
          assert Connections().IndexOf(was, name) == i;
          connections.RemoveAt(i);
          break;
        }
        i := i + 1;
      }
    }
  }

  // ---- Whole runs ----

  /** The ID of the last of these operations that set a non-empty one for the name. */
  function LastNonEmptyID(ops: seq<Op<SearchIndexStatus>>, name: string): string {
    if ops == [] then ""
    else
      var op := ops[|ops| - 1];
      if op.Put? && op.item.name == name && op.item.id != "" then op.item.id
      else LastNonEmptyID(ops[..|ops| - 1], name)
  }

  /** The last of these operations that set the name. */
  function LastSet(ops: seq<Op<SearchIndexStatus>>, name: string): Option<SearchIndexStatus> {
    if ops == [] then None
    else
      var op := ops[|ops| - 1];
      if op.Put? && op.item.name == name then Some(op.item) else LastSet(ops[..|ops| - 1], name)
  }

  /** Over every run of set, unset and prune options, from any duplicate-free list, the list of
      search indexes is a map by name: an entry holds the status and message of the last set, and the
      last non-empty ID since it was inserted. An entry of the list at the start counts as set then. */
  lemma SearchIndexRun(start: seq<SearchIndexStatus>, ops: seq<Op<SearchIndexStatus>>, name: string)
    requires SearchIndexes().Unique(start)
    ensures SearchIndexes().Unique(SearchIndexes().RunFrom(start, ops))
    ensures var all := SearchIndexes().Puts(start) + ops;
      var slot := SearchIndexes().Slot(all, name);
      && SearchIndexes().Find(SearchIndexes().RunFrom(start, ops), name) == slot
      && (slot.Some? ==>
        var life := all[SearchIndexes().Born(all, name)..];
        && slot.value.name == name && slot.value.id == LastNonEmptyID(life, name)
        && LastSet(life, name).Some?
        && slot.value.status == LastSet(life, name).value.status && slot.value.message == LastSet(life, name).value.message)
  {
    var all := SearchIndexes().Puts(start) + ops;
    SearchIndexes().RunFromIsRun(start, ops);
    SearchIndexes().ListIsMap(all, name);
    if SearchIndexes().Slot(all, name).Some? {
      SearchIndexLife(all, name);
    }
  }

  /** What one more operation does to a description of the life of an entry. */
  lemma LifeGrows(life: seq<Op<SearchIndexStatus>>, op: Op<SearchIndexStatus>, name: string)
    ensures LastNonEmptyID(life + [op], name) ==
      if op.Put? && op.item.name == name && op.item.id != "" then op.item.id else LastNonEmptyID(life, name)
    ensures LastSet(life + [op], name) ==
      if op.Put? && op.item.name == name then Some(op.item) else LastSet(life, name)
  {
    assert (life + [op])[..|life|] == life;
  }

  lemma {:induction false} SearchIndexLife(ops: seq<Op<SearchIndexStatus>>, name: string)
    requires SearchIndexes().Slot(ops, name).Some?
    ensures var (slot, life) := (SearchIndexes().Slot(ops, name).value, ops[SearchIndexes().Born(ops, name)..]);
      && slot.name == name && slot.id == LastNonEmptyID(life, name) && LastSet(life, name).Some?
      && slot.status == LastSet(life, name).value.status && slot.message == LastSet(life, name).value.message
  {
    var n := |ops| - 1;
    var prev, b := ops[..n], SearchIndexes().Born(ops, name);
    assert ops[b..] == prev[b..] + [ops[n]];
    LifeGrows(prev[b..], ops[n], name);
    if SearchIndexes().Slot(prev, name).Some? {
      SearchIndexLife(prev, name);
    }
  }

  /** An option never erases an ID with an empty one: as long as the entry stays, its ID is kept or
      replaced by a non-empty one. */
  lemma IDNeverErased(ops: seq<Op<SearchIndexStatus>>, op: Op<SearchIndexStatus>, name: string)
    requires SearchIndexes().Slot(ops, name).Some? && SearchIndexes().Slot(ops + [op], name).Some?
    ensures var (a, b) := (SearchIndexes().Slot(ops, name).value.id, SearchIndexes().Slot(ops + [op], name).value.id);
      b == a || b != ""
  {
    assert (ops + [op])[..|ops|] == ops;
  }

  /** IP access entries over every run from any duplicate-free list: no entry twice, and each holds
      what was last added for it. */
  lemma EntriesRun(start: seq<IPAccessEntry>, ops: seq<Op<IPAccessEntry>>, entry: string)
    requires Entries().Unique(start)
    ensures Entries().Unique(Entries().RunFrom(start, ops))
    ensures Entries().Find(Entries().RunFrom(start, ops), entry) == Entries().LastValue(Entries().Puts(start) + ops, entry)
  {
    Entries().RunFromIsRun(start, ops);
    Entries().ListIsMap(Entries().Puts(start) + ops, entry);
    Entries().SlotIsLastValue(Entries().Puts(start) + ops, entry);
  }

  /** Stream connections likewise: no name twice, and each holds its last reference. */
  lemma ConnectionsRun(start: seq<StreamConnection>, ops: seq<Op<StreamConnection>>, name: string)
    requires Connections().Unique(start)
    ensures Connections().Unique(Connections().RunFrom(start, ops))
    ensures Connections().Find(Connections().RunFrom(start, ops), name) == Connections().LastValue(Connections().Puts(start) + ops, name)
  {
    Connections().RunFromIsRun(start, ops);
    Connections().ListIsMap(Connections().Puts(start) + ops, name);
    Connections().SlotIsLastValue(Connections().Puts(start) + ops, name);
  }

  /** In all three lists the surviving entries stand in the order of their insertion, those of the
      starting list first. */
  lemma InsertionOrder(a: seq<SearchIndexStatus>, opsA: seq<Op<SearchIndexStatus>>, b: seq<IPAccessEntry>, opsB: seq<Op<IPAccessEntry>>,
      c: seq<StreamConnection>, opsC: seq<Op<StreamConnection>>)
    requires SearchIndexes().Unique(a) && Entries().Unique(b) && Connections().Unique(c)
    ensures SearchIndexes().RunFrom(a, opsA) == SearchIndexes().Run(SearchIndexes().Puts(a) + opsA)
    ensures SearchIndexes().InBirthOrder(SearchIndexes().Puts(a) + opsA)
    ensures Entries().RunFrom(b, opsB) == Entries().Run(Entries().Puts(b) + opsB)
    ensures Entries().InBirthOrder(Entries().Puts(b) + opsB)
    ensures Connections().RunFrom(c, opsC) == Connections().Run(Connections().Puts(c) + opsC)
    ensures Connections().InBirthOrder(Connections().Puts(c) + opsC)
  {
    SearchIndexes().RunFromIsRun(a, opsA);
    SearchIndexes().RunInBirthOrder(SearchIndexes().Puts(a) + opsA);
    Entries().RunFromIsRun(b, opsB);
    Entries().RunInBirthOrder(Entries().Puts(b) + opsB);
    Connections().RunFromIsRun(c, opsC);
    Connections().RunInBirthOrder(Connections().Puts(c) + opsC);
  }
}
