/** The listing of `handle_check_babies`: the user's baby records merged
    into one entry per couple, then cut into pages of five, and the page
    argument that picks one of them. */
module Listing {
  import opened Wrappers
  import opened Text
  import opened Models
  import Sessions

  // ---------------------------------------------------------------------------
  // Merging baby records per couple
  // ---------------------------------------------------------------------------

  /** One entry of `merged_records`. */
  datatype CoupleSummary = CoupleSummary(key: Sessions.ProcessKey, parent1Name: string, parent2Name: string,
                                         babyCount: nat, latestDate: int)

  /** The couple a record belongs to, whichever parent is listed first: the
      sorted pair of parent ids. */
  function CoupleKey(b: BabyRecord): Sessions.ProcessKey
  {
    Sessions.KeyOf(b.parent1Id, b.parent2Id)
  }

  /** Babies of the couple `key` over all records. */
  function CoupleCount(records: seq<BabyRecord>, key: Sessions.ProcessKey): nat
  {
    if records == [] then 0
    else
      var last := records[|records| - 1];
      CoupleCount(records[..|records| - 1], key) + (if CoupleKey(last) == key then last.babyCount else 0)
  }

  /** Babies over all records. */
  function TotalCount(records: seq<BabyRecord>): nat
  {
    if records == [] then 0 else TotalCount(records[..|records| - 1]) + records[|records| - 1].babyCount
  }

  /** Babies over all entries of the merge. */
  function SumCounts(merged: seq<CoupleSummary>): nat
  {
    if merged == [] then 0 else SumCounts(merged[..|merged| - 1]) + merged[|merged| - 1].babyCount
  }

  predicate Listed(merged: seq<CoupleSummary>, key: Sessions.ProcessKey)
  {
    exists x :: 0 <= x < |merged| && merged[x].key == key
  }

  /** `partner_key in merged_records`, with the entry's position. */
  function FindCouple(merged: seq<CoupleSummary>, key: Sessions.ProcessKey): (r: Option<nat>)
    ensures r.Some? ==> r.value < |merged| && merged[r.value].key == key
    ensures r.None? ==> forall x :: 0 <= x < |merged| ==> merged[x].key != key
  {
    if merged == [] then None
    else if merged[|merged| - 1].key == key then Some(|merged| - 1)
    else FindCouple(merged[..|merged| - 1], key)
  }

  /** One record folded into the merge: a couple seen for the first time
      opens an entry with this record's names and date; the count grows by
      the record's count, and the date moves forward if the record is
      newer. */
  function MergeOne(merged: seq<CoupleSummary>, record: BabyRecord): (r: seq<CoupleSummary>)
    ensures |merged| <= |r| <= |merged| + 1
  {
    var key := CoupleKey(record);
    match FindCouple(merged, key)
    case None =>
      merged + [CoupleSummary(key, record.parent1Name, record.parent2Name, record.babyCount, record.createdAt)]
    case Some(x) =>
      var e := merged[x];
      merged[x := e.(babyCount := e.babyCount + record.babyCount,
                     latestDate := if record.createdAt > e.latestDate then record.createdAt else e.latestDate)]
  }

  /** `merged_records` once the loop has seen `records`. */
  function Merge(records: seq<BabyRecord>): (merged: seq<CoupleSummary>)
    ensures |merged| <= |records|
  {
    if records == [] then [] else MergeOne(Merge(records[..|records| - 1]), records[|records| - 1])
  }

  /** The merge loop of `handle_check_babies`. */
  method MergeByCouple(records: seq<BabyRecord>) returns (merged: seq<CoupleSummary>)
    ensures merged == Merge(records)
  {
    merged := [];
    var i := 0;
    while i < |records|
      invariant 0 <= i <= |records|
      invariant merged == Merge(records[..i])
    {
      assert records[..i + 1][..i] == records[..i];
      merged := FoldIn(merged, records[i]);
      i := i + 1;
    }
    assert records[..i] == records;
  }

  /** The body of the merge loop: open the couple's entry at count 0 if it
      is missing, add the record's count, and move the date forward. */
  method FoldIn(merged: seq<CoupleSummary>, record: BabyRecord) returns (merged': seq<CoupleSummary>)
    ensures merged' == MergeOne(merged, record)
  {
    var key := CoupleKey(record);
    var found := FindCouple(merged, key);
    merged' := merged;
    var x: nat;
    if found.None? {
      merged' := merged' + [CoupleSummary(key, record.parent1Name, record.parent2Name, 0, record.createdAt)];
      x := |merged'| - 1;
    } else {
      x := found.value;
    }
    var latest := merged'[x].latestDate;
    if record.createdAt > latest {
      latest := record.createdAt;
    }
    merged' := merged'[x := merged'[x].(babyCount := merged'[x].babyCount + record.babyCount, latestDate := latest)];
    if found.None? {
      assert merged' == merged + [CoupleSummary(key, record.parent1Name, record.parent2Name, record.babyCount, record.createdAt)];
    }
  }

  // What the merge promises, entry by entry.

  ghost predicate DistinctKeys(merged: seq<CoupleSummary>)
  {
    forall x, y :: 0 <= x < y < |merged| ==> merged[x].key != merged[y].key
  }

  ghost predicate ListsAll(merged: seq<CoupleSummary>, records: seq<BabyRecord>)
  {
    forall j :: 0 <= j < |records| ==> Listed(merged, CoupleKey(records[j]))
  }

  /** Every entry is the couple of some record. */
  ghost predicate OnlyRecorded(merged: seq<CoupleSummary>, records: seq<BabyRecord>)
  {
    forall x :: 0 <= x < |merged| ==> HasRecord(records, merged[x].key)
  }

  ghost predicate HasRecord(records: seq<BabyRecord>, key: Sessions.ProcessKey)
  {
    exists j :: 0 <= j < |records| && CoupleKey(records[j]) == key
  }

  ghost predicate CountsAgree(merged: seq<CoupleSummary>, records: seq<BabyRecord>)
  {
    forall x :: 0 <= x < |merged| ==> merged[x].babyCount == CoupleCount(records, merged[x].key)
  }

  /** `t` is the newest `created_at` among the couple's records. */
  ghost predicate IsLatest(records: seq<BabyRecord>, key: Sessions.ProcessKey, t: int)
  {
    && (exists j :: 0 <= j < |records| && CoupleKey(records[j]) == key && records[j].createdAt == t)
    && (forall j :: 0 <= j < |records| && CoupleKey(records[j]) == key ==> records[j].createdAt <= t)
  }

  ghost predicate DatesAgree(merged: seq<CoupleSummary>, records: seq<BabyRecord>)
  {
    forall x :: 0 <= x < |merged| ==> IsLatest(records, merged[x].key, merged[x].latestDate)
  }

  /** Record `j` is the couple's first record. */
  ghost predicate FirstOf(records: seq<BabyRecord>, key: Sessions.ProcessKey, j: int)
  {
    && 0 <= j < |records| && CoupleKey(records[j]) == key
    && forall i :: 0 <= i < j ==> CoupleKey(records[i]) != key
  }

  /** The names of an entry are those of the couple's first record. */
  ghost predicate NamedAfterFirst(records: seq<BabyRecord>, e: CoupleSummary)
  {
    exists j :: FirstOf(records, e.key, j)
      && e.parent1Name == records[j].parent1Name && e.parent2Name == records[j].parent2Name
  }

  ghost predicate NamesAgree(merged: seq<CoupleSummary>, records: seq<BabyRecord>)
  {
    forall x :: 0 <= x < |merged| ==> NamedAfterFirst(records, merged[x])
  }

  /** One entry per couple. */
  lemma {:induction false} MergeDistinct(records: seq<BabyRecord>)
    ensures DistinctKeys(Merge(records))
  {
    if records != [] {
      MergeDistinct(Init(records));
      DistinctStep(Merge(Init(records)), Last(records));
    }
  }

  /** Every couple with a record has an entry, and every entry is the
      couple of a record. */
  lemma {:induction false} MergeListsAll(records: seq<BabyRecord>)
    ensures ListsAll(Merge(records), records)
    ensures OnlyRecorded(Merge(records), records)
    decreases |records|, 1
  {
    if records != [] {
      MergeListsAll(Init(records));
      ListsStep(Merge(Init(records)), records);
    }
    assert OnlyRecorded(Merge(records), records) by {
      MergeDates(records);
      DatedRecorded(Merge(records), records);
    }
  }

  /** An entry dated by one of the couple's records is the couple of that
      record. */
  lemma DatedRecorded(merged: seq<CoupleSummary>, records: seq<BabyRecord>)
    requires DatesAgree(merged, records)
    ensures OnlyRecorded(merged, records)
  {
    forall x | 0 <= x < |merged|
      ensures HasRecord(records, merged[x].key)
    {
      assert IsLatest(records, merged[x].key, merged[x].latestDate);
    }
  }

  /** An entry's count is the couple's total over all its records. */
  lemma {:induction false} MergeCounts(records: seq<BabyRecord>)
    ensures CountsAgree(Merge(records), records)
  {
    if records != [] {
      MergeCounts(Init(records));
      MergeDistinct(Init(records));
      MergeListsAll(Init(records));
      CountsStep(Merge(Init(records)), records);
    }
  }

  /** An entry's date is the newest among the couple's records, and is the
      date of one of them. */
  lemma {:induction false} MergeDates(records: seq<BabyRecord>)
    ensures DatesAgree(Merge(records), records)
    decreases |records|, 0
  {
    if records != [] {
      MergeDates(Init(records));
      MergeDistinct(Init(records));
      MergeListsAll(Init(records));
      DatesStep(Merge(Init(records)), records);
    }
  }

  /** An entry carries the names of the couple's first record in the list. */
  lemma {:induction false} MergeNames(records: seq<BabyRecord>)
    ensures NamesAgree(Merge(records), records)
  {
    if records != [] {
      MergeNames(Init(records));
      MergeListsAll(Init(records));
      NamesStep(Merge(Init(records)), records);
    }
  }

  /** The entries hold every baby exactly once. */
  lemma {:induction false} MergeConserves(records: seq<BabyRecord>)
    ensures SumCounts(Merge(records)) == TotalCount(records)
  {
    if records != [] {
      MergeConserves(Init(records));
      ConserveStep(Merge(Init(records)), records);
    }
  }

  // One step of the merge keeps each property. Each step takes the entries
  // `prev` built from all records but the last, and folds in the last.

  function Init(records: seq<BabyRecord>): seq<BabyRecord>
    requires records != []
  {
    records[..|records| - 1]
  }

  function Last(records: seq<BabyRecord>): BabyRecord
    requires records != []
  {
    records[|records| - 1]
  }

  lemma DistinctStep(prev: seq<CoupleSummary>, r: BabyRecord)
    requires DistinctKeys(prev)
    ensures DistinctKeys(MergeOne(prev, r))
  {
    var merged := MergeOne(prev, r);
    if FindCouple(prev, CoupleKey(r)).Some? {
      assert forall x :: 0 <= x < |prev| ==> merged[x].key == prev[x].key;
    } else {
      assert forall x :: 0 <= x < |prev| ==> merged[x] == prev[x];
    }
  }

  lemma ListsStep(prev: seq<CoupleSummary>, records: seq<BabyRecord>)
    requires records != [] && ListsAll(prev, Init(records))
    ensures ListsAll(MergeOne(prev, Last(records)), records)
  {
    var rs, r := Init(records), Last(records);
    var merged := MergeOne(prev, r);
    var f := FindCouple(prev, CoupleKey(r));
    assert |merged| >= |prev| && forall x :: 0 <= x < |prev| ==> merged[x].key == prev[x].key;
    forall j | 0 <= j < |records| ensures Listed(merged, CoupleKey(records[j])) {
      if j < |rs| {
        assert records[j] == rs[j];
        assert Listed(prev, CoupleKey(rs[j]));
        var x :| 0 <= x < |prev| && prev[x].key == CoupleKey(rs[j]);
        assert merged[x].key == CoupleKey(rs[j]);
      } else {
        var x := if f.Some? then f.value else |prev|;
        assert merged[x].key == CoupleKey(r);
      }
    }
  }

  /** A couple without an entry has no record yet. */
  lemma AbsentCouple(prev: seq<CoupleSummary>, rs: seq<BabyRecord>, key: Sessions.ProcessKey)
    requires ListsAll(prev, rs)
    requires forall x :: 0 <= x < |prev| ==> prev[x].key != key
    ensures forall j :: 0 <= j < |rs| ==> CoupleKey(rs[j]) != key
  {
    forall j | 0 <= j < |rs| ensures CoupleKey(rs[j]) != key {
      assert Listed(prev, CoupleKey(rs[j]));
      var x :| 0 <= x < |prev| && prev[x].key == CoupleKey(rs[j]);
    }
  }

  lemma {:induction false} CoupleCountAbsent(records: seq<BabyRecord>, key: Sessions.ProcessKey)
    requires forall j :: 0 <= j < |records| ==> CoupleKey(records[j]) != key
    ensures CoupleCount(records, key) == 0
  {
    if records != [] {
      var n := |records| - 1;
      assert forall j :: 0 <= j < n ==> records[..n][j] == records[j];
      CoupleCountAbsent(records[..n], key);
    }
  }

  lemma CountsStep(prev: seq<CoupleSummary>, records: seq<BabyRecord>)
    requires records != [] && DistinctKeys(prev) && ListsAll(prev, Init(records)) && CountsAgree(prev, Init(records))
    ensures CountsAgree(MergeOne(prev, Last(records)), records)
  {
    var rs, r := Init(records), Last(records);
    var merged := MergeOne(prev, r);
    var key := CoupleKey(r);
    var f := FindCouple(prev, key);
    if f.None? {
      AbsentCouple(prev, rs, key);
      CoupleCountAbsent(rs, key);
    }
    forall x | 0 <= x < |merged| ensures merged[x].babyCount == CoupleCount(records, merged[x].key) {
      if f.Some? && x != f.value {
        assert merged[x] == prev[x];
      }
    }
  }

  lemma LatestUnrelated(records: seq<BabyRecord>, key: Sessions.ProcessKey, t: int)
    requires records != [] && IsLatest(Init(records), key, t) && CoupleKey(Last(records)) != key
    ensures IsLatest(records, key, t)
  {
    var rs := Init(records);
    var j :| 0 <= j < |rs| && CoupleKey(rs[j]) == key && rs[j].createdAt == t;
    assert records[j] == rs[j];
    forall i | 0 <= i < |records| && CoupleKey(records[i]) == key ensures records[i].createdAt <= t {
      assert i < |rs| && records[i] == rs[i];
    }
  }

  lemma LatestExtended(records: seq<BabyRecord>, t: int)
    requires records != [] && IsLatest(Init(records), CoupleKey(Last(records)), t)
    ensures IsLatest(records, CoupleKey(Last(records)), if Last(records).createdAt > t then Last(records).createdAt else t)
  {
    if Last(records).createdAt > t {
      LatestNewer(records, t);
    } else {
      LatestOlder(records, t);
    }
  }

  lemma LatestNewer(records: seq<BabyRecord>, t: int)
    requires records != [] && IsLatest(Init(records), CoupleKey(Last(records)), t) && Last(records).createdAt > t
    ensures IsLatest(records, CoupleKey(Last(records)), Last(records).createdAt)
  {
    var rs, r := Init(records), Last(records);
    var n := |rs|;
    assert records[n] == r;
    forall i | 0 <= i < n && CoupleKey(records[i]) == CoupleKey(r) ensures records[i].createdAt <= r.createdAt {
      assert records[i] == rs[i];
    }
  }

  lemma LatestOlder(records: seq<BabyRecord>, t: int)
    requires records != [] && IsLatest(Init(records), CoupleKey(Last(records)), t) && Last(records).createdAt <= t
    ensures IsLatest(records, CoupleKey(Last(records)), t)
  {
    var rs, r := Init(records), Last(records);
    var n := |rs|;
    assert records[n] == r;
    var j :| 0 <= j < n && CoupleKey(rs[j]) == CoupleKey(r) && rs[j].createdAt == t;
    assert records[j] == rs[j];
    forall i | 0 <= i < |records| && CoupleKey(records[i]) == CoupleKey(r) ensures records[i].createdAt <= t {
      if i < n {
        assert records[i] == rs[i];
      }
    }
  }

  lemma LatestFirst(records: seq<BabyRecord>)
    requires records != [] && forall j :: 0 <= j < |Init(records)| ==> CoupleKey(Init(records)[j]) != CoupleKey(Last(records))
    ensures IsLatest(records, CoupleKey(Last(records)), Last(records).createdAt)
  {
    var rs := Init(records);
    assert forall i :: 0 <= i < |rs| ==> records[i] == rs[i];
  }

  lemma DatesStep(prev: seq<CoupleSummary>, records: seq<BabyRecord>)
    requires records != [] && DistinctKeys(prev) && ListsAll(prev, Init(records)) && DatesAgree(prev, Init(records))
    ensures DatesAgree(MergeOne(prev, Last(records)), records)
  {
    if FindCouple(prev, CoupleKey(Last(records))).Some? {
      DatesStepFound(prev, records);
    } else {
      DatesStepNew(prev, records);
    }
  }

  lemma DatesStepFound(prev: seq<CoupleSummary>, records: seq<BabyRecord>)
    requires records != [] && DistinctKeys(prev) && DatesAgree(prev, Init(records))
    requires FindCouple(prev, CoupleKey(Last(records))).Some?
    ensures DatesAgree(MergeOne(prev, Last(records)), records)
  {
    var y := FindCouple(prev, CoupleKey(Last(records))).value;
    var merged := MergeOne(prev, Last(records));
    forall x | 0 <= x < |merged| ensures IsLatest(records, merged[x].key, merged[x].latestDate) {
      if x == y {
        LatestExtended(records, prev[x].latestDate);
      } else {
        assert merged[x] == prev[x];
        LatestUnrelated(records, prev[x].key, prev[x].latestDate);
      }
    }
  }

  lemma DatesStepNew(prev: seq<CoupleSummary>, records: seq<BabyRecord>)
    requires records != [] && ListsAll(prev, Init(records)) && DatesAgree(prev, Init(records))
    requires FindCouple(prev, CoupleKey(Last(records))).None?
    ensures DatesAgree(MergeOne(prev, Last(records)), records)
  {
    var merged := MergeOne(prev, Last(records));
    AbsentCouple(prev, Init(records), CoupleKey(Last(records)));
    LatestFirst(records);
    forall x | 0 <= x < |merged| ensures IsLatest(records, merged[x].key, merged[x].latestDate) {
      if x < |prev| {
        assert merged[x] == prev[x];
        LatestUnrelated(records, prev[x].key, prev[x].latestDate);
      }
    }
  }

  lemma NamedUnchanged(records: seq<BabyRecord>, e: CoupleSummary, e': CoupleSummary)
    requires records != [] && NamedAfterFirst(Init(records), e)
    requires e'.key == e.key && e'.parent1Name == e.parent1Name && e'.parent2Name == e.parent2Name
    ensures NamedAfterFirst(records, e')
  {
    var rs := Init(records);
    var j :| FirstOf(rs, e.key, j) && e.parent1Name == rs[j].parent1Name && e.parent2Name == rs[j].parent2Name;
    FirstOfExtends(records, e.key, j);
    assert records[j] == rs[j];
  }

  lemma FirstOfExtends(records: seq<BabyRecord>, key: Sessions.ProcessKey, j: int)
    requires records != [] && FirstOf(Init(records), key, j)
    ensures FirstOf(records, key, j)
  {
    var rs := Init(records);
    assert records[j] == rs[j];
    forall i | 0 <= i < j ensures CoupleKey(records[i]) != key {
      assert records[i] == rs[i];
    }
  }

  lemma NamedFirst(records: seq<BabyRecord>, e: CoupleSummary)
    requires records != [] && forall j :: 0 <= j < |Init(records)| ==> CoupleKey(Init(records)[j]) != CoupleKey(Last(records))
    requires e.key == CoupleKey(Last(records)) && e.parent1Name == Last(records).parent1Name && e.parent2Name == Last(records).parent2Name
    ensures NamedAfterFirst(records, e)
  {
    var rs := Init(records);
    var n := |rs|;
    forall i | 0 <= i < n ensures CoupleKey(records[i]) != e.key {
      assert records[i] == rs[i];
    }
    assert FirstOf(records, e.key, n);
  }

  lemma NamesStep(prev: seq<CoupleSummary>, records: seq<BabyRecord>)
    requires records != [] && ListsAll(prev, Init(records)) && NamesAgree(prev, Init(records))
    ensures NamesAgree(MergeOne(prev, Last(records)), records)
  {
    var rs, r := Init(records), Last(records);
    var merged := MergeOne(prev, r);
    var f := FindCouple(prev, CoupleKey(r));
    forall x | 0 <= x < |merged| ensures NamedAfterFirst(records, merged[x]) {
      if f.Some? && x == f.value {
        NamedUnchanged(records, prev[x], merged[x]);
      } else if x < |prev| {
        assert merged[x] == prev[x];
        NamedUnchanged(records, prev[x], merged[x]);
      } else {
        AbsentCouple(prev, rs, CoupleKey(r));
        NamedFirst(records, merged[x]);
      }
    }
  }

  lemma {:induction false} SumCountsUpdate(merged: seq<CoupleSummary>, x: nat, e: CoupleSummary)
    requires x < |merged|
    ensures SumCounts(merged[x := e]) + merged[x].babyCount == SumCounts(merged) + e.babyCount
  {
    var n := |merged| - 1;
    if x == n {
      assert merged[x := e][..n] == merged[..n];
    } else {
      SumCountsUpdate(merged[..n], x, e);
      assert merged[x := e][..n] == merged[..n][x := e];
    }
  }

  lemma ConserveStep(prev: seq<CoupleSummary>, records: seq<BabyRecord>)
    requires records != [] && SumCounts(prev) == TotalCount(Init(records))
    ensures SumCounts(MergeOne(prev, Last(records))) == TotalCount(records)
  {
    var r := Last(records);
    var f := FindCouple(prev, CoupleKey(r));
    if f.Some? {
      SumCountsUpdate(prev, f.value, MergeOne(prev, r)[f.value]);
    } else {
      assert MergeOne(prev, r)[..|prev|] == prev;
    }
  }

  // ---------------------------------------------------------------------------
  // Paging (`handle_check_babies`)
  // ---------------------------------------------------------------------------

  const PageSize: nat := 5

  /** `(total_records + page_size - 1) // page_size`: the fewest pages of
      five that hold every entry. */
  function TotalPages(totalRecords: nat): (pages: nat)
    ensures pages * PageSize >= totalRecords
    ensures pages == 0 || (pages - 1) * PageSize < totalRecords
  {
    (totalRecords + PageSize - 1) / PageSize
  }

  /** `list(...)[start:end]` for `start = (page - 1) * 5`, `end = start + 5`,
      with Python's clamping of a slice bound past the end. */
  function PageOf<T>(entries: seq<T>, page: nat): (r: seq<T>)
    requires page >= 1
    ensures |r| <= PageSize
    ensures forall k :: 0 <= k < |r| ==> (page - 1) * PageSize + k < |entries| && r[k] == entries[(page - 1) * PageSize + k]
    ensures page <= TotalPages(|entries|) ==> |r| >= 1
    ensures page < TotalPages(|entries|) ==> |r| == PageSize
  {
    var start := (page - 1) * PageSize;
    var end := start + PageSize;
    if start >= |entries| then []
    else if end >= |entries| then entries[start..]
    else entries[start..end]
  }

  /** Pages 1 to `n`, one after another. */
  function PagesUpTo<T>(entries: seq<T>, n: nat): seq<T>
  {
    if n == 0 then [] else PagesUpTo(entries, n - 1) + PageOf(entries, n)
  }

  /** Read in order, the pages show a prefix of the list, and all of them
      together show the whole list exactly once. */
  lemma PagesCover<T>(entries: seq<T>, n: nat)
    ensures n * PageSize <= |entries| ==> PagesUpTo(entries, n) == entries[..n * PageSize]
    ensures n >= TotalPages(|entries|) ==> PagesUpTo(entries, n) == entries
  {
    PagesPrefix(entries, n);
    PageCount(|entries|, n);
    assert entries[..|entries|] == entries;
  }

  function Shown(n: nat, total: nat): nat
  {
    if n * PageSize <= total then n * PageSize else total
  }

  /** Pages 1 to `n` show the entries before position `min(5n, |entries|)`. */
  lemma {:induction false} PagesPrefix<T>(entries: seq<T>, n: nat)
    ensures PagesUpTo(entries, n) == entries[..Shown(n, |entries|)]
  {
    if n > 0 {
      PagesPrefix(entries, n - 1);
      PageSlice(entries, n);
      SliceJoin(entries, Shown(n - 1, |entries|), Shown(n, |entries|));
    } else {
      assert entries[..0] == [];
    }
  }

  lemma SliceJoin<T>(entries: seq<T>, a: nat, b: nat)
    requires a <= b <= |entries|
    ensures entries[..a] + entries[a..b] == entries[..b]
  {
  }

  /** Page `n` is the slice between what pages 1 to `n - 1` and 1 to `n` show. */
  lemma PageSlice<T>(entries: seq<T>, n: nat)
    requires n >= 1
    ensures Shown(n - 1, |entries|) <= Shown(n, |entries|)
    ensures PageOf(entries, n) == entries[Shown(n - 1, |entries|)..Shown(n, |entries|)]
  {
    assert n * PageSize == (n - 1) * PageSize + PageSize;
  }

  /** `n` pages suffice exactly when they have room for every entry. */
  lemma PageCount(total: nat, n: nat)
    ensures n >= TotalPages(total) <==> n * PageSize >= total
  {
  }

  const MustBePositive: string := "页码必须大于0！"
  const MustBeNumber: string := ".后面必须跟数字页码！"

  function OutOfRange(page: int, totalPages: nat): string
  {
    "页码 " + IntString(page) + " 超出范围，总页数只有 " + IntString(totalPages) + " 页"
  }

  /** Which page the command shows, or the replies it ends with. */
  datatype PageChoice = ShowPage(page: nat) | Replies(messages: seq<string>)

  function Count(s: string, c: char): nat
  {
    if s == [] then 0 else Count(s[..|s| - 1], c) + (if s[|s| - 1] == c then 1 else 0)
  }

  /** `int(code)` on an optionally signed run of ASCII digits. */
  function ParseInt(code: string): (r: Option<int>)
    ensures r.Some? ==> |code| >= 1
  {
    if |code| >= 2 && code[0] == '-' && IsDigits(code[1..]) then Some(-(DecimalValue(code[1..]) as int))
    else if |code| >= 2 && code[0] == '+' && IsDigits(code[1..]) then Some(DecimalValue(code[1..]))
    else if |code| >= 1 && IsDigits(code) then Some(DecimalValue(code))
    else None
  }

  /** The text after the only dot, when there is exactly one. */
  function AfterDot(text: string): (code: string)
    requires Count(text, '.') >= 1
    ensures |code| < |text|
  {
    if text[|text| - 1] == '.' then [] else AfterDot(text[..|text| - 1]) + [text[|text| - 1]]
  }

  /** The page argument as the handler treats it, with `finish` raising
      inside `try ... except Exception`: a page below 1 sends its own reply
      and then, caught as an error, the "must be a number" reply too. */
  function ResolvePageAsWritten(text: string, totalPages: nat): (r: PageChoice)
    ensures r.Replies? ==> 1 <= |r.messages| <= 2
  {
    if Count(text, '.') == 0 then ShowPage(1)
    else if Count(text, '.') > 1 then Replies([MustBeNumber])
    else
      match ParseInt(AfterDot(text))
      case None => Replies([MustBeNumber])
      case Some(n) =>
        if n < 1 then Replies([MustBePositive, MustBeNumber])
        else if n > totalPages then Replies([OutOfRange(n, totalPages)])
        else ShowPage(n)
  }

  /** The page argument with the evident intent: one reply per refusal. */
  function ResolvePage(text: string, totalPages: nat): (r: PageChoice)
    requires totalPages >= 1
    ensures r.ShowPage? ==> 1 <= r.page <= totalPages
    ensures r.Replies? ==> |r.messages| == 1
    ensures r != ResolvePageAsWritten(text, totalPages) ==> ResolvePageAsWritten(text, totalPages) == Replies([MustBePositive, MustBeNumber]) && r == Replies([MustBePositive])
  {
    if Count(text, '.') == 0 then ShowPage(1)
    else if Count(text, '.') > 1 then Replies([MustBeNumber])
    else
      match ParseInt(AfterDot(text))
      case None => Replies([MustBeNumber])
      case Some(n) =>
        if n < 1 then Replies([MustBePositive])
        else if n > totalPages then Replies([OutOfRange(n, totalPages)])
        else ShowPage(n)
  }

  /** Asking for page zero as the handler is written draws two replies. */
  lemma PageZeroRepliesTwice()
    ensures ResolvePageAsWritten(".0", 3) == Replies([MustBePositive, MustBeNumber])
  {
    assert Count(".0", '.') == 1;
    assert AfterDot(".0") == "0";
    assert IsDigits("0");
    assert DecimalValue("0") == 0;
  }

  /** `.p` for a page that exists shows that page. */
  lemma DotPageShown(p: nat, totalPages: nat)
    requires 1 <= p <= totalPages
    ensures ResolvePage("." + DecimalString(p), totalPages) == ShowPage(p)
  {
    DecimalRoundTrip(p);
    DotCodeShown(DecimalString(p), totalPages);
  }

  /** `.code` with `code` the digits of a page that exists shows that page. */
  lemma DotCodeShown(code: string, totalPages: nat)
    requires IsDigits(code) && |code| >= 1 && 1 <= DecimalValue(code) <= totalPages
    ensures ResolvePage("." + code, totalPages) == ShowPage(DecimalValue(code))
  {
    var text := "." + code;
    assert Count(text, '.') == 1 && AfterDot(text) == code by {
      DotFree(code);
      AfterSingleDot(code);
    }
    assert ParseInt(code) == Some(DecimalValue(code) as int) by {
      ParseDigits(code);
    }
    SingleDotShown(text, totalPages, DecimalValue(code));
  }

  /** One dot followed by the number of a page that exists shows that page. */
  lemma SingleDotShown(text: string, totalPages: nat, n: int)
    requires totalPages >= 1 && Count(text, '.') == 1 && ParseInt(AfterDot(text)) == Some(n) && 1 <= n <= totalPages
    ensures ResolvePage(text, totalPages) == ShowPage(n)
  {
  }

  /** `int()` of a run of digits is its decimal value. */
  lemma ParseDigits(code: string)
    requires IsDigits(code) && |code| >= 1
    ensures ParseInt(code) == Some(DecimalValue(code) as int)
  {
    assert '0' <= code[0] <= '9';
  }

  lemma {:induction false} DotFree(code: string)
    requires IsDigits(code)
    ensures Count(code, '.') == 0
  {
    if code != [] {
      var n := |code| - 1;
      assert IsDigits(code[..n]) by {
        assert forall k :: 0 <= k < n ==> code[..n][k] == code[k];
      }
      DotFree(code[..n]);
    }
  }

  lemma {:induction false} AfterSingleDot(code: string)
    requires IsDigits(code)
    ensures Count("." + code, '.') == 1 + Count(code, '.')
    ensures AfterDot("." + code) == code
  {
    if code != [] {
      var n := |code| - 1;
      assert IsDigits(code[..n]) by {
        assert forall k :: 0 <= k < n ==> code[..n][k] == code[k];
      }
      AfterSingleDot(code[..n]);
      assert ("." + code)[..|"." + code| - 1] == "." + code[..n];
      assert code[n] != '.';
    } else {
      assert "." + code == ".";
    }
  }

}
