/** The relationship ledger of `MarriageManager.py`: marriage requests,
    marriages and baby records, each table a sequence of rows in insertion
    order. Every `async with session.begin()` block is one method that
    either completes or, when the store raises, leaves all three tables as
    they were. The clock is the parameter `now`, in integer seconds. */
module Ledger {
  import opened Wrappers
  import opened Text
  import opened Models
  import opened Queries
  import Sessions

  /** Pending requests older than this many seconds are swept to `expired`. */
  const ExpirySeconds: int := 120
  const DaySeconds: int := 86400

  /** What the source raises: its two `ValueError`s, the store's unique-key
      violations, and `scalar_one_or_none` seeing several rows. */
  datatype LedgerError =
    | AlreadyProposedToday
    | NotMarried
    | DuplicateRequestId
    | DuplicateMarriageId
    | MultipleResultsFound

  /** The dict `have_baby` and `have_baby_with_spouse` return. */
  datatype BirthReport = BirthReport(parent1Name: string, parent2Name: string, babyCount: nat, totalBabies: nat)

  // ---------------------------------------------------------------------------
  // Requests
  // ---------------------------------------------------------------------------

  /** `f"{proposer_id}_{target_id}_{group_id}_{timestamp}"`. */
  function RequestIdFor(proposerId: UserId, targetId: UserId, groupId: string, now: int): string
  {
    proposerId + "_" + targetId + "_" + groupId + "_" + IntString(now)
  }

  /** Requests of one proposer to one target in one group share an id only
      when they are made in the same second. */
  lemma RequestIdDistinctTimes(proposerId: UserId, targetId: UserId, groupId: string, t1: int, t2: int)
    requires RequestIdFor(proposerId, targetId, groupId, t1) == RequestIdFor(proposerId, targetId, groupId, t2)
    ensures t1 == t2
  {
    var prefix := proposerId + "_" + targetId + "_" + groupId + "_";
    assert RequestIdFor(proposerId, targetId, groupId, t1)[|prefix|..] == IntString(t1);
    assert RequestIdFor(proposerId, targetId, groupId, t2)[|prefix|..] == IntString(t2);
    IntStringInjective(t1, t2);
  }

  /** Local midnight of the day `now` falls in. */
  function DayStart(now: int): int
  {
    now - now % DaySeconds
  }

  /** A request that uses up the proposer's one proposal of the day. */
  predicate ProposedToday(r: MarriageRequest, proposerId: UserId, now: int)
  {
    && r.proposerId == proposerId
    && DayStart(now) <= r.createdAt < DayStart(now) + DaySeconds
    && (r.status == Pending || r.status == Accepted)
  }

  /** The number of the day `t` falls on, counted from the clock's epoch. */
  function DayNumber(t: int): int
  {
    t / DaySeconds
  }

  /** A time lies in [today 00:00, tomorrow 00:00) exactly when it falls on
      today's day number. */
  lemma DayNumberAgrees(now: int)
    ensures forall t :: DayStart(now) <= t < DayStart(now) + DaySeconds <==> DayNumber(t) == DayNumber(now)
  {
    forall t
      ensures DayStart(now) <= t < DayStart(now) + DaySeconds <==> DayNumber(t) == DayNumber(now)
    {
      assert DayStart(now) == DaySeconds * DayNumber(now);
      assert t == DaySeconds * DayNumber(t) + t % DaySeconds;
    }
  }

  /** `can_propose_today`: no pending or accepted request of the proposer was
      created in [today 00:00, tomorrow 00:00), that is, on today's day
      number. */
  function CanProposeToday(rows: seq<MarriageRequest>, proposerId: UserId, now: int): (ok: bool)
    ensures ok <==> forall i :: 0 <= i < |rows| && rows[i].proposerId == proposerId && rows[i].status in {Pending, Accepted} ==>
                      DayNumber(rows[i].createdAt) != DayNumber(now)
  {
    DayNumberAgrees(now);
    forall i :: 0 <= i < |rows| ==> !ProposedToday(rows[i], proposerId, now)
  }

  predicate HasRequestId(rows: seq<MarriageRequest>, requestId: string)
  {
    exists i :: 0 <= i < |rows| && rows[i].requestId == requestId
  }

  predicate IsPendingFor(r: MarriageRequest, targetId: UserId, groupId: string)
  {
    r.targetId == targetId && r.groupId == groupId && r.status == Pending
  }

  function CreatedAt(r: MarriageRequest): int
  {
    r.createdAt
  }

  /** The position of the pending row with id `requestId`, if there is one. */
  function FindPending(rows: seq<MarriageRequest>, requestId: string): (found: Option<nat>)
    ensures found.Some? ==> found.value < |rows| && rows[found.value].requestId == requestId && rows[found.value].status == Pending
    ensures found.None? ==> forall i :: 0 <= i < |rows| ==> !(rows[i].requestId == requestId && rows[i].status == Pending)
  {
    if rows == [] then None
    else if rows[|rows| - 1].requestId == requestId && rows[|rows| - 1].status == Pending then Some(|rows| - 1)
    else FindPending(rows[..|rows| - 1], requestId)
  }

  /** `get_pending_request_by_id`: the pending request with that id, or none. */
  function GetPendingRequestById(rows: seq<MarriageRequest>, requestId: string): (r: Option<MarriageRequest>)
    ensures r.Some? ==> r.value in rows && r.value.requestId == requestId && r.value.status == Pending
    ensures r.None? <==> forall i :: 0 <= i < |rows| ==> !(rows[i].requestId == requestId && rows[i].status == Pending)
  {
    match FindPending(rows, requestId)
    case Some(i) => Some(rows[i])
    case None => None
  }

  /** `get_pending_request`: the newest pending request to `targetId` in
      `groupId`, or none when there is none. */
  function GetPendingRequest(rows: seq<MarriageRequest>, targetId: UserId, groupId: string): (r: Option<MarriageRequest>)
    ensures r.None? <==> forall i :: 0 <= i < |rows| ==> !IsPendingFor(rows[i], targetId, groupId)
    ensures r.Some? ==> r.value in rows && IsPendingFor(r.value, targetId, groupId)
    ensures r.Some? ==> forall i :: 0 <= i < |rows| && IsPendingFor(rows[i], targetId, groupId) ==> rows[i].createdAt <= r.value.createdAt
  {
    var matching := Where(rows, (x: MarriageRequest) => IsPendingFor(x, targetId, groupId));
    var ordered := OrderNewestFirst(matching, CreatedAt);
    if ordered == [] then
      assert forall i :: 0 <= i < |rows| ==> !IsPendingFor(rows[i], targetId, groupId) by {
        forall i | 0 <= i < |rows| ensures !IsPendingFor(rows[i], targetId, groupId) {
          if IsPendingFor(rows[i], targetId, groupId) {
            assert false;
          }
        }
      }
      None
    else
      assert ordered[0] in multiset(matching);
      assert forall i :: 0 <= i < |rows| && IsPendingFor(rows[i], targetId, groupId) ==> rows[i].createdAt <= ordered[0].createdAt by {
        forall i | 0 <= i < |rows| && IsPendingFor(rows[i], targetId, groupId)
          ensures rows[i].createdAt <= ordered[0].createdAt
        {
          assert rows[i] in multiset(ordered);
          var j :| 0 <= j < |ordered| && ordered[j] == rows[i];
          assert j == 0 || CreatedAt(ordered[0]) >= CreatedAt(ordered[j]);
        }
      }
      Some(ordered[0])
  }

  /** With unique ids, looking a pending request up by its id finds that
      very row. */
  lemma PendingIdLocates(rows: seq<MarriageRequest>, k: nat)
    requires UniqueRequestIds(rows) && k < |rows| && rows[k].status == Pending
    ensures FindPending(rows, rows[k].requestId) == Some(k)
  {
  }

  /** `UPDATE ... SET status = s WHERE request_id = id [AND status = 'pending']`.
      This is the reference definition of the update: its ensures spell out
      the row-by-row meaning, and the methods are proved equal to it. */
  function UpdateStatus(rows: seq<MarriageRequest>, requestId: string, pendingOnly: bool, status: RequestStatus): (r: seq<MarriageRequest>)
    ensures |r| == |rows|
    ensures forall k :: 0 <= k < |rows| ==>
      r[k] == if rows[k].requestId == requestId && (!pendingOnly || rows[k].status == Pending) then rows[k].(status := status) else rows[k]
  {
    seq(|rows|, k requires 0 <= k < |rows| =>
      if rows[k].requestId == requestId && (!pendingOnly || rows[k].status == Pending) then rows[k].(status := status) else rows[k])
  }

  /** With unique ids, a status update by id touches only the row found. */
  lemma UpdateStatusOneRow(rows: seq<MarriageRequest>, requestId: string, pendingOnly: bool, status: RequestStatus, i: nat)
    requires UniqueRequestIds(rows) && i < |rows| && rows[i].requestId == requestId && rows[i].status == Pending
    ensures UpdateStatus(rows, requestId, pendingOnly, status) == rows[i := rows[i].(status := status)]
  {
  }

  /** A pending row older than the cutoff. */
  predicate Stale(r: MarriageRequest, cutoff: int)
  {
    r.status == Pending && r.createdAt < cutoff
  }

  function Expire(r: MarriageRequest, cutoff: int): MarriageRequest
  {
    if Stale(r, cutoff) then r.(status := Expired) else r
  }

  /** The sweep of `cleanup_expired_requests` applied to a whole table.
      This is the reference definition the sweep loop is proved equal to;
      its ensures spell out the row-by-row meaning. */
  function ExpireAll(rows: seq<MarriageRequest>, cutoff: int): (r: seq<MarriageRequest>)
    ensures |r| == |rows|
    ensures forall k :: 0 <= k < |rows| ==> r[k] == Expire(rows[k], cutoff)
  {
    seq(|rows|, k requires 0 <= k < |rows| => Expire(rows[k], cutoff))
  }

  function CountStale(rows: seq<MarriageRequest>, cutoff: int): nat
  {
    if rows == [] then 0
    else CountStale(rows[..|rows| - 1], cutoff) + (if Stale(rows[|rows| - 1], cutoff) then 1 else 0)
  }

  /** After a sweep no stale request is left, so a second sweep at the same
      moment expires nothing and changes nothing. */
  lemma {:induction false} SweepIdempotent(rows: seq<MarriageRequest>, cutoff: int)
    ensures CountStale(ExpireAll(rows, cutoff), cutoff) == 0
    ensures ExpireAll(ExpireAll(rows, cutoff), cutoff) == ExpireAll(rows, cutoff)
  {
    if rows != [] {
      var n := |rows| - 1;
      SweepIdempotent(rows[..n], cutoff);
      assert ExpireAll(rows, cutoff)[..n] == ExpireAll(rows[..n], cutoff);
    }
  }

  /** The sweep counts exactly the rows it expires, and expires at most all
      of them. */
  lemma {:induction false} CountStaleBounds(rows: seq<MarriageRequest>, cutoff: int)
    ensures CountStale(rows, cutoff) <= |rows|
    ensures CountStale(rows, cutoff) == 0 <==> forall k :: 0 <= k < |rows| ==> !Stale(rows[k], cutoff)
  {
    if rows != [] {
      var n := |rows| - 1;
      CountStaleBounds(rows[..n], cutoff);
      assert forall k :: 0 <= k < n ==> rows[..n][k] == rows[k];
    }
  }

  // ---------------------------------------------------------------------------
  // Marriages
  // ---------------------------------------------------------------------------

  /** `f"marriage_{proposer_id}_{target_id}"`. */
  function MarriageIdFor(proposerId: UserId, targetId: UserId): string
  {
    "marriage_" + proposerId + "_" + targetId
  }

  /** For one proposer the marriage id names the target: two targets get
      different ids, while accepting the same couple twice reuses its id. */
  lemma MarriageIdNamesTarget(proposerId: UserId, t1: UserId, t2: UserId)
    requires MarriageIdFor(proposerId, t1) == MarriageIdFor(proposerId, t2)
    ensures t1 == t2
  {
    var prefix := "marriage_" + proposerId + "_";
    assert MarriageIdFor(proposerId, t1)[|prefix|..] == t1;
    assert MarriageIdFor(proposerId, t2)[|prefix|..] == t2;
  }

  /** The marriage accepting request `r` at `now` creates. */
  function MarriageFrom(r: MarriageRequest, now: int): Marriage
  {
    Marriage(MarriageIdFor(r.proposerId, r.targetId), r.proposerId, r.proposerName, r.targetId, r.targetName, r.groupId, now, Married)
  }

  predicate HasMarriageId(rows: seq<Marriage>, marriageId: string)
  {
    exists i :: 0 <= i < |rows| && rows[i].marriageId == marriageId
  }

  /** A marriage in force with `userId` on either side. */
  predicate MarriedTo(m: Marriage, userId: UserId)
  {
    m.status == Married && (m.proposerId == userId || m.targetId == userId)
  }

  /** A marriage in force between the two users, in either order. */
  predicate IsCouple(m: Marriage, userId: UserId, spouseId: UserId)
  {
    m.status == Married && ((m.proposerId == userId && m.targetId == spouseId) || (m.proposerId == spouseId && m.targetId == userId))
  }

  /** `get_user_marriages`: the user's marriages in force, in table order. */
  function GetUserMarriages(rows: seq<Marriage>, userId: UserId): (r: seq<Marriage>)
    ensures forall x :: 0 <= x < |r| ==> r[x] in rows && MarriedTo(r[x], userId)
    ensures forall k :: 0 <= k < |rows| && MarriedTo(rows[k], userId) ==> rows[k] in r
    ensures |r| >= 2 ==> exists i, j :: 0 <= i < j < |rows| && MarriedTo(rows[i], userId) && MarriedTo(rows[j], userId)
    ensures forall m :: multiset(r)[m] == if MarriedTo(m, userId) then multiset(rows)[m] else 0
  {
    WhereCounts(rows, (m: Marriage) => MarriedTo(m, userId));
    Where(rows, (m: Marriage) => MarriedTo(m, userId))
  }

  /** `get_user_marriage`: none, the one marriage in force, or the error
      `scalar_one_or_none` raises when there are several. */
  function GetUserMarriage(rows: seq<Marriage>, userId: UserId): (r: Result<Option<Marriage>, LedgerError>)
    ensures r == Success(None) <==> forall k :: 0 <= k < |rows| ==> !MarriedTo(rows[k], userId)
    ensures r.Success? && r.value.Some? ==>
      r.value.value in rows && MarriedTo(r.value.value, userId)
      && forall k :: 0 <= k < |rows| && MarriedTo(rows[k], userId) ==> rows[k] == r.value.value
    ensures r.Failure? ==>
      r.error == MultipleResultsFound
      && exists i, j :: 0 <= i < j < |rows| && MarriedTo(rows[i], userId) && MarriedTo(rows[j], userId)
  {
    var found := GetUserMarriages(rows, userId);
    if |found| == 0 then Success(None)
    else if |found| == 1 then Success(Some(found[0]))
    else Failure(MultipleResultsFound)
  }

  /** `UPDATE marriages SET status = 'divorced' WHERE marriage_id = id`.
      This is the reference definition of the update: its ensures spell out
      the row-by-row meaning, and `Divorce` is proved against it. */
  function DivorceWhere(rows: seq<Marriage>, marriageId: string): (r: seq<Marriage>)
    ensures |r| == |rows|
    ensures forall k :: 0 <= k < |rows| ==> r[k] == if rows[k].marriageId == marriageId then rows[k].(status := Divorced) else rows[k]
  {
    seq(|rows|, k requires 0 <= k < |rows| => if rows[k].marriageId == marriageId then rows[k].(status := Divorced) else rows[k])
  }

  /** With unique ids, divorcing by id touches only the row found, and the
      ids stay unique. */
  lemma DivorceOneRow(rows: seq<Marriage>, i: nat)
    requires UniqueMarriageIds(rows) && i < |rows|
    ensures DivorceWhere(rows, rows[i].marriageId) == rows[i := rows[i].(status := Divorced)]
    ensures UniqueMarriageIds(rows[i := rows[i].(status := Divorced)])
  {
    var after := rows[i := rows[i].(status := Divorced)];
    assert forall k :: 0 <= k < |rows| ==> after[k].marriageId == rows[k].marriageId;
  }

  // ---------------------------------------------------------------------------
  // Baby records
  // ---------------------------------------------------------------------------

  predicate HasParent(b: BabyRecord, userId: UserId)
  {
    b.parent1Id == userId || b.parent2Id == userId
  }

  predicate OfCouple(b: BabyRecord, userId: UserId, spouseId: UserId)
  {
    (b.parent1Id == userId && b.parent2Id == spouseId) || (b.parent1Id == spouseId && b.parent2Id == userId)
  }

  /** Sum of `baby_count` over the records with `userId` as either parent. */
  function UserTotal(rows: seq<BabyRecord>, userId: UserId): nat
  {
    if rows == [] then 0
    else UserTotal(rows[..|rows| - 1], userId) + (if HasParent(rows[|rows| - 1], userId) then rows[|rows| - 1].babyCount else 0)
  }

  /** Sum of `baby_count` over the records of the couple, in either order. */
  function PairTotal(rows: seq<BabyRecord>, userId: UserId, spouseId: UserId): nat
  {
    if rows == [] then 0
    else PairTotal(rows[..|rows| - 1], userId, spouseId) + (if OfCouple(rows[|rows| - 1], userId, spouseId) then rows[|rows| - 1].babyCount else 0)
  }

  /** `get_total_babies`: the couple's total when a (non-empty) spouse id is
      given, the user's total over all partners otherwise. Either way it is
      at most the user's total, and 0 when no record names the user. */
  function GetTotalBabies(rows: seq<BabyRecord>, userId: UserId, spouseId: Option<UserId>): (total: nat)
    ensures total <= UserTotal(rows, userId)
    ensures (forall k :: 0 <= k < |rows| ==> !HasParent(rows[k], userId)) ==> total == 0
  {
    PairTotalAtMostUserTotal(rows, userId, if spouseId.Some? then spouseId.value else "");
    NoRecordsNoBabies(rows, userId);
    if spouseId.Some? && spouseId.value != "" then PairTotal(rows, userId, spouseId.value) else UserTotal(rows, userId)
  }

  /** The couple's total does not depend on who is named first. */
  lemma {:induction false} PairTotalSymmetric(rows: seq<BabyRecord>, userId: UserId, spouseId: UserId)
    ensures PairTotal(rows, userId, spouseId) == PairTotal(rows, spouseId, userId)
  {
    if rows != [] {
      PairTotalSymmetric(rows[..|rows| - 1], userId, spouseId);
    }
  }

  /** A couple's babies are among each partner's babies. */
  lemma {:induction false} PairTotalAtMostUserTotal(rows: seq<BabyRecord>, userId: UserId, spouseId: UserId)
    ensures PairTotal(rows, userId, spouseId) <= UserTotal(rows, userId)
  {
    if rows != [] {
      PairTotalAtMostUserTotal(rows[..|rows| - 1], userId, spouseId);
    }
  }

  /** With no record naming the user, the sum is 0 (the `or 0` of the query). */
  lemma {:induction false} NoRecordsNoBabies(rows: seq<BabyRecord>, userId: UserId)
    ensures (forall k :: 0 <= k < |rows| ==> !HasParent(rows[k], userId)) ==> UserTotal(rows, userId) == 0
  {
    if rows != [] {
      NoRecordsNoBabies(rows[..|rows| - 1], userId);
      assert forall k :: 0 <= k < |rows| - 1 ==> rows[..|rows| - 1][k] == rows[k];
    }
  }

  /** Appending one record adds its count to every total it belongs to. */
  lemma TotalsAfterAppend(rows: seq<BabyRecord>, b: BabyRecord, userId: UserId, spouseId: UserId)
    ensures UserTotal(rows + [b], userId) == UserTotal(rows, userId) + (if HasParent(b, userId) then b.babyCount else 0)
    ensures PairTotal(rows + [b], userId, spouseId) == PairTotal(rows, userId, spouseId) + (if OfCouple(b, userId, spouseId) then b.babyCount else 0)
  {
    assert (rows + [b])[..|rows|] == rows;
  }

  function BabyCreatedAt(b: BabyRecord): int
  {
    b.createdAt
  }

  /** `get_baby_records`: the user's records, newest first. */
  function GetBabyRecords(rows: seq<BabyRecord>, userId: UserId): (r: seq<BabyRecord>)
    ensures NewestFirst(r, BabyCreatedAt)
    ensures forall x :: 0 <= x < |r| ==> r[x] in rows && HasParent(r[x], userId)
    ensures forall k :: 0 <= k < |rows| && HasParent(rows[k], userId) ==> rows[k] in r
    ensures forall b :: multiset(r)[b] == if HasParent(b, userId) then multiset(rows)[b] else 0
  {
    var matching := Where(rows, (b: BabyRecord) => HasParent(b, userId));
    var ordered := OrderNewestFirst(matching, BabyCreatedAt);
    assert forall b :: multiset(ordered)[b] == if HasParent(b, userId) then multiset(rows)[b] else 0 by {
      WhereCounts(rows, (b: BabyRecord) => HasParent(b, userId));
    }
    assert forall x :: 0 <= x < |ordered| ==> ordered[x] in matching by {
      forall x | 0 <= x < |ordered| ensures ordered[x] in matching {
        OrderedMembers(matching, BabyCreatedAt, ordered[x]);
      }
    }
    assert forall k :: 0 <= k < |rows| && HasParent(rows[k], userId) ==> rows[k] in ordered by {
      forall k | 0 <= k < |rows| && HasParent(rows[k], userId) ensures rows[k] in ordered {
        OrderedMembers(matching, BabyCreatedAt, rows[k]);
      }
    }
    ordered
  }

  /** The record a birth adds: `userId` as parent 1 with the name from their
      side of the marriage, the partner as parent 2. */
  function BirthRecord(m: Marriage, userId: UserId, babyCount: nat, groupId: string, now: int): (r: BabyRecord)
    ensures r.babyCount == babyCount && r.marriageId == m.marriageId
    ensures m.proposerId == userId || m.targetId == userId ==>
              && r.parent1Id == userId
              && multiset{r.parent1Id, r.parent2Id} == multiset{m.proposerId, m.targetId}
  {
    if m.proposerId == userId then
      BabyRecord(m.marriageId, m.proposerId, m.proposerName, m.targetId, m.targetName, babyCount, now, groupId)
    else
      BabyRecord(m.marriageId, m.targetId, m.targetName, m.proposerId, m.proposerName, babyCount, now, groupId)
  }

  /** The de-duplication loop of `get_pending_requests`: walking a list that
      is newest first, keep a request only when its proposer has not been
      seen yet, so each proposer is represented by their newest request. */
  method KeepFirstPerProposer(ordered: seq<MarriageRequest>) returns (merged: seq<MarriageRequest>)
    requires NewestFirst(ordered, CreatedAt)
    ensures forall x :: 0 <= x < |merged| ==> merged[x] in ordered
    ensures forall x, y :: 0 <= x < y < |merged| ==> merged[x].proposerId != merged[y].proposerId
    ensures NewestFirst(merged, CreatedAt)
    ensures forall k :: 0 <= k < |ordered| ==> Represented(merged, ordered[k])
  {
    merged := [];
    var seen: set<UserId> := {};
    ghost var slot: map<UserId, nat> := map[];  // where each seen proposer sits in `merged`
    ghost var rep: seq<nat> := [];              // which kept request stands for each visited one
    ghost var src: seq<nat> := [];              // where each kept request sits in `ordered`
    var i := 0;
    while i < |ordered|
      invariant KeptFrom(ordered, i, merged, src)
      invariant DistinctProposers(merged)
      invariant NewestFirst(merged, CreatedAt)
      invariant NoOlderThanRest(ordered, i, merged)
      invariant Seen(merged, seen, slot)
      invariant StoodIn(ordered, i, merged, rep)
    {
      var r := ordered[i];
      if r.proposerId in seen {
        KeptNoOlder(ordered, i, merged, slot[r.proposerId]);
        StoodInSkip(ordered, i, merged, seen, slot, rep);
        rep := rep + [slot[r.proposerId]];
      } else {
        KeptFromKeep(ordered, i, merged, src);
        DistinctKeep(merged, seen, slot, r);
        OrderKeep(ordered, i, merged);
        RestKeep(ordered, i, merged);
        SeenKeep(merged, seen, slot, r);
        StoodInKeep(ordered, i, merged, rep);
        rep := rep + [|merged|];
        src := src + [i];
        slot := slot[r.proposerId := |merged|];
        merged := merged + [r];
        seen := seen + {r.proposerId};
      }
      i := i + 1;
    }
    ScanDone(ordered, merged, rep, src);
  }

  /** After visiting `ordered[..i]`, the kept requests are visited ones,
      and `src` says where each sits. */
  ghost predicate KeptFrom(ordered: seq<MarriageRequest>, i: int, merged: seq<MarriageRequest>, src: seq<nat>)
  {
    && 0 <= i <= |ordered| && |src| == |merged|
    && (forall x :: 0 <= x < |merged| ==> src[x] < i && merged[x] == ordered[src[x]])
  }

  ghost predicate DistinctProposers(merged: seq<MarriageRequest>)
  {
    forall x, y :: 0 <= x < y < |merged| ==> merged[x].proposerId != merged[y].proposerId
  }

  /** No kept request is older than a request still to visit. */
  ghost predicate NoOlderThanRest(ordered: seq<MarriageRequest>, i: int, merged: seq<MarriageRequest>)
  {
    forall x, j :: 0 <= x < |merged| && 0 <= j < |ordered| && i <= j ==> merged[x].createdAt >= ordered[j].createdAt
  }

  /** `seen` is exactly the kept proposers, and `slot` locates each. */
  ghost predicate Seen(merged: seq<MarriageRequest>, seen: set<UserId>, slot: map<UserId, nat>)
  {
    && seen == slot.Keys
    && (forall p :: p in slot ==> slot[p] < |merged| && merged[slot[p]].proposerId == p)
    && (forall x :: 0 <= x < |merged| ==> merged[x].proposerId in seen)
  }

  /** `rep` names, for each visited request, a kept request of the same
      proposer that is no older. */
  ghost predicate StoodIn(ordered: seq<MarriageRequest>, i: int, merged: seq<MarriageRequest>, rep: seq<nat>)
  {
    && 0 <= i <= |ordered| && |rep| == i
    && (forall k :: 0 <= k < i ==>
          rep[k] < |merged| && merged[rep[k]].proposerId == ordered[k].proposerId && merged[rep[k]].createdAt >= ordered[k].createdAt)
  }

  lemma KeptNoOlder(ordered: seq<MarriageRequest>, i: int, merged: seq<MarriageRequest>, x: int)
    requires NoOlderThanRest(ordered, i, merged) && 0 <= i < |ordered| && 0 <= x < |merged|
    ensures merged[x].createdAt >= ordered[i].createdAt
  {
  }

  lemma KeptFromKeep(ordered: seq<MarriageRequest>, i: int, merged: seq<MarriageRequest>, src: seq<nat>)
    requires KeptFrom(ordered, i, merged, src) && i < |ordered|
    ensures KeptFrom(ordered, i + 1, merged + [ordered[i]], src + [i])
  {
    var merged', src' := merged + [ordered[i]], src + [i];
    forall x | 0 <= x < |merged'| ensures src'[x] < i + 1 && merged'[x] == ordered[src'[x]] {
      if x < |merged| {
        assert merged'[x] == merged[x] && src'[x] == src[x];
      }
    }
  }

  lemma DistinctKeep(merged: seq<MarriageRequest>, seen: set<UserId>, slot: map<UserId, nat>, r: MarriageRequest)
    requires DistinctProposers(merged) && Seen(merged, seen, slot) && r.proposerId !in seen
    ensures DistinctProposers(merged + [r])
  {
    var merged' := merged + [r];
    forall x, y | 0 <= x < y < |merged'| ensures merged'[x].proposerId != merged'[y].proposerId {
      assert merged'[x] == merged[x];
      if y < |merged| {
        assert merged'[y] == merged[y];
      }
    }
  }

  lemma OrderKeep(ordered: seq<MarriageRequest>, i: int, merged: seq<MarriageRequest>)
    requires NewestFirst(merged, CreatedAt) && NoOlderThanRest(ordered, i, merged) && 0 <= i < |ordered|
    ensures NewestFirst(merged + [ordered[i]], CreatedAt)
  {
    var merged' := merged + [ordered[i]];
    forall x, y | 0 <= x < y < |merged'| ensures CreatedAt(merged'[x]) >= CreatedAt(merged'[y]) {
      assert merged'[x] == merged[x];
      if y < |merged| {
        assert merged'[y] == merged[y];
      }
    }
  }

  lemma RestKeep(ordered: seq<MarriageRequest>, i: int, merged: seq<MarriageRequest>)
    requires NewestFirst(ordered, CreatedAt) && NoOlderThanRest(ordered, i, merged) && 0 <= i < |ordered|
    ensures NoOlderThanRest(ordered, i + 1, merged + [ordered[i]])
  {
    var merged' := merged + [ordered[i]];
    forall x, j | 0 <= x < |merged'| && i + 1 <= j < |ordered| ensures merged'[x].createdAt >= ordered[j].createdAt {
      if x < |merged| {
        assert merged'[x] == merged[x];
      } else {
        assert CreatedAt(ordered[i]) >= CreatedAt(ordered[j]);
      }
    }
  }

  lemma SeenKeep(merged: seq<MarriageRequest>, seen: set<UserId>, slot: map<UserId, nat>, r: MarriageRequest)
    requires Seen(merged, seen, slot) && r.proposerId !in seen
    ensures Seen(merged + [r], seen + {r.proposerId}, slot[r.proposerId := |merged|])
  {
    var merged', slot' := merged + [r], slot[r.proposerId := |merged|];
    forall p | p in slot' ensures slot'[p] < |merged'| && merged'[slot'[p]].proposerId == p {
      if p != r.proposerId {
        assert slot'[p] == slot[p];
      }
    }
  }

  lemma StoodInSkip(ordered: seq<MarriageRequest>, i: int, merged: seq<MarriageRequest>,
                    seen: set<UserId>, slot: map<UserId, nat>, rep: seq<nat>)
    requires StoodIn(ordered, i, merged, rep) && Seen(merged, seen, slot)
    requires i < |ordered| && ordered[i].proposerId in seen
    requires merged[slot[ordered[i].proposerId]].createdAt >= ordered[i].createdAt
    ensures StoodIn(ordered, i + 1, merged, rep + [slot[ordered[i].proposerId]])
  {
    var rep' := rep + [slot[ordered[i].proposerId]];
    forall k | 0 <= k < i + 1
      ensures rep'[k] < |merged| && merged[rep'[k]].proposerId == ordered[k].proposerId && merged[rep'[k]].createdAt >= ordered[k].createdAt
    {
      if k < i {
        assert rep'[k] == rep[k];
      }
    }
  }

  lemma StoodInKeep(ordered: seq<MarriageRequest>, i: int, merged: seq<MarriageRequest>, rep: seq<nat>)
    requires StoodIn(ordered, i, merged, rep) && i < |ordered|
    ensures StoodIn(ordered, i + 1, merged + [ordered[i]], rep + [|merged|])
  {
    var merged', rep' := merged + [ordered[i]], rep + [|merged|];
    forall k | 0 <= k < i + 1
      ensures rep'[k] < |merged'| && merged'[rep'[k]].proposerId == ordered[k].proposerId && merged'[rep'[k]].createdAt >= ordered[k].createdAt
    {
      if k < i {
        assert rep'[k] == rep[k] && merged'[rep[k]] == merged[rep[k]];
      }
    }
  }

  /** Once every request is visited, each is represented by a kept one. */
  lemma ScanDone(ordered: seq<MarriageRequest>, merged: seq<MarriageRequest>, rep: seq<nat>, src: seq<nat>)
    requires KeptFrom(ordered, |ordered|, merged, src) && StoodIn(ordered, |ordered|, merged, rep)
    ensures forall x :: 0 <= x < |merged| ==> merged[x] in ordered
    ensures forall k :: 0 <= k < |ordered| ==> Represented(merged, ordered[k])
  {
    forall k | 0 <= k < |ordered| ensures Represented(merged, ordered[k]) {
      var x := rep[k];
      assert merged[x].proposerId == ordered[k].proposerId;
    }
  }

  /** What `get_pending_requests` returns for `targetId` in `groupId`: rows of
      the table pending for them, one per proposer, newest first, each
      pending row represented by a listed one of its proposer at least as new. */
  ghost predicate PendingListing(rows: seq<MarriageRequest>, targetId: UserId, groupId: string, listed: seq<MarriageRequest>)
  {
    && (forall x :: 0 <= x < |listed| ==> listed[x] in rows && IsPendingFor(listed[x], targetId, groupId))
    && (forall x, y :: 0 <= x < y < |listed| ==> listed[x].proposerId != listed[y].proposerId)
    && NewestFirst(listed, CreatedAt)
    && (forall k :: 0 <= k < |rows| && IsPendingFor(rows[k], targetId, groupId) ==> Represented(listed, rows[k]))
  }

  /** Listed requests are distinct rows of a table with unique ids, so their
      ids are unique too. */
  lemma ListingIdsUnique(rows: seq<MarriageRequest>, targetId: UserId, groupId: string, listed: seq<MarriageRequest>)
    requires UniqueRequestIds(rows) && PendingListing(rows, targetId, groupId, listed)
    ensures UniqueRequestIds(listed)
  {
    forall i, j | 0 <= i < |listed| && 0 <= j < |listed| && listed[i].requestId == listed[j].requestId
      ensures i == j
    {
      var a :| 0 <= a < |rows| && rows[a] == listed[i];
      var b :| 0 <= b < |rows| && rows[b] == listed[j];
      assert a == b;
      assert listed[i].proposerId == listed[j].proposerId;
    }
  }

  /** With no proposer named, the first listed request is a newest pending one. */
  lemma ListingHeadNewest(rows: seq<MarriageRequest>, targetId: UserId, groupId: string, listed: seq<MarriageRequest>)
    requires PendingListing(rows, targetId, groupId, listed) && listed != []
    ensures forall k :: 0 <= k < |rows| && IsPendingFor(rows[k], targetId, groupId) ==> rows[k].createdAt <= listed[0].createdAt
  {
    forall k | 0 <= k < |rows| && IsPendingFor(rows[k], targetId, groupId)
      ensures rows[k].createdAt <= listed[0].createdAt
    {
      var x :| 0 <= x < |listed| && listed[x].proposerId == rows[k].proposerId && listed[x].createdAt >= rows[k].createdAt;
      if x > 0 {
        assert CreatedAt(listed[0]) >= CreatedAt(listed[x]);
      }
    }
  }

  /** Some kept request has the proposer of `r` and is no older than `r`. */
  predicate Represented(merged: seq<MarriageRequest>, r: MarriageRequest)
  {
    exists x :: 0 <= x < |merged| && merged[x].proposerId == r.proposerId && merged[x].createdAt >= r.createdAt
  }

  // ---------------------------------------------------------------------------
  // The manager
  // ---------------------------------------------------------------------------

  /** What a scheduled gestation completion ends in. */
  datatype Completion =
    | NotRunning
    | Born(babyCount: nat, totalAfterBirth: nat, display: string)
    | Swallowed(error: LedgerError)

  class MarriageManager {
    var requests: seq<MarriageRequest>
    var marriages: seq<Marriage>
    var babies: seq<BabyRecord>
    const babyProcessManager: Sessions.BabyProcessManager

    /** The store's unique keys hold, and so does the registry's invariant. */
    ghost predicate Valid()
      reads this, babyProcessManager
    {
      UniqueRequestIds(requests) && UniqueMarriageIds(marriages) && babyProcessManager.Valid()
    }

    constructor ()
      ensures Valid() && fresh(babyProcessManager)
      ensures requests == [] && marriages == [] && babies == [] && babyProcessManager.processes == map[]
    {
      requests, marriages, babies := [], [], [];
      babyProcessManager := new Sessions.BabyProcessManager();
    }

    /** `create_marriage_request`: refused when the proposer already proposed
        today (whatever the target) or the id is taken; otherwise exactly one
        pending request is appended. */
    method CreateMarriageRequest(proposerId: UserId, proposerName: string, targetId: UserId, targetName: string,
                                 groupId: string, now: int)
      returns (res: Result<string, LedgerError>)
      requires Valid()
      modifies this
      ensures Valid()
      ensures marriages == old(marriages) && babies == old(babies)
      ensures !CanProposeToday(old(requests), proposerId, now) ==>
        res == Failure(AlreadyProposedToday) && requests == old(requests)
      ensures CanProposeToday(old(requests), proposerId, now) && HasRequestId(old(requests), RequestIdFor(proposerId, targetId, groupId, now)) ==>
        res == Failure(DuplicateRequestId) && requests == old(requests)
      ensures CanProposeToday(old(requests), proposerId, now) && !HasRequestId(old(requests), RequestIdFor(proposerId, targetId, groupId, now)) ==>
        && res == Success(RequestIdFor(proposerId, targetId, groupId, now))
        && requests == old(requests) + [MarriageRequest(res.value, proposerId, proposerName, targetId, targetName, groupId, now, Pending)]
    {
      if !CanProposeToday(requests, proposerId, now) {
        return Failure(AlreadyProposedToday);
      }
      var requestId := RequestIdFor(proposerId, targetId, groupId, now);
      if HasRequestId(requests, requestId) {
        return Failure(DuplicateRequestId);
      }
      requests := requests + [MarriageRequest(requestId, proposerId, proposerName, targetId, targetName, groupId, now, Pending)];
      res := Success(requestId);
    }

    /** `get_pending_requests`: the pending requests to `targetId` in
        `groupId`, newest first, keeping only the first (newest) one seen
        for each proposer. */
    method GetPendingRequests(targetId: UserId, groupId: string) returns (merged: seq<MarriageRequest>)
      ensures PendingListing(requests, targetId, groupId, merged)
    {
      var matching := Where(requests, (r: MarriageRequest) => IsPendingFor(r, targetId, groupId));
      var ordered := OrderNewestFirst(matching, CreatedAt);
      merged := KeepFirstPerProposer(ordered);
      assert forall x :: 0 <= x < |merged| ==> merged[x] in requests && IsPendingFor(merged[x], targetId, groupId) by {
        forall x | 0 <= x < |merged|
          ensures merged[x] in requests && IsPendingFor(merged[x], targetId, groupId)
        {
          OrderedMembers(matching, CreatedAt, merged[x]);
        }
      }
      assert forall k :: 0 <= k < |requests| && IsPendingFor(requests[k], targetId, groupId) ==> Represented(merged, requests[k]) by {
        forall k | 0 <= k < |requests| && IsPendingFor(requests[k], targetId, groupId)
          ensures Represented(merged, requests[k])
        {
          OrderedMembers(matching, CreatedAt, requests[k]);
          var j :| 0 <= j < |ordered| && ordered[j] == requests[k];
        }
      }
    }

    /** `accept_marriage_request`: false without a pending request of that
        id; otherwise the request becomes accepted and one marriage in force
        is added, unless its id is taken (the transaction then fails).
        Existing marriages of either party are not checked. */
    method AcceptMarriageRequest(requestId: string, now: int) returns (res: Result<bool, LedgerError>)
      requires Valid()
      modifies this
      ensures Valid()
      ensures babies == old(babies)
      ensures FindPending(old(requests), requestId).None? ==>
        res == Success(false) && requests == old(requests) && marriages == old(marriages)
      ensures FindPending(old(requests), requestId).Some? ==>
        var i := FindPending(old(requests), requestId).value;
        var m := MarriageFrom(old(requests)[i], now);
        if HasMarriageId(old(marriages), m.marriageId) then
          res == Failure(DuplicateMarriageId) && requests == old(requests) && marriages == old(marriages)
        else
          && res == Success(true)
          && requests == old(requests)[i := old(requests)[i].(status := Accepted)]
          && marriages == old(marriages) + [m]
    {
      var found := FindPending(requests, requestId);
      if found.None? {
        return Success(false);
      }
      var i := found.value;
      var m := MarriageFrom(requests[i], now);
      if HasMarriageId(marriages, m.marriageId) {
        return Failure(DuplicateMarriageId);
      }
      UpdateStatusOneRow(requests, requestId, false, Accepted, i);
      requests := UpdateStatus(requests, requestId, false, Accepted);
      marriages := marriages + [m];
      res := Success(true);
    }

    /** `reject_marriage_request`: only a pending row turns rejected; true
        exactly when there was one. */
    method RejectMarriageRequest(requestId: string) returns (rejected: bool)
      requires Valid()
      modifies this
      ensures Valid()
      ensures marriages == old(marriages) && babies == old(babies)
      ensures rejected <==> FindPending(old(requests), requestId).Some?
      ensures rejected ==>
        var i := FindPending(old(requests), requestId).value;
        requests == old(requests)[i := old(requests)[i].(status := Rejected)]
      ensures !rejected ==> requests == old(requests)
      ensures requests == UpdateStatus(old(requests), requestId, true, Rejected)
    {
      var found := FindPending(requests, requestId);
      if found.Some? {
        UpdateStatusOneRow(requests, requestId, true, Rejected, found.value);
      } else {
        assert UpdateStatus(requests, requestId, true, Rejected) == requests;
      }
      requests := UpdateStatus(requests, requestId, true, Rejected);
      rejected := found.Some?;
    }

    /** `divorce`: with exactly one marriage in force, it turns divorced;
        with none, false; with several, the lookup raises. */
    method Divorce(userId: UserId) returns (res: Result<bool, LedgerError>)
      requires Valid()
      modifies this
      ensures Valid()
      ensures requests == old(requests) && babies == old(babies)
      ensures GetUserMarriage(old(marriages), userId) == Success(None) ==> res == Success(false) && marriages == old(marriages)
      ensures GetUserMarriage(old(marriages), userId).Failure? ==> res == Failure(MultipleResultsFound) && marriages == old(marriages)
      ensures GetUserMarriage(old(marriages), userId).Success? && GetUserMarriage(old(marriages), userId).value.Some? ==>
        && res == Success(true)
        && exists i :: 0 <= i < |old(marriages)| && MarriedTo(old(marriages)[i], userId)
             && marriages == old(marriages)[i := old(marriages)[i].(status := Divorced)]
    {
      var found := GetUserMarriage(marriages, userId);
      if found.Failure? {
        return Failure(MultipleResultsFound);
      }
      if found.value.None? {
        return Success(false);
      }
      var m := found.value.value;
      var i :| 0 <= i < |marriages| && marriages[i] == m;
      DivorceOneRow(marriages, i);
      marriages := DivorceWhere(marriages, m.marriageId);
      res := Success(true);
    }

    /** `cleanup_expired_requests`: exactly the pending requests created
        before `now - 120` turn expired; the result is how many. */
    method CleanupExpiredRequests(now: int) returns (expired: nat)
      requires Valid()
      modifies this
      ensures Valid()
      ensures marriages == old(marriages) && babies == old(babies)
      ensures requests == ExpireAll(old(requests), now - ExpirySeconds)
      ensures expired == CountStale(old(requests), now - ExpirySeconds)
    {
      var cutoff := now - ExpirySeconds;
      ghost var before := requests;
      expired := 0;
      var i := 0;
      while i < |requests|
        invariant 0 <= i <= |requests| == |before|
        invariant forall k :: 0 <= k < |requests| ==> requests[k] == if k < i then Expire(before[k], cutoff) else before[k]
        invariant expired == CountStale(before[..i], cutoff)
        invariant marriages == old(marriages) && babies == old(babies)
      {
        assert before[..i + 1][..i] == before[..i];
        if Stale(requests[i], cutoff) {
          requests := requests[i := requests[i].(status := Expired)];
          expired := expired + 1;
        }
        i := i + 1;
      }
      assert before[..i] == before;
      assert requests == ExpireAll(before, cutoff);
      SameIdsUnique(before, requests);
    }

    /** `daily_reset_all_data`: requests and marriages are wiped; baby records
        are kept. */
    method DailyResetAllData() returns (done: bool)
      requires Valid()
      modifies this
      ensures Valid()
      ensures done && requests == [] && marriages == [] && babies == old(babies)
    {
      marriages := [];
      requests := [];
      done := true;
    }

    /** `have_baby`: needs a marriage in force; the first one found is used,
        and one record with the user as parent 1 is appended. The reported
        total is read in a separate session, before the new record is
        committed. */
    method HaveBaby(userId: UserId, groupId: string, babyCount: nat, now: int) returns (res: Result<BirthReport, LedgerError>)
      requires Valid()
      modifies this
      ensures Valid()
      ensures requests == old(requests) && marriages == old(marriages)
      ensures res.Failure? <==> forall k :: 0 <= k < |marriages| ==> !MarriedTo(marriages[k], userId)
      ensures res.Failure? ==> res.error == NotMarried && babies == old(babies)
      ensures res.Success? ==>
        exists m :: m in marriages && MarriedTo(m, userId)
          && babies == old(babies) + [BirthRecord(m, userId, babyCount, groupId, now)]
          && res.value == BirthReport(babies[|babies| - 1].parent1Name, babies[|babies| - 1].parent2Name,
                                      babyCount, UserTotal(old(babies), userId))
      ensures res.Success? ==> babies[|babies| - 1].parent1Id == userId && UserTotal(babies, userId) == res.value.totalBabies + babyCount
    {
      var found := GetUserMarriages(marriages, userId);
      if found == [] {
        return Failure(NotMarried);
      }
      var m := found[0];
      var record := BirthRecord(m, userId, babyCount, groupId, now);
      var total := GetTotalBabies(babies, userId, None);
      TotalsAfterAppend(babies, record, userId, "");
      babies := babies + [record];
      res := Success(BirthReport(record.parent1Name, record.parent2Name, babyCount, total));
    }

    /** `have_baby_with_spouse`: needs a marriage in force between the two,
        in either order; appends one record with parent 1 the user and
        parent 2 the spouse. */
    method HaveBabyWithSpouse(userId: UserId, spouseId: UserId, groupId: string, babyCount: nat, now: int)
      returns (res: Result<BirthReport, LedgerError>)
      requires Valid()
      modifies this
      ensures Valid()
      ensures requests == old(requests) && marriages == old(marriages)
      ensures res.Failure? <==> forall k :: 0 <= k < |marriages| ==> !IsCouple(marriages[k], userId, spouseId)
      ensures res.Failure? ==> res.error == NotMarried && babies == old(babies)
      ensures res.Success? ==>
        exists m :: m in marriages && IsCouple(m, userId, spouseId)
          && babies == old(babies) + [BirthRecord(m, userId, babyCount, groupId, now)]
      ensures res.Success? ==>
        var b := babies[|babies| - 1];
        && b.parent1Id == userId && b.parent2Id == spouseId && b.babyCount == babyCount && b.groupId == groupId
        && res.value == BirthReport(b.parent1Name, b.parent2Name, babyCount, GetTotalBabies(old(babies), userId, Some(spouseId)))
    {
      var found := Where(marriages, (m: Marriage) => IsCouple(m, userId, spouseId));
      if found == [] {
        return Failure(NotMarried);
      }
      var m := found[0];
      var record := BirthRecord(m, userId, babyCount, groupId, now);
      var total := GetTotalBabies(babies, userId, Some(spouseId));
      babies := babies + [record];
      res := Success(BirthReport(record.parent1Name, record.parent2Name, babyCount, total));
    }

    /** `_complete_baby_process`, with its callback bound to
        `have_baby_with_spouse` as the only caller binds it: pop the pair's
        process (a missing one is a silent no-op), draw the count, record the
        birth, and report the new total; a failure of the callback is
        swallowed. */
    method CompleteBabyProcess(user1: UserId, user2: UserId, draw: int, now: int) returns (outcome: Completion)
      requires Valid()
      modifies this, babyProcessManager
      ensures Valid()
      ensures requests == old(requests) && marriages == old(marriages)
      ensures babyProcessManager.processes == old(babyProcessManager.processes) - {Sessions.KeyOf(user1, user2)}
      ensures outcome.NotRunning? <==> Sessions.KeyOf(user1, user2) !in old(babyProcessManager.processes)
      ensures outcome.NotRunning? ==> babies == old(babies)
      ensures outcome.Swallowed? <==>
        Sessions.KeyOf(user1, user2) in old(babyProcessManager.processes)
        && forall k :: 0 <= k < |marriages| ==> !IsCouple(marriages[k], user1, user2)
      ensures outcome.Swallowed? ==> outcome.error == NotMarried && babies == old(babies)
      ensures outcome.Born? ==>
        && outcome.babyCount == Sessions.RealisticBabyCount(draw)
        && outcome.display == Sessions.FormatBabyCountSymbols(outcome.totalAfterBirth)
        && |babies| == |old(babies)| + 1
        && babies[|babies| - 1].groupId == old(babyProcessManager.processes)[Sessions.KeyOf(user1, user2)].groupId
        && babies[..|old(babies)|] == old(babies)
        && babies[|babies| - 1].parent1Id == user1 && babies[|babies| - 1].parent2Id == user2
        && babies[|babies| - 1].babyCount == outcome.babyCount
      ensures outcome.Born? && user2 != "" ==> outcome.totalAfterBirth == PairTotal(babies, user1, user2)
    {
      var popped := babyProcessManager.CompleteBabyProcess(user1, user2);
      if popped.None? {
        return NotRunning;
      }
      var babyCount := Sessions.RealisticBabyCount(draw);
      var result := HaveBabyWithSpouse(user1, user2, popped.value.groupId, babyCount, now);
      if result.Failure? {
        return Swallowed(result.error);
      }
      TotalsAfterAppend(old(babies), babies[|babies| - 1], user1, user2);
      assert babies == old(babies) + [babies[|babies| - 1]];
      var totalAfterBirth := result.value.totalBabies + babyCount;
      outcome := Born(babyCount, totalAfterBirth, Sessions.FormatBabyCountSymbols(totalAfterBirth));
    }
  }

  // ---------------------------------------------------------------------------
  // Properties across operations
  // ---------------------------------------------------------------------------

  /** Rows that keep their ids keep them unique. */
  lemma SameIdsUnique(before: seq<MarriageRequest>, after: seq<MarriageRequest>)
    requires UniqueRequestIds(before) && |after| == |before|
    requires forall k :: 0 <= k < |after| ==> after[k].requestId == before[k].requestId
    ensures UniqueRequestIds(after)
  {
  }

  /** Once a proposal has been recorded, the proposer cannot propose again
      on the same calendar day, to anyone. */
  lemma SecondProposalSameDayRefused(rows: seq<MarriageRequest>, r: MarriageRequest, later: int)
    requires r.status == Pending && DayStart(later) == DayStart(r.createdAt)
    ensures !CanProposeToday(rows + [r], r.proposerId, later)
  {
    var n := r.createdAt;
    assert DayStart(n) <= n < DayStart(n) + DaySeconds;
    assert ProposedToday((rows + [r])[|rows|], r.proposerId, later);
  }
}
