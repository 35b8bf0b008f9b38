/** The decision logic inside the chat command handlers of `__init__.py`,
    lifted out of the handlers: the hour window, @-mention collection, the
    choice of the request to accept and the rejection of the others, the
    merge of baby records per couple, and paging. Sending replies is not
    modelled; where a reply decides the outcome, the outcome names it. */
module Commands {
  import opened Wrappers
  import opened Text
  import opened Models
  import Ledger

  // ---------------------------------------------------------------------------
  // Hour window (`check_time_restriction`)
  // ---------------------------------------------------------------------------

  /** The window test: a plain interval when start <= end, one that wraps
      past midnight otherwise. */
  predicate InAllowedHours(startHour: int, endHour: int, hour: int)
  {
    if startHour <= endHour then startHour <= hour < endHour
    else (startHour <= hour <= 23) || (0 <= hour < endHour)
  }

  /** Hours from `from` forward to `to` on a 24-hour dial. */
  function ClockDistance(from: int, to: int): int
  {
    (to - from) % 24
  }

  /** On a 24-hour dial both branches of the test say the same thing: the
      hour lies in the half-open arc that starts at `startHour` and stops
      just before `endHour`. */
  lemma WindowIsArc(startHour: int, endHour: int, hour: int)
    requires 0 <= startHour < 24 && 0 <= endHour < 24 && 0 <= hour < 24
    ensures InAllowedHours(startHour, endHour, hour) <==> ClockDistance(startHour, hour) < ClockDistance(startHour, endHour)
  {
    if startHour <= endHour {
      assert ClockDistance(startHour, endHour) == endHour - startHour;
      if hour >= startHour {
        assert ClockDistance(startHour, hour) == hour - startHour;
      } else {
        assert ClockDistance(startHour, hour) == hour - startHour + 24;
      }
    } else {
      assert ClockDistance(startHour, endHour) == endHour - startHour + 24;
      if hour >= startHour {
        assert ClockDistance(startHour, hour) == hour - startHour;
      } else {
        assert ClockDistance(startHour, hour) == hour - startHour + 24;
      }
    }
  }

  /** What `check_time_restriction` answers. The random test against the
      bypass chance is the parameter `bypass`. */
  datatype TimeVerdict =
    | InWindow      // (True, None)
    | Bypassed      // (True, "")
    | OutOfWindow   // (False, one of the tips)

  function CheckTimeRestriction(startHour: int, endHour: int, hour: int, bypass: bool): (v: TimeVerdict)
    ensures v == InWindow <==> InAllowedHours(startHour, endHour, hour)
    ensures v == Bypassed <==> !InAllowedHours(startHour, endHour, hour) && bypass
    ensures v == OutOfWindow <==> !InAllowedHours(startHour, endHour, hour) && !bypass
  {
    if InAllowedHours(startHour, endHour, hour) then InWindow
    else if bypass then Bypassed
    else OutOfWindow
  }

  /** With the handler's window of 21 to 5, exactly the hours 21..23 and
      0..4 are allowed without the bypass. */
  lemma NightWindow(hour: int)
    requires 0 <= hour < 24
    ensures CheckTimeRestriction(21, 5, hour, false) != OutOfWindow <==> hour >= 21 || hour < 5
  {
    WindowIsArc(21, 5, hour);
  }

  // ---------------------------------------------------------------------------
  // @-mentions
  // ---------------------------------------------------------------------------

  /** A message segment: its type and, for mentions, the `qq` field. */
  datatype Segment = Segment(kind: string, qq: Option<string>)

  /** A mention the handlers accept: type `at`, `qq` present, non-empty and
      not `all`. */
  predicate IsMention(seg: Segment)
  {
    seg.kind == "at" && seg.qq.Some? && seg.qq.value != "" && seg.qq.value != "all"
  }

  /** The accepted mentions' ids, in message order. */
  function Mentions(segments: seq<Segment>): (ids: seq<UserId>)
    ensures |ids| <= |segments|
    ensures forall t :: 0 <= t < |ids| ==> ids[t] != "" && ids[t] != "all"
  {
    if segments == [] then []
    else
      var last := segments[|segments| - 1];
      Mentions(segments[..|segments| - 1]) + (if IsMention(last) then [last.qq.value] else [])
  }

  /** The collection loop of `handle_marry` and `handle_accept`. */
  method CollectAtTargets(segments: seq<Segment>) returns (targets: seq<UserId>)
    ensures targets == Mentions(segments)
  {
    targets := [];
    var i := 0;
    while i < |segments|
      invariant 0 <= i <= |segments|
      invariant targets == Mentions(segments[..i])
    {
      assert segments[..i + 1][..i] == segments[..i];
      var seg := segments[i];
      if seg.kind == "at" {
        var qq := seg.qq;
        if qq.Some? && qq.value != "" && qq.value != "all" {
          targets := targets + [qq.value];
        }
      }
      i := i + 1;
    }
    assert segments[..i] == segments;
  }

  /** Every collected id is a real mention: non-empty and not `all`. */
  lemma {:induction false} MentionsSound(segments: seq<Segment>)
    ensures forall t :: 0 <= t < |Mentions(segments)| ==>
      Mentions(segments)[t] != "" && Mentions(segments)[t] != "all"
      && exists k :: 0 <= k < |segments| && IsMention(segments[k]) && segments[k].qq.value == Mentions(segments)[t]
  {
    if segments != [] {
      var n := |segments| - 1;
      MentionsSound(segments[..n]);
      forall t | 0 <= t < |Mentions(segments)|
        ensures exists k :: 0 <= k < |segments| && IsMention(segments[k]) && segments[k].qq.value == Mentions(segments)[t]
      {
        if t < |Mentions(segments[..n])| {
          var k :| 0 <= k < n && IsMention(segments[..n][k]) && segments[..n][k].qq.value == Mentions(segments[..n])[t];
          assert segments[k] == segments[..n][k];
        } else {
          assert IsMention(segments[n]);
        }
      }
    }
  }

  /** No accepted mention is dropped. */
  lemma {:induction false} MentionsComplete(segments: seq<Segment>)
    ensures forall k :: 0 <= k < |segments| && IsMention(segments[k]) ==> segments[k].qq.value in Mentions(segments)
  {
    if segments != [] {
      var n := |segments| - 1;
      MentionsComplete(segments[..n]);
      assert forall k :: 0 <= k < n ==> segments[..n][k] == segments[k];
    }
  }

  /** Collection keeps message order: the mentions of two pieces of a
      message are the mentions of the first followed by those of the
      second. */
  lemma {:induction false} MentionsAppend(a: seq<Segment>, b: seq<Segment>)
    ensures Mentions(a + b) == Mentions(a) + Mentions(b)
  {
    if b != [] {
      var n := |b| - 1;
      MentionsAppend(a, b[..n]);
      assert (a + b)[..|a + b| - 1] == a + b[..n];
    } else {
      assert a + b == a;
    }
  }

  /** Why `handle_marry` refuses. */
  datatype ProposalError = NoTarget | TooManyTargets | SelfProposal

  /** `handle_marry`'s checks on the collected mentions. */
  function ProposalTarget(targets: seq<UserId>, proposerId: UserId): (r: Result<UserId, ProposalError>)
    ensures r.Success? <==> |targets| == 1 && targets[0] != proposerId
    ensures r.Success? ==> r.value == targets[0]
    ensures r == Failure(NoTarget) <==> targets == []
    ensures r == Failure(TooManyTargets) <==> |targets| > 1
  {
    if targets == [] then Failure(NoTarget)
    else if |targets| > 1 then Failure(TooManyTargets)
    else if targets[0] == proposerId then Failure(SelfProposal)
    else Success(targets[0])
  }

  /** A proposal goes out only to one real, mentioned person other than the
      proposer. */
  lemma ProposalTargetIsMention(segments: seq<Segment>, proposerId: UserId)
    requires ProposalTarget(Mentions(segments), proposerId).Success?
    ensures var t := ProposalTarget(Mentions(segments), proposerId).value;
      t != proposerId && t != "" && t != "all"
      && exists k :: 0 <= k < |segments| && IsMention(segments[k]) && segments[k].qq.value == t
  {
    MentionsSound(segments);
  }

  // ---------------------------------------------------------------------------
  // Accepting (`handle_accept`)
  // ---------------------------------------------------------------------------

  datatype Selection = NoMatch | Selected(index: nat)

  /** Which pending request `handle_accept` accepts: with a mention, the
      first one from that proposer; without, the first one. */
  method SelectRequest(pending: seq<MarriageRequest>, targets: seq<UserId>) returns (sel: Selection)
    requires pending != []
    ensures sel.Selected? ==> sel.index < |pending|
    ensures targets == [] ==> sel == Selected(0)
    ensures targets != [] && sel.Selected? ==>
      pending[sel.index].proposerId == targets[0]
      && forall j :: 0 <= j < sel.index ==> pending[j].proposerId != targets[0]
    ensures sel == NoMatch <==> targets != [] && forall j :: 0 <= j < |pending| ==> pending[j].proposerId != targets[0]
  {
    if targets == [] {
      return Selected(0);
    }
    var targetId := targets[0];
    var i := 0;
    while i < |pending|
      invariant 0 <= i <= |pending|
      invariant forall j :: 0 <= j < i ==> pending[j].proposerId != targetId
    {
      if pending[i].proposerId == targetId {
        return Selected(i);
      }
      i := i + 1;
    }
    sel := NoMatch;
  }

  /** The ids of the pending requests other than the selected one, in list
      order. */
  function Others(pending: seq<MarriageRequest>, selectedId: string): (ids: seq<string>)
    ensures |ids| <= |pending|
    ensures forall t :: 0 <= t < |ids| ==> ids[t] != selectedId
  {
    if pending == [] then []
    else
      var last := pending[|pending| - 1];
      Others(pending[..|pending| - 1], selectedId) + (if last.requestId != selectedId then [last.requestId] else [])
  }

  /** Every id skipped over is the id of a pending request. */
  lemma {:induction false} OthersFromPending(pending: seq<MarriageRequest>, selectedId: string, id: string)
    requires id in Others(pending, selectedId)
    ensures exists k :: 0 <= k < |pending| && pending[k].requestId == id
  {
    var n := |pending| - 1;
    if id in Others(pending[..n], selectedId) {
      OthersFromPending(pending[..n], selectedId, id);
      var k :| 0 <= k < n && pending[..n][k].requestId == id;
      assert pending[k] == pending[..n][k];
    } else {
      assert pending[n].requestId == id;
    }
  }

  /** Every pending request other than the selected one is skipped over. */
  lemma {:induction false} OthersComplete(pending: seq<MarriageRequest>, selectedId: string, k: nat)
    requires k < |pending| && pending[k].requestId != selectedId
    ensures pending[k].requestId in Others(pending, selectedId)
  {
    var n := |pending| - 1;
    if k < n {
      assert pending[..n][k] == pending[k];
      OthersComplete(pending[..n], selectedId, k);
    }
  }

  /** With distinct ids and the selected request among them, every request
      but one is rejected: `reject_count == len(pending_requests) - 1`. */
  lemma {:induction false} OthersCount(pending: seq<MarriageRequest>, selected: nat)
    requires selected < |pending|
    requires UniqueRequestIds(pending)
    ensures |Others(pending, pending[selected].requestId)| == |pending| - 1
  {
    var n := |pending| - 1;
    var id := pending[selected].requestId;
    if selected == n {
      NoneOthers(pending[..n], id);
    } else {
      assert pending[..n][selected] == pending[selected];
      OthersCount(pending[..n], selected);
      assert pending[n].requestId != id;
    }
  }

  /** When the selected id is not in the list, nothing is skipped. */
  lemma {:induction false} NoneOthers(pending: seq<MarriageRequest>, selectedId: string)
    requires forall k :: 0 <= k < |pending| ==> pending[k].requestId != selectedId
    ensures |Others(pending, selectedId)| == |pending|
  {
    if pending != [] {
      var n := |pending| - 1;
      assert forall k :: 0 <= k < n ==> pending[..n][k] == pending[k];
      NoneOthers(pending[..n], selectedId);
    }
  }

  /** `reject_marriage_request` applied to each id in turn. */
  function RejectEach(rows: seq<MarriageRequest>, ids: seq<string>): seq<MarriageRequest>
  {
    if ids == [] then rows
    else Ledger.UpdateStatus(RejectEach(rows, ids[..|ids| - 1]), ids[|ids| - 1], true, Rejected)
  }

  /** The effect of rejecting a list of ids, row by row: a row whose id is
      listed turns rejected if it was pending and is otherwise left alone; a
      row whose id is not listed is untouched. */
  lemma {:induction false} RejectEachEffect(rows: seq<MarriageRequest>, ids: seq<string>)
    ensures |RejectEach(rows, ids)| == |rows|
    ensures forall k :: 0 <= k < |rows| ==>
      RejectEach(rows, ids)[k] == if rows[k].requestId in ids && rows[k].status == Pending then rows[k].(status := Rejected) else rows[k]
  {
    if ids != [] {
      var n := |ids| - 1;
      RejectEachEffect(rows, ids[..n]);
      forall k | 0 <= k < |rows|
        ensures RejectEach(rows, ids)[k] == if rows[k].requestId in ids && rows[k].status == Pending then rows[k].(status := Rejected) else rows[k]
      {
        assert rows[k].requestId in ids <==> rows[k].requestId in ids[..n] || rows[k].requestId == ids[n] by {
          assert ids == ids[..n] + [ids[n]];
        }
      }
    }
  }

  /** The loop of `handle_accept` that rejects every pending request but the
      selected one, counting them. */
  method RejectOthers(ledger: Ledger.MarriageManager, pending: seq<MarriageRequest>, selectedId: string) returns (rejectCount: nat)
    requires ledger.Valid()
    modifies ledger
    ensures ledger.Valid()
    ensures ledger.requests == RejectEach(old(ledger.requests), Others(pending, selectedId))
    ensures ledger.marriages == old(ledger.marriages) && ledger.babies == old(ledger.babies)
    ensures rejectCount == |Others(pending, selectedId)|
  {
    rejectCount := 0;
    var i := 0;
    while i < |pending|
      invariant 0 <= i <= |pending|
      invariant ledger.Valid()
      invariant ledger.requests == RejectEach(old(ledger.requests), Others(pending[..i], selectedId))
      invariant ledger.marriages == old(ledger.marriages) && ledger.babies == old(ledger.babies)
      invariant rejectCount == |Others(pending[..i], selectedId)|
    {
      assert pending[..i + 1][..i] == pending[..i];
      var request := pending[i];
      ghost var ids := Others(pending[..i], selectedId);
      ghost var before := ledger.requests;
      if request.requestId != selectedId {
        assert Others(pending[..i + 1], selectedId) == ids + [request.requestId];
        assert (ids + [request.requestId])[..|ids|] == ids;
        var _ := ledger.RejectMarriageRequest(request.requestId);
        assert ledger.requests == Ledger.UpdateStatus(before, request.requestId, true, Rejected);
        rejectCount := rejectCount + 1;
      } else {
        assert Others(pending[..i + 1], selectedId) == ids;
      }
      i := i + 1;
    }
    assert pending[..i] == pending;
  }

  /** Rejecting the others leaves the selected request pending. */
  lemma SelectedSurvives(rows: seq<MarriageRequest>, ids: seq<string>, k: nat)
    requires k < |rows| && rows[k].requestId !in ids
    ensures k < |RejectEach(rows, ids)| && RejectEach(rows, ids)[k] == rows[k]
  {
    RejectEachEffect(rows, ids);
  }

  /** How `handle_accept` ends. */
  datatype AcceptOutcome =
    | NothingPending                   // returns without a reply
    | NoMatchingRequest                // the mentioned proposer has no pending request
    | Wed(proposerName: string, rejectCount: nat)
    | AcceptFailed                     // the accept step failed or raised

  /** The request table once `handle_accept` has settled the listed
      requests: the chosen one accepted (when `accepted`) or left as it was,
      every other listed one rejected, every row not listed as it was. */
  ghost predicate Settled(before: seq<MarriageRequest>, after: seq<MarriageRequest>, listed: seq<MarriageRequest>,
                          chosenId: string, accepted: bool)
  {
    && |after| == |before|
    && forall k :: 0 <= k < |before| ==>
         after[k] == if before[k].requestId == chosenId then (if accepted then before[k].(status := Accepted) else before[k])
                     else if before[k] in listed then before[k].(status := Rejected)
                     else before[k]
  }

  /** Rejecting the others of a list of pending rows settles the list, the
      chosen row still untouched. */
  lemma RejectListed(before: seq<MarriageRequest>, listed: seq<MarriageRequest>, chosenId: string)
    requires UniqueRequestIds(before)
    requires forall x :: 0 <= x < |listed| ==> listed[x] in before && listed[x].status == Pending
    ensures Settled(before, RejectEach(before, Others(listed, chosenId)), listed, chosenId, false)
  {
    var ids := Others(listed, chosenId);
    RejectEachEffect(before, ids);
    forall k | 0 <= k < |before|
      ensures RejectEach(before, ids)[k] ==
        if before[k].requestId == chosenId then before[k]
        else if before[k] in listed then before[k].(status := Rejected)
        else before[k]
    {
      var id := before[k].requestId;
      if id in ids {
        OthersFromPending(listed, chosenId, id);
        var x :| 0 <= x < |listed| && listed[x].requestId == id;
        var a :| 0 <= a < |before| && before[a] == listed[x];
        assert a == k;
      } else if id != chosenId && before[k] in listed {
        var x :| 0 <= x < |listed| && listed[x] == before[k];
        OthersComplete(listed, chosenId, x);
        assert false;
      }
    }
  }

  /** Accepting the chosen row after the others were rejected completes the
      settlement. */
  lemma AcceptListed(before: seq<MarriageRequest>, rejected: seq<MarriageRequest>, listed: seq<MarriageRequest>, k0: nat)
    requires UniqueRequestIds(before) && k0 < |before|
    requires Settled(before, rejected, listed, before[k0].requestId, false)
    ensures Settled(before, rejected[k0 := rejected[k0].(status := Accepted)], listed, before[k0].requestId, true)
  {
  }

  /** `handle_accept`: fetch the caller's pending requests, choose one,
      reject the rest, accept the chosen one. `listed` is the list
      `get_pending_requests` returned and `chosen` the position in it of the
      request picked. */
  method HandleAccept(ledger: Ledger.MarriageManager, userId: UserId, groupId: string, segments: seq<Segment>, now: int)
    returns (outcome: AcceptOutcome, ghost listed: seq<MarriageRequest>, ghost chosen: nat)
    requires ledger.Valid()
    modifies ledger
    ensures ledger.Valid()
    ensures ledger.babies == old(ledger.babies)
    ensures Ledger.PendingListing(old(ledger.requests), userId, groupId, listed)
    ensures outcome == NothingPending <==> listed == []
    ensures outcome == NothingPending ==>
      ledger.requests == old(ledger.requests) && ledger.marriages == old(ledger.marriages)
      && forall k :: 0 <= k < |ledger.requests| ==> !Ledger.IsPendingFor(ledger.requests[k], userId, groupId)
    ensures outcome == NoMatchingRequest <==>
      listed != [] && Mentions(segments) != [] && forall j :: 0 <= j < |listed| ==> listed[j].proposerId != Mentions(segments)[0]
    ensures outcome == NoMatchingRequest ==>
      ledger.requests == old(ledger.requests) && ledger.marriages == old(ledger.marriages)
    ensures outcome.Wed? || outcome.AcceptFailed? ==>
      && chosen < |listed|
      && (Mentions(segments) != [] ==> listed[chosen].proposerId == Mentions(segments)[0])
      && (Mentions(segments) == [] ==> chosen == 0)
      && (Mentions(segments) == [] ==>
            forall k :: 0 <= k < |old(ledger.requests)| && Ledger.IsPendingFor(old(ledger.requests)[k], userId, groupId)
              ==> old(ledger.requests)[k].createdAt <= listed[chosen].createdAt)
    ensures outcome.Wed? ==>
      && outcome.proposerName == listed[chosen].proposerName
      && outcome.rejectCount == |listed| - 1
      && Settled(old(ledger.requests), ledger.requests, listed, listed[chosen].requestId, true)
      && ledger.marriages == old(ledger.marriages) + [Ledger.MarriageFrom(listed[chosen], now)]
    ensures outcome.AcceptFailed? ==>
      && Ledger.HasMarriageId(old(ledger.marriages), Ledger.MarriageFrom(listed[chosen], now).marriageId)
      && Settled(old(ledger.requests), ledger.requests, listed, listed[chosen].requestId, false)
      && ledger.marriages == old(ledger.marriages)
  {
    var pending := ledger.GetPendingRequests(userId, groupId);
    listed, chosen := pending, 0;
    if pending == [] {
      forall k | 0 <= k < |ledger.requests| ensures !Ledger.IsPendingFor(ledger.requests[k], userId, groupId) {
        if Ledger.IsPendingFor(ledger.requests[k], userId, groupId) {
          assert false;
        }
      }
      return NothingPending, listed, chosen;
    }
    var targets := CollectAtTargets(segments);
    var sel := SelectRequest(pending, targets);
    if sel.NoMatch? {
      return NoMatchingRequest, listed, chosen;
    }
    chosen := sel.index;
    if targets == [] {
      Ledger.ListingHeadNewest(ledger.requests, userId, groupId, pending);
    }
    var rejectCount, accepted := SettleChosen(ledger, userId, groupId, pending, sel.index, now);
    if !accepted {
      return AcceptFailed, listed, chosen;
    }
    outcome := Wed(pending[sel.index].proposerName, rejectCount);
  }

  /** The two steps of `handle_accept` after the choice: reject every other
      listed request, counting them, then accept the chosen one; `accepted`
      is false when the accept step fails. */
  method SettleChosen(ledger: Ledger.MarriageManager, userId: UserId, groupId: string,
                      listed: seq<MarriageRequest>, chosen: nat, now: int)
    returns (rejectCount: nat, accepted: bool)
    requires ledger.Valid() && Ledger.PendingListing(ledger.requests, userId, groupId, listed) && chosen < |listed|
    modifies ledger
    ensures ledger.Valid()
    ensures ledger.babies == old(ledger.babies)
    ensures rejectCount == |listed| - 1
    ensures accepted <==> !Ledger.HasMarriageId(old(ledger.marriages), Ledger.MarriageFrom(listed[chosen], now).marriageId)
    ensures accepted ==>
      Settled(old(ledger.requests), ledger.requests, listed, listed[chosen].requestId, true)
      && ledger.marriages == old(ledger.marriages) + [Ledger.MarriageFrom(listed[chosen], now)]
    ensures !accepted ==>
      Settled(old(ledger.requests), ledger.requests, listed, listed[chosen].requestId, false)
      && ledger.marriages == old(ledger.marriages)
  {
    var selected := listed[chosen];
    assert selected in ledger.requests && Ledger.IsPendingFor(selected, userId, groupId);
    ghost var k0 :| 0 <= k0 < |ledger.requests| && ledger.requests[k0] == selected;
    ghost var before := ledger.requests;
    Ledger.ListingIdsUnique(before, userId, groupId, listed);
    OthersCount(listed, chosen);
    RejectListed(before, listed, selected.requestId);
    rejectCount := RejectOthers(ledger, listed, selected.requestId);
    SelectedSurvives(before, Others(listed, selected.requestId), k0);
    Ledger.PendingIdLocates(ledger.requests, k0);
    ghost var rejected := ledger.requests;
    var res := ledger.AcceptMarriageRequest(selected.requestId, now);
    accepted := res == Success(true);
    if accepted {
      AcceptListed(before, rejected, listed, k0);
    }
  }

  // ---------------------------------------------------------------------------
  // The wait shown by `handle_have_baby`
  // ---------------------------------------------------------------------------

  /** `max(1, int(remaining_time / 60))`: whole minutes, truncated toward
      zero as `int()` does, and never less than one. */
  function RemainingMinutes(remainingSeconds: int): (minutes: int)
    ensures minutes >= 1
    ensures remainingSeconds >= 60 ==> minutes * 60 <= remainingSeconds < (minutes + 1) * 60
    ensures remainingSeconds < 120 ==> minutes == 1
  {
    var truncated := if remainingSeconds >= 0 then remainingSeconds / 60 else -((-remainingSeconds) / 60);
    if truncated < 1 then 1 else truncated
  }
}
