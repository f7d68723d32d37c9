/**
 * The paged fetch of all matching documents through the search backend's
 * scroll cursor (cmds/dumpindextoexcel.js, `internals.fetchResults`).
 *
 * The backend is given as the sequence of its replies: reply 0 answers the
 * initial search, reply k > 0 answers the k-th scroll request. The source's
 * self-re-invoking callback becomes a loop over that sequence; the sequence's
 * length bounds the loop, and running out of replies before the record count
 * matches the reported total is the case in which the source waits forever.
 */
module Fetch {

  import opened Wrappers
  import opened Records

  /** The cursor lease sent with every request. */
  const ScrollLease: string := "1s"

  /** What the fetch needs from the command line; the server and port only select
      the backend and are not part of this model. */
  datatype FetchParams = FetchParams(indexName: string, reportFields: seq<string>, hostFilter: Option<string>)

  /** A call to the backend: the initial search, or a scroll to the next page. */
  datatype Request =
    | Search(index: string, scroll: string, fields: seq<string>, query: Option<string>)
    | Scroll(scrollId: string, scroll: string)

  /** A backend answer: an error, or a page of hits with the reported total and the next cursor token. */
  datatype Reply =
    | Failure(error: string)
    | Page(hits: seq<Hit>, total: nat, scrollId: string)

  /**
   * How the fetch ends, with the number of replies it consumed:
   * the records, once their count equals the reported total; the first backend
   * error, with no records; or, when the replies run out first, the records so far.
   */
  datatype FetchOutcome =
    | Delivered(items: seq<Record>, answered: nat)
    | Aborted(error: string, answered: nat)
    | Stalled(items: seq<Record>, answered: nat)

  /** The initial search: index, fields and lease, plus the query `host:<filter>`
      only when the filter is a non-empty string (JavaScript truthiness). */
  function SearchRequest(params: FetchParams): (r: Request)
    ensures r.Search? && r.index == params.indexName && r.fields == params.reportFields && r.scroll == ScrollLease
    ensures r.query.Some? <==> params.hostFilter.Some? && params.hostFilter.value != ""
    ensures r.query.Some? ==> |r.query.value| >= 5 && r.query.value[..5] == "host:" && r.query.value[5..] == params.hostFilter.value
  {
    var query := if params.hostFilter.Some? && params.hostFilter.value != ""
      then Some("host:" + params.hostFilter.value) else None;
    Search(params.indexName, ScrollLease, params.reportFields, query)
  }

  /** The records one page contributes: one projection per hit, in page order. */
  function ProjectPage(reportFields: seq<string>, hits: seq<Hit>): seq<Record>
  {
    seq(|hits|, k requires 0 <= k < |hits| => Projection(reportFields, hits[k]))
  }

  /**
   * The fetch from reply `i` on, with `items` collected so far: the
   * specification the loop of `FetchResults` is proved against.
   */
  function Drive(reportFields: seq<string>, replies: seq<Reply>, i: nat, items: seq<Record>): FetchOutcome
    requires i <= |replies|
    decreases |replies| - i
  {
    if i == |replies| then Stalled(items, i)
    else match replies[i]
      case Failure(e) => Aborted(e, i + 1)
      case Page(hits, total, _) =>
        var grown := items + ProjectPage(reportFields, hits);
        if |grown| == total then Delivered(grown, i + 1)
        else Drive(reportFields, replies, i + 1, grown)
  }

  /**
   * How a fetch can end: it waits for a further reply only after every reply
   * was a page; otherwise it ends at a reply it read, aborted at an error reply
   * or delivered at a page whose total equals the record count. Records are only
   * ever added after those already collected.
   */
  lemma {:induction false} DriveOutcome(reportFields: seq<string>, replies: seq<Reply>, i: nat, items: seq<Record>)
    requires i <= |replies|
    ensures var o := Drive(reportFields, replies, i, items);
      o.Stalled? ==> o.answered == |replies| && (forall j :: i <= j < |replies| ==> replies[j].Page?)
    ensures var o := Drive(reportFields, replies, i, items);
      !o.Stalled? ==> i < o.answered <= |replies|
    ensures var o := Drive(reportFields, replies, i, items);
      o.Aborted? ==> replies[o.answered - 1] == Failure(o.error)
    ensures var o := Drive(reportFields, replies, i, items);
      o.Delivered? ==> replies[o.answered - 1].Page? && |o.items| == replies[o.answered - 1].total
    ensures var o := Drive(reportFields, replies, i, items);
      !o.Aborted? ==> |items| <= |o.items| && o.items[..|items|] == items
    decreases |replies| - i
  {
    if i < |replies| && replies[i].Page? {
      var grown := items + ProjectPage(reportFields, replies[i].hits);
      if |grown| != replies[i].total {
        DriveContinues(reportFields, replies, i, items, grown);
        DriveOutcome(reportFields, replies, i + 1, grown);
        assert grown[..|items|] == items;
      }
    }
  }

  /**
   * The `forEach` over one page's hits: pushes one record per hit, in order,
   * after the records already collected.
   */
  method ProcessPage(reportFields: seq<string>, items: seq<Record>, hits: seq<Hit>) returns (grown: seq<Record>)
    ensures |grown| == |items| + |hits|
    ensures grown[..|items|] == items
    ensures forall k :: 0 <= k < |hits| ==> grown[|items| + k] == Projection(reportFields, hits[k])
    ensures grown == items + ProjectPage(reportFields, hits)
  {
    grown := items;
    var h := 0;
    while h < |hits|
      invariant 0 <= h <= |hits|
      invariant |grown| == |items| + h
      invariant grown[..|items|] == items
      invariant forall k :: 0 <= k < h ==> grown[|items| + k] == Projection(reportFields, hits[k])
    {
      var record := ProjectHit(reportFields, hits[h]);
      grown := grown + [record];
      h := h + 1;
    }
  }

  /**
   * Runs the fetch against the backend's `replies` and returns how it ended
   * together with every request it issued: the search first, then one scroll
   * per page whose records did not yet reach the total, carrying that page's
   * cursor token.
   */
  method FetchResults(params: FetchParams, replies: seq<Reply>) returns (outcome: FetchOutcome, requests: seq<Request>)
    ensures outcome == Drive(params.reportFields, replies, 0, [])
    ensures |requests| == if outcome.Stalled? then outcome.answered + 1 else outcome.answered
    ensures 1 <= |requests| <= |replies| + 1
    ensures requests[0] == SearchRequest(params)
    ensures forall k :: 0 <= k < |requests| - 1 ==>
      replies[k].Page? && requests[k + 1] == Scroll(replies[k].scrollId, ScrollLease)
  {
    var reportFields := params.reportFields;
    var items: seq<Record> := [];
    requests := [SearchRequest(params)];
    var i := 0;
    while i < |replies|
      invariant 0 <= i <= |replies|
      invariant Drive(reportFields, replies, 0, []) == Drive(reportFields, replies, i, items)
      invariant |requests| == i + 1 && requests[0] == SearchRequest(params)
      invariant forall k :: 0 <= k < i ==>
        replies[k].Page? && requests[k + 1] == Scroll(replies[k].scrollId, ScrollLease)
    {
      match replies[i]
      case Failure(e) =>
        outcome := Aborted(e, i + 1);
        return;
      case Page(hits, total, scrollId) =>
        items := ProcessPage(reportFields, items, hits);
        if total != |items| {
          requests := requests + [Scroll(scrollId, ScrollLease)];
        } else {
          outcome := Delivered(items, i + 1);
          return;
        }
      i := i + 1;
    }
    outcome := Stalled(items, i);
  }

  /** The records one reply contributes; an error reply contributes none. */
  function PageRecords(reportFields: seq<string>, reply: Reply): seq<Record>
  {
    if reply.Page? then ProjectPage(reportFields, reply.hits) else []
  }

  /** The records of replies `lo` .. `hi` - 1, in order. */
  function Collected(reportFields: seq<string>, replies: seq<Reply>, lo: nat, hi: nat): seq<Record>
    requires lo <= hi <= |replies|
    decreases hi - lo
  {
    if lo == hi then [] else PageRecords(reportFields, replies[lo]) + Collected(reportFields, replies, lo + 1, hi)
  }

  /** The number of hits in replies `lo` .. `hi` - 1. */
  function HitCount(replies: seq<Reply>, lo: nat, hi: nat): nat
    requires lo <= hi <= |replies|
    decreases hi - lo
  {
    if lo == hi then 0
    else (if replies[lo].Page? then |replies[lo].hits| else 0) + HitCount(replies, lo + 1, hi)
  }

  /** No hit is dropped or duplicated: a run of replies yields exactly one record per hit. */
  lemma {:induction false} CollectedLength(reportFields: seq<string>, replies: seq<Reply>, lo: nat, hi: nat)
    requires lo <= hi <= |replies|
    ensures |Collected(reportFields, replies, lo, hi)| == HitCount(replies, lo, hi)
    decreases hi - lo
  {
    if lo < hi {
      CollectedLength(reportFields, replies, lo + 1, hi);
    }
  }

  /** Page i hands over to reply i + 1 when it does not bring the count to its total. */
  lemma DriveContinues(reportFields: seq<string>, replies: seq<Reply>, i: nat, items: seq<Record>, grown: seq<Record>)
    requires i < |replies| && replies[i].Page?
    requires grown == items + ProjectPage(reportFields, replies[i].hits)
    requires |grown| != replies[i].total
    ensures Drive(reportFields, replies, i, items) == Drive(reportFields, replies, i + 1, grown)
  {
  }

  /** Page i completes the fetch when it brings the count to its total. */
  lemma DriveCompletes(reportFields: seq<string>, replies: seq<Reply>, i: nat, items: seq<Record>, grown: seq<Record>)
    requires i < |replies| && replies[i].Page?
    requires grown == items + ProjectPage(reportFields, replies[i].hits)
    requires |grown| == replies[i].total
    ensures Drive(reportFields, replies, i, items) == Delivered(grown, i + 1)
  {
  }

  /** Splitting off the first reply of a run. */
  lemma CollectedFirst(reportFields: seq<string>, replies: seq<Reply>, i: nat, k: nat)
    requires i < k <= |replies|
    ensures Collected(reportFields, replies, i, k) == PageRecords(reportFields, replies[i]) + Collected(reportFields, replies, i + 1, k)
  {
  }

  /** Moving page i's records from the run into the records collected so far. */
  lemma ShiftCollected(reportFields: seq<string>, replies: seq<Reply>, i: nat, items: seq<Record>, grown: seq<Record>, k: nat)
    requires i < k <= |replies| && replies[i].Page?
    requires grown == items + ProjectPage(reportFields, replies[i].hits)
    ensures |grown| + |Collected(reportFields, replies, i + 1, k)| == |items| + |Collected(reportFields, replies, i, k)|
    ensures grown + Collected(reportFields, replies, i + 1, k) == items + Collected(reportFields, replies, i, k)
  {
    CollectedFirst(reportFields, replies, i, k);
  }

  /**
   * Replies i .. m - 1 are pages and, counting from `items`, none of them
   * brings the number of records to its reported total.
   */
  predicate PagesMiss(reportFields: seq<string>, replies: seq<Reply>, i: nat, items: seq<Record>, m: nat)
  {
    && i <= m <= |replies|
    && (forall j :: i <= j < m ==> replies[j].Page?)
    && (forall k :: i < k <= m ==> replies[k - 1].total != |items| + |Collected(reportFields, replies, i, k)|)
  }

  /**
   * Replies i .. n - 1 are pages and, counting from `items`, the number of
   * records equals a page's reported total for the first time after page n - 1.
   */
  predicate CountFirstMatches(reportFields: seq<string>, replies: seq<Reply>, i: nat, items: seq<Record>, n: nat)
  {
    && i < n <= |replies|
    && PagesMiss(reportFields, replies, i, items, n - 1)
    && replies[n - 1].Page?
    && replies[n - 1].total == |items| + |Collected(reportFields, replies, i, n)|
  }

  /**
   * Page i of a run of misses hands the fetch over to reply i + 1, and the
   * rest of the run misses with page i's records added.
   */
  lemma MissShifts(reportFields: seq<string>, replies: seq<Reply>, i: nat, items: seq<Record>, next: nat, grown: seq<Record>, m: nat)
    requires next == i + 1 && i < m
    requires PagesMiss(reportFields, replies, i, items, m)
    requires grown == items + ProjectPage(reportFields, replies[i].hits)
    ensures Drive(reportFields, replies, i, items) == Drive(reportFields, replies, next, grown)
    ensures PagesMiss(reportFields, replies, next, grown, m)
  {
    ShiftCollected(reportFields, replies, i, items, grown, next);
    forall k | next < k <= m
      ensures replies[k - 1].total != |grown| + |Collected(reportFields, replies, next, k)|
    {
      ShiftCollected(reportFields, replies, i, items, grown, k);
    }
    DriveContinues(reportFields, replies, i, items, grown);
  }

  /** Conversely, a page that misses followed by a run of misses is a run of misses. */
  lemma MissShiftsBack(reportFields: seq<string>, replies: seq<Reply>, i: nat, items: seq<Record>, next: nat, grown: seq<Record>, m: nat)
    requires next == i + 1 && i < |replies| && replies[i].Page?
    requires grown == items + ProjectPage(reportFields, replies[i].hits)
    requires |grown| != replies[i].total
    requires PagesMiss(reportFields, replies, next, grown, m)
    ensures PagesMiss(reportFields, replies, i, items, m)
  {
    forall k | i < k <= m
      ensures replies[k - 1].total != |items| + |Collected(reportFields, replies, i, k)|
    {
      ShiftCollected(reportFields, replies, i, items, grown, k);
      if k == next {
        assert Collected(reportFields, replies, next, k) == [];
      }
    }
  }

  /**
   * When the first match comes after page i, page i hands the fetch over to
   * reply i + 1, and the first match carries over with page i's records added.
   */
  lemma PageMisses(reportFields: seq<string>, replies: seq<Reply>, i: nat, items: seq<Record>, next: nat, grown: seq<Record>, n: nat)
    requires next == i + 1 && next < n
    requires CountFirstMatches(reportFields, replies, i, items, n)
    requires grown == items + ProjectPage(reportFields, replies[i].hits)
    ensures Drive(reportFields, replies, i, items) == Drive(reportFields, replies, next, grown)
    ensures CountFirstMatches(reportFields, replies, next, grown, n)
    ensures grown + Collected(reportFields, replies, next, n) == items + Collected(reportFields, replies, i, n)
  {
    MissShifts(reportFields, replies, i, items, next, grown, n - 1);
    ShiftCollected(reportFields, replies, i, items, grown, n);
    assert replies[n - 1].total == |grown| + |Collected(reportFields, replies, next, n)|;
  }

  /** The last step of the first match: page i completes the fetch with the run's records. */
  lemma MatchAtLastPage(reportFields: seq<string>, replies: seq<Reply>, i: nat, items: seq<Record>, n: nat)
    requires n == i + 1
    requires CountFirstMatches(reportFields, replies, i, items, n)
    ensures Drive(reportFields, replies, i, items) == Delivered(items + Collected(reportFields, replies, i, n), n)
  {
    var grown := items + ProjectPage(reportFields, replies[i].hits);
    ShiftCollected(reportFields, replies, i, items, grown, n);
    DriveCompletes(reportFields, replies, i, items, grown);
  }

  /**
   * The fetch delivers after reply n - 1 when replies i .. n - 1 are pages, the
   * record count first equals the reported total after page n - 1, and it did
   * not after any earlier page; the records delivered are exactly those pages' hits.
   */
  lemma {:induction false} DeliversWhenCountMatches(reportFields: seq<string>, replies: seq<Reply>, i: nat, items: seq<Record>, n: nat)
    requires i < n <= |replies|
    requires forall j :: i <= j < n ==> replies[j].Page?
    requires forall k :: i < k < n ==> replies[k - 1].total != |items| + |Collected(reportFields, replies, i, k)|
    requires replies[n - 1].total == |items| + |Collected(reportFields, replies, i, n)|
    ensures Drive(reportFields, replies, i, items) == Delivered(items + Collected(reportFields, replies, i, n), n)
  {
    DeliversAtFirstMatch(reportFields, replies, i, items, n);
  }

  /** `DeliversWhenCountMatches`, by induction on the pages left before the match. */
  lemma {:induction false} DeliversAtFirstMatch(reportFields: seq<string>, replies: seq<Reply>, i: nat, items: seq<Record>, n: nat)
    requires CountFirstMatches(reportFields, replies, i, items, n)
    ensures Drive(reportFields, replies, i, items) == Delivered(items + Collected(reportFields, replies, i, n), n)
    decreases n - i, 1
  {
    if n == i + 1 {
      MatchAtLastPage(reportFields, replies, i, items, n);
    } else {
      DeliversAfterMiss(reportFields, replies, i, items, n);
    }
  }

  /** The inductive step: page i misses the total and the run from i + 1 delivers. */
  lemma {:induction false} DeliversAfterMiss(reportFields: seq<string>, replies: seq<Reply>, i: nat, items: seq<Record>, n: nat)
    requires i + 1 < n
    requires CountFirstMatches(reportFields, replies, i, items, n)
    ensures Drive(reportFields, replies, i, items) == Delivered(items + Collected(reportFields, replies, i, n), n)
    decreases n - i, 0
  {
    var grown := items + ProjectPage(reportFields, replies[i].hits);
    PageMisses(reportFields, replies, i, items, i + 1, grown, n);
    DeliversAtFirstMatch(reportFields, replies, i + 1, grown, n);
  }

  /**
   * Conversely, a delivery happens only in that situation: the fetch never
   * delivers before the count equals the total, and delivers exactly the hits
   * of the pages read.
   */
  lemma DeliversOnlyWhenCountMatches(reportFields: seq<string>, replies: seq<Reply>, i: nat, items: seq<Record>, result: seq<Record>, n: nat)
    requires i <= |replies|
    requires Drive(reportFields, replies, i, items) == Delivered(result, n)
    ensures i < n <= |replies|
    ensures forall j :: i <= j < n ==> replies[j].Page?
    ensures result == items + Collected(reportFields, replies, i, n)
    ensures replies[n - 1].total == |result|
    ensures forall k :: i < k < n ==> replies[k - 1].total != |items| + |Collected(reportFields, replies, i, k)|
  {
    DeliveryIsFirstMatch(reportFields, replies, i, items, result, n);
  }

  /** `DeliversOnlyWhenCountMatches`, by induction on the replies left. */
  lemma {:induction false} DeliveryIsFirstMatch(reportFields: seq<string>, replies: seq<Reply>, i: nat, items: seq<Record>, result: seq<Record>, n: nat)
    requires i <= |replies|
    requires Drive(reportFields, replies, i, items) == Delivered(result, n)
    ensures CountFirstMatches(reportFields, replies, i, items, n)
    ensures result == items + Collected(reportFields, replies, i, n)
    decreases |replies| - i
  {
    var grown := items + ProjectPage(reportFields, replies[i].hits);
    if |grown| == replies[i].total {
      DriveCompletes(reportFields, replies, i, items, grown);
      ShiftCollected(reportFields, replies, i, items, grown, i + 1);
    } else {
      DriveContinues(reportFields, replies, i, items, grown);
      DeliveryIsFirstMatch(reportFields, replies, i + 1, grown, result, n);
      PageMissedBefore(reportFields, replies, i, items, i + 1, grown, n);
    }
  }

  /**
   * The converse of `PageMisses`: a first match from reply i + 1 on, after a
   * page i that missed its total, is a first match from reply i on.
   */
  lemma PageMissedBefore(reportFields: seq<string>, replies: seq<Reply>, i: nat, items: seq<Record>, next: nat, grown: seq<Record>, n: nat)
    requires next == i + 1 && i < |replies| && replies[i].Page?
    requires grown == items + ProjectPage(reportFields, replies[i].hits)
    requires |grown| != replies[i].total
    requires CountFirstMatches(reportFields, replies, next, grown, n)
    ensures CountFirstMatches(reportFields, replies, i, items, n)
    ensures grown + Collected(reportFields, replies, next, n) == items + Collected(reportFields, replies, i, n)
  {
    MissShiftsBack(reportFields, replies, i, items, next, grown, n - 1);
    ShiftCollected(reportFields, replies, i, items, grown, n);
  }

  /**
   * An error aborts the fetch: the fetch ends in `Aborted` only at an error
   * reply, after pages none of which brought the count to its total.
   */
  lemma AbortsAtFirstError(reportFields: seq<string>, replies: seq<Reply>, i: nat, items: seq<Record>, e: string, n: nat)
    requires i <= |replies|
    requires Drive(reportFields, replies, i, items) == Aborted(e, n)
    ensures i < n <= |replies| && replies[n - 1] == Failure(e)
    ensures forall j :: i <= j < n - 1 ==> replies[j].Page?
    ensures forall k :: i < k < n ==> replies[k - 1].total != |items| + |Collected(reportFields, replies, i, k)|
  {
    AbortIsAfterMisses(reportFields, replies, i, items, e, n);
  }

  /** `AbortsAtFirstError`, by induction on the replies left. */
  lemma {:induction false} AbortIsAfterMisses(reportFields: seq<string>, replies: seq<Reply>, i: nat, items: seq<Record>, e: string, n: nat)
    requires i <= |replies|
    requires Drive(reportFields, replies, i, items) == Aborted(e, n)
    ensures i < n <= |replies| && replies[n - 1] == Failure(e)
    ensures PagesMiss(reportFields, replies, i, items, n - 1)
    decreases |replies| - i
  {
    if replies[i].Page? {
      var grown := items + ProjectPage(reportFields, replies[i].hits);
      DriveContinues(reportFields, replies, i, items, grown);
      AbortIsAfterMisses(reportFields, replies, i + 1, grown, e, n);
      MissShiftsBack(reportFields, replies, i, items, i + 1, grown, n - 1);
    }
  }

  /**
   * Conversely, an error reply that follows pages none of which brought the
   * count to its total aborts the fetch there.
   */
  lemma FirstErrorAborts(reportFields: seq<string>, replies: seq<Reply>, i: nat, items: seq<Record>, e: string, n: nat)
    requires i < n <= |replies| && replies[n - 1] == Failure(e)
    requires forall j :: i <= j < n - 1 ==> replies[j].Page?
    requires forall k :: i < k < n ==> replies[k - 1].total != |items| + |Collected(reportFields, replies, i, k)|
    ensures Drive(reportFields, replies, i, items) == Aborted(e, n)
  {
    ErrorAfterMissesAborts(reportFields, replies, i, items, e, n);
  }

  /** `FirstErrorAborts`, by induction on the pages before the error. */
  lemma {:induction false} ErrorAfterMissesAborts(reportFields: seq<string>, replies: seq<Reply>, i: nat, items: seq<Record>, e: string, n: nat)
    requires i < n <= |replies| && replies[n - 1] == Failure(e)
    requires PagesMiss(reportFields, replies, i, items, n - 1)
    ensures Drive(reportFields, replies, i, items) == Aborted(e, n)
    decreases n - i
  {
    if i < n - 1 {
      var grown := items + ProjectPage(reportFields, replies[i].hits);
      MissShifts(reportFields, replies, i, items, i + 1, grown, n - 1);
      ErrorAfterMissesAborts(reportFields, replies, i + 1, grown, e, n);
    }
  }

  /** A first page with no hits and a total of 0 ends the fetch at once with no records. */
  lemma EmptyIndexDeliversNothing(reportFields: seq<string>, replies: seq<Reply>, scrollId: string)
    requires |replies| >= 1 && replies[0] == Page([], 0, scrollId)
    ensures Drive(reportFields, replies, 0, []) == Delivered([], 1)
  {
  }

  /**
   * The source's termination test is strict equality: once the records outnumber
   * every total the backend reports, the fetch never delivers and keeps scrolling.
   */
  lemma {:induction false} OvershotTotalNeverDelivers(reportFields: seq<string>, replies: seq<Reply>, i: nat, items: seq<Record>)
    requires i <= |replies|
    requires forall j :: i <= j < |replies| && replies[j].Page? ==> replies[j].total < |items|
    ensures !Drive(reportFields, replies, i, items).Delivered?
    decreases |replies| - i
  {
    if i < |replies| && replies[i].Page? {
      var grown := items + ProjectPage(reportFields, replies[i].hits);
      OvershotTotalNeverDelivers(reportFields, replies, i + 1, grown);
    }
  }

}
