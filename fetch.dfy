/** The paginated record fetch of the harvesting script, against an abstract
    query service.

    The service is a total function from (category, filter, limit, start) to
    a reply. Every request the loop makes is at a fresh start offset, so a
    function of the request's arguments is enough to describe any run. */
module Fetch {

  /** Number of records asked for on every request. */
  const LIMIT: nat := 1000

  /** The taxonomy identifier of Mycobacterium tuberculosis. */
  const TAXON_ID: string := "1773"

  /** The filter expression sent with every query. */
  const FILTER: string := "eq(taxon_id," + TAXON_ID + ")"

  /** What one call of the query service gives back.
      Absent: the result, or its `items`, is null or undefined.
      Page: a result carrying an array of items (possibly empty).
      Thrown: the call failed with an error. */
  datatype Reply<R> = Absent | Page(items: seq<R>) | Thrown

  /** The query service: (category, filter, limit, start) to a reply. */
  type QueryService<R> = (string, string, nat, nat) -> Reply<R>

  /** Start offset of the k-th request (counting from 0). */
  function Offset(k: nat): nat {
    k * LIMIT
  }

  /** The start offsets of the first n requests: 0, LIMIT, 2 * LIMIT, ... */
  function Offsets(n: nat): (s: seq<nat>)
    ensures |s| == n
    ensures forall j :: 0 <= j < n ==> s[j] == Offset(j)
  {
    if n == 0 then [] else Offsets(n - 1) + [Offset(n - 1)]
  }

  /** The reply to the k-th request for a category. */
  function ReplyAt<R>(query: QueryService<R>, dataType: string, k: nat): Reply<R> {
    query(dataType, FILTER, LIMIT, Offset(k))
  }

  /** After this reply the loop issues another request: a page that is
      non-empty and not shorter than the limit. */
  predicate Continues<R>(r: Reply<R>) {
    r.Page? && |r.items| >= LIMIT
  }

  /** The records a reply adds to the accumulator. */
  function Appended<R>(r: Reply<R>): seq<R> {
    if r.Page? then r.items else []
  }

  /** The accumulator after the first n replies for a category. */
  function Gathered<R>(query: QueryService<R>, dataType: string, n: nat): seq<R> {
    if n == 0 then []
    else Gathered(query, dataType, n - 1) + Appended(ReplyAt(query, dataType, n - 1))
  }

  /** A run of n requests: every reply before the last asks for another
      request, the last one does not. */
  predicate IsRun<R>(query: QueryService<R>, dataType: string, n: nat) {
    && n >= 1
    && (forall j: nat :: j < n - 1 ==> Continues(ReplyAt(query, dataType, j)))
    && !Continues(ReplyAt(query, dataType, n - 1))
  }

  /** Some request for the category gets a reply that ends the loop. */
  ghost predicate EventuallyShort<R>(query: QueryService<R>, dataType: string) {
    exists k: nat :: !Continues(ReplyAt(query, dataType, k))
  }

  /** The pagination loop. Returns the accumulated records and the start
      offsets of the requests it made, in order. A failed call ends the loop
      and the records accumulated before it are returned. */
  method FetchAllRecords<R>(query: QueryService<R>, dataType: string)
    returns (allItems: seq<R>, starts: seq<nat>)
    requires EventuallyShort(query, dataType)
    ensures IsRun(query, dataType, |starts|)
    ensures starts[0] == 0
    ensures forall j :: 0 < j < |starts| ==> starts[j] == starts[j - 1] + LIMIT
    ensures forall j :: 0 <= j < |starts| ==> starts[j] == Offset(j)
    ensures allItems == Gathered(query, dataType, |starts|)
  {
    ghost var stop: nat :| !Continues(ReplyAt(query, dataType, stop));
    allItems := [];
    starts := [];
    var start: nat := 0;
    while true
      invariant start == Offset(|starts|)
      invariant |starts| <= stop
      invariant forall j :: 0 <= j < |starts| ==> starts[j] == Offset(j)
      invariant forall j: nat :: j < |starts| ==> Continues(ReplyAt(query, dataType, j))
      invariant allItems == Gathered(query, dataType, |starts|)
      decreases stop - |starts|
    {
      var result := query(dataType, FILTER, LIMIT, start);
      ghost var n := |starts|;
      assert result == ReplyAt(query, dataType, n);
      RunStep(query, dataType, n);
      starts := starts + [start];
      if result.Thrown? {
        // the catch block: the accumulator is returned as it stands
        break;
      }
      if result.Page? && |result.items| > 0 {
        allItems := allItems + result.items;
        assert allItems == Gathered(query, dataType, n + 1);
        start := start + LIMIT;
        if |result.items| < LIMIT {
          break;
        }
      } else {
        break;
      }
    }
  }

  /** One more reply after n replies that all asked for another request. */
  lemma RunStep<R>(query: QueryService<R>, dataType: string, n: nat)
    requires forall j: nat :: j < n ==> Continues(ReplyAt(query, dataType, j))
    ensures Gathered(query, dataType, n + 1) == Gathered(query, dataType, n) + Appended(ReplyAt(query, dataType, n))
    ensures !Continues(ReplyAt(query, dataType, n)) ==> IsRun(query, dataType, n + 1)
  {
  }

  /** The number of requests the loop makes for a category. */
  ghost function RequestCount<R>(query: QueryService<R>, dataType: string): (n: nat)
    requires EventuallyShort(query, dataType)
    ensures IsRun(query, dataType, n)
  {
    var k: nat :| !Continues(ReplyAt(query, dataType, k));
    RunWithin(query, dataType, k);
    var n: nat :| IsRun(query, dataType, n);
    n
  }

  /** The records the loop returns for a category. */
  ghost function Harvest<R>(query: QueryService<R>, dataType: string): seq<R>
    requires EventuallyShort(query, dataType)
  {
    Gathered(query, dataType, RequestCount(query, dataType))
  }

  /** A reply that ends the loop at request k bounds the run by k + 1 requests. */
  lemma {:induction false} RunWithin<R>(query: QueryService<R>, dataType: string, k: nat)
    requires !Continues(ReplyAt(query, dataType, k))
    ensures exists n: nat :: n <= k + 1 && IsRun(query, dataType, n)
    decreases k
  {
    if forall j: nat :: j < k ==> Continues(ReplyAt(query, dataType, j)) {
      assert IsRun(query, dataType, k + 1);
    } else {
      var j: nat :| j < k && !Continues(ReplyAt(query, dataType, j));
      RunWithin(query, dataType, j);
    }
  }

  /** The number of requests is determined by the replies. */
  lemma RunUnique<R>(query: QueryService<R>, dataType: string, n: nat, m: nat)
    requires IsRun(query, dataType, n) && IsRun(query, dataType, m)
    ensures n == m
  {
  }

  /** The loop's outcome, as the method reports it, is RequestCount/Harvest. */
  lemma RunIsHarvest<R>(query: QueryService<R>, dataType: string, n: nat)
    requires EventuallyShort(query, dataType) && IsRun(query, dataType, n)
    ensures n == RequestCount(query, dataType)
    ensures Gathered(query, dataType, n) == Harvest(query, dataType)
  {
    RunUnique(query, dataType, n, RequestCount(query, dataType));
  }

  /** A page with LIMIT or more items is appended and is never the last
      reply; a page with 1 to LIMIT - 1 items is appended and is the last. */
  lemma PageDecidesNextRequest<R>(query: QueryService<R>, dataType: string, n: nat, j: nat)
    requires IsRun(query, dataType, n) && j < n
    requires ReplyAt(query, dataType, j).Page? && |ReplyAt(query, dataType, j).items| > 0
    ensures j < n - 1 <==> |ReplyAt(query, dataType, j).items| >= LIMIT
    ensures Gathered(query, dataType, j + 1)
         == Gathered(query, dataType, j) + ReplyAt(query, dataType, j).items
  {
  }

  /** A missing result, a page without items or a failed call ends the run
      and adds nothing to the accumulator. */
  lemma StopAppendsNothing<R>(query: QueryService<R>, dataType: string, n: nat, j: nat)
    requires IsRun(query, dataType, n) && j < n
    requires ReplyAt(query, dataType, j) in {Absent, Page([]), Thrown}
    ensures j == n - 1
    ensures Gathered(query, dataType, n) == Gathered(query, dataType, n - 1)
  {
  }

  /** The accumulator only grows at its end. */
  lemma {:induction false} GatheredPrefix<R>(query: QueryService<R>, dataType: string, m: nat, n: nat)
    requires m <= n
    ensures Gathered(query, dataType, m) <= Gathered(query, dataType, n)
    decreases n
  {
    if m < n {
      GatheredPrefix(query, dataType, m, n - 1);
    }
  }

  /** The result is the in-order concatenation of the replies: the records of
      reply j sit, unchanged, right after those of replies 0 .. j - 1. */
  lemma PageInPlace<R>(query: QueryService<R>, dataType: string, n: nat, j: nat)
    requires j < n
    ensures |Gathered(query, dataType, j + 1)| <= |Gathered(query, dataType, n)|
    ensures Gathered(query, dataType, n)[|Gathered(query, dataType, j)|..|Gathered(query, dataType, j + 1)|]
         == Appended(ReplyAt(query, dataType, j))
  {
    GatheredPrefix(query, dataType, j + 1, n);
    var all := Gathered(query, dataType, n);
    var before := Gathered(query, dataType, j);
    var upTo := Gathered(query, dataType, j + 1);
    assert upTo == before + Appended(ReplyAt(query, dataType, j));
    assert all[..|upTo|] == upTo;
    assert all[|before|..|upTo|] == upTo[|before|..];
  }

  /** Two services that agree on the first k replies give the same accumulator after k replies. */
  lemma {:induction false} GatheredAgree<R>(query: QueryService<R>, other: QueryService<R>, dataType: string, k: nat)
    requires forall j: nat :: j < k ==> ReplyAt(query, dataType, j) == ReplyAt(other, dataType, j)
    ensures Gathered(query, dataType, k) == Gathered(other, dataType, k)
    decreases k
  {
    if k > 0 {
      GatheredAgree(query, other, dataType, k - 1);
    }
  }

  /** When the call at the last request fails, the loop returns what it had
      gathered: everything from the earlier pages. Compared with a service
      that answers the same up to that request, no further request was made
      and the result is a prefix of that service's result. */
  lemma FailureKeepsPrefix<R>(query: QueryService<R>, other: QueryService<R>, dataType: string, n: nat, m: nat)
    requires IsRun(query, dataType, n) && ReplyAt(query, dataType, n - 1).Thrown?
    requires forall j: nat :: j < n - 1 ==> ReplyAt(other, dataType, j) == ReplyAt(query, dataType, j)
    requires IsRun(other, dataType, m)
    ensures n <= m
    ensures Gathered(query, dataType, n) == Gathered(other, dataType, n - 1)
    ensures Gathered(query, dataType, n) <= Gathered(other, dataType, m)
  {
    GatheredAgree(query, other, dataType, n - 1);
    GatheredPrefix(other, dataType, n - 1, m);
  }

  /** The outcome for a category depends only on the service's replies for
      that category: what the service does for other categories (failures
      included) changes nothing. */
  lemma HarvestIsolated<R>(query: QueryService<R>, other: QueryService<R>, dataType: string)
    requires EventuallyShort(query, dataType)
    requires forall f: string, l: nat, s: nat :: query(dataType, f, l, s) == other(dataType, f, l, s)
    ensures EventuallyShort(other, dataType)
    ensures RequestCount(query, dataType) == RequestCount(other, dataType)
    ensures Harvest(query, dataType) == Harvest(other, dataType)
  {
    var n := RequestCount(query, dataType);
    forall k: nat
      ensures ReplyAt(query, dataType, k) == ReplyAt(other, dataType, k)
    {
      assert query(dataType, FILTER, LIMIT, Offset(k)) == other(dataType, FILTER, LIMIT, Offset(k));
    }
    assert IsRun(other, dataType, n);
    RunUnique(other, dataType, n, RequestCount(other, dataType));
    GatheredAgree(query, other, dataType, n);
  }

  function Min(a: nat, b: nat): nat {
    if a <= b then a else b
  }

  /** The slice of d that a request at `start` for `limit` records returns. */
  function Window<R>(d: seq<R>, start: nat, limit: nat): seq<R> {
    d[Min(start, |d|)..Min(start + limit, |d|)]
  }

  /** A service that answers from a fixed snapshot: the records of each
      category, sliced at the requested start and limit. */
  function Snapshot<R>(db: string -> seq<R>): QueryService<R> {
    (dataType: string, filter: string, limit: nat, start: nat) => Page(Window(db(dataType), start, limit))
  }

  lemma SnapshotReply<R>(db: string -> seq<R>, dataType: string, k: nat)
    ensures ReplyAt(Snapshot(db), dataType, k) == Page(Window(db(dataType), Offset(k), LIMIT))
  {
  }

  /** A window that fits inside d is a full page; one that reaches past the
      end holds the rest of d. */
  lemma WindowShape<R>(d: seq<R>, start: nat)
    requires start <= |d|
    ensures start + LIMIT <= |d| ==> Window(d, start, LIMIT) == d[start..start + LIMIT]
    ensures |d| < start + LIMIT ==> Window(d, start, LIMIT) == d[start..]
  {
  }

  /** The start of the last request against n records: the last window is short. */
  lemma LastOffset(n: nat)
    ensures Offset(n / LIMIT) <= n < Offset(n / LIMIT) + LIMIT
  {
  }

  /** Against a snapshot, the requests before offset |records| return full pages. */
  lemma {:induction false} SnapshotPrefix<R>(db: string -> seq<R>, dataType: string, k: nat)
    requires Offset(k) <= |db(dataType)|
    ensures Gathered(Snapshot(db), dataType, k) == db(dataType)[..Offset(k)]
    ensures forall j: nat :: j < k ==> Continues(ReplyAt(Snapshot(db), dataType, j))
    decreases k
  {
    if k > 0 {
      var d := db(dataType);
      var s := Offset(k - 1);
      SnapshotPrefix(db, dataType, k - 1);
      SnapshotReply(db, dataType, k - 1);
      WindowShape(d, s);
      assert d[..s + LIMIT] == d[..s] + d[s..s + LIMIT];
    }
  }

  /** Against a snapshot, |records| / LIMIT + 1 requests form a run that
      gathers every record. */
  lemma SnapshotIsRun<R>(db: string -> seq<R>, dataType: string)
    ensures IsRun(Snapshot(db), dataType, |db(dataType)| / LIMIT + 1)
    ensures Gathered(Snapshot(db), dataType, |db(dataType)| / LIMIT + 1) == db(dataType)
  {
    var d := db(dataType);
    var k := |d| / LIMIT;
    LastOffset(|d|);
    SnapshotPrefix(db, dataType, k);
    SnapshotReply(db, dataType, k);
    WindowShape(d, Offset(k));
    assert d == d[..Offset(k)] + d[Offset(k)..];
  }

  /** Against a snapshot the loop returns exactly the category's records,
      after |records| / LIMIT + 1 requests (the last one short or empty). */
  lemma SnapshotRun<R>(db: string -> seq<R>, dataType: string)
    ensures EventuallyShort(Snapshot(db), dataType) &&
            RequestCount(Snapshot(db), dataType) == |db(dataType)| / LIMIT + 1
    ensures EventuallyShort(Snapshot(db), dataType) &&
            Harvest(Snapshot(db), dataType) == db(dataType)
  {
    var n := |db(dataType)| / LIMIT + 1;
    SnapshotIsRun(db, dataType);
    assert !Continues(ReplyAt(Snapshot(db), dataType, n - 1));
    RunIsHarvest(Snapshot(db), dataType, n);
  }

  /** 2400 records take 3 requests, 2000 records take 3 (the third comes back
      empty) and no records take 1. */
  lemma SnapshotRequestExamples<R>(db: string -> seq<R>, dataType: string)
    ensures EventuallyShort(Snapshot(db), dataType)
    ensures |db(dataType)| == 2400 ==> RequestCount(Snapshot(db), dataType) == 3
    ensures |db(dataType)| == 2000 ==> RequestCount(Snapshot(db), dataType) == 3
    ensures |db(dataType)| == 0 ==> RequestCount(Snapshot(db), dataType) == 1
  {
    SnapshotRun(db, dataType);
  }

  /** The loop run against a snapshot returns every record of the category. */
  method FetchFromSnapshot<R>(db: string -> seq<R>, dataType: string)
    returns (allItems: seq<R>, starts: seq<nat>)
    ensures allItems == db(dataType)
    ensures |starts| == |db(dataType)| / LIMIT + 1
  {
    SnapshotRun(db, dataType);
    allItems, starts := FetchAllRecords(Snapshot(db), dataType);
    RunIsHarvest(Snapshot(db), dataType, |starts|);
  }
}
