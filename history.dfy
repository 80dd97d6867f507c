/**
 * GetVersionHistory (pkg/etcdhistory/history.go): read a key once at every
 * revision between its creation and its last modification, and return the
 * records in the requested order.
 *
 * The store is outside the model.  The client's first Get of the key is an
 * input (`current`), and so is the outcome of the retried point-in-time read
 * at each revision (`read`).  The goroutines deliver their messages to the
 * collector in an order nobody controls; that order is an input too
 * (`arrivals`), constrained only to be a permutation of the messages sent.
 */
module History {
  import opened Types

  // ---------------------------------------------------------------------------
  // Errors and outcomes

  datatype Error =
    | GetKeyFailed(cause: string)                 // the first Get of the key failed
    | KeyNotFound(key: string)                    // the key has no current value
    | RevisionFailed(revision: int, cause: string) // the read at one revision failed for good

  /** The client's first Get of the key: an error or the key-value pairs found. */
  datatype GetResponse = GetError(cause: string) | GetOk(kvs: seq<KeyValue>)

  /** What the retried read at one revision ends in. */
  datatype ReadOutcome =
    | Found(kv: KeyValue)        // the read returned a value
    | NoValue                    // the read returned no key-value pair
    | ReadFailed(cause: string)  // RetryWithContext gave up with this error

  /** A message a worker sends: on resultChan or on errChan. */
  datatype Message = RecordMsg(record: VersionRecord) | ErrorMsg(err: Error)

  /** What the collect loop ends in. */
  datatype Collected =
    | Gathered(records: seq<VersionRecord>)  // it received one record per planned revision
    | Aborted(err: Error)                    // it received an error and returned it
    | Blocked                                // it waits for a message that is never sent

  /** What GetVersionHistory ends in; Hang means it never returns. */
  datatype FetchResult = Success(records: seq<VersionRecord>) | Failure(err: Error) | Hang

  // ---------------------------------------------------------------------------
  // Revision planning: the direction, the count and the planning loop of GetVersionHistory

  /** Only "asc" walks upwards; "desc", the command's default, and every other string walk downwards. */
  predicate Ascending(order: string): (up: bool)
    ensures order == "asc" ==> up
    ensures order == "desc" ==> !up
    ensures order == "" ==> !up
  {
    order == "asc"
  }

  function Abs(x: int): (r: nat) { if x < 0 then -x else x }

  /**
   * Go's integer division, which truncates toward zero: the remainder
   * a - q * b is smaller than b in magnitude and, when not zero, has a's sign.
   */
  function Quot(a: int, b: int): (q: int)
    requires b != 0
    ensures Abs(a - q * b) < Abs(b)
    ensures a - q * b != 0 ==> (a - q * b < 0 <==> a < 0)
    ensures b == 1 ==> q == a
    ensures b == -1 ==> q == -a
  {
    var q := Abs(a) / Abs(b);
    TruncatedRemainder(a, b, q);
    if (a < 0) == (b < 0) then q else -q
  }

  /** The remainder of a division that truncates |a| / |b| and then restores the sign. */
  lemma TruncatedRemainder(a: int, b: int, q: int)
    requires b != 0 && q == Abs(a) / Abs(b)
    ensures var t := if (a < 0) == (b < 0) then q else -q;
      a - t * b == if a < 0 then -(Abs(a) % Abs(b)) else Abs(a) % Abs(b)
  {
    var A: int, B: int := Abs(a), Abs(b);
    var r := A % B;
    assert A == q * B + r;
    var t := if (a < 0) == (b < 0) then q else -q;
    if b > 0 {
      assert B == b;
      if a < 0 {
        assert t == -q && a == -A;
        assert t * b == -(q * B);
      } else {
        assert t == q && a == A;
      }
    } else {
      assert B == -b;
      if a < 0 {
        assert t == q && a == -A;
        assert t * b == -(q * B);
      } else {
        assert t == -q && a == A;
        assert t * b == q * B;
      }
    }
  }

  /** The number of revisions to read: the whole walk, or Limit when that is positive and smaller. */
  function RevisionCount(createRev: int, modRev: int, order: string, limit: int): (n: nat)
    ensures n == if 0 < limit < Abs(modRev - createRev) + 1 then limit else Abs(modRev - createRev) + 1
    ensures createRev == modRev ==> n == 1
    ensures limit > 0 ==> n <= limit
  {
    var (first, last, step) := if Ascending(order) then (createRev, modRev, 1) else (modRev, createRev, -1);
    var count := Abs(Quot(last - first, step)) + 1;
    if limit > 0 && limit < count then limit else count
  }

  /**
   * The planned revisions in closed form: upwards from createRev for "asc",
   * downwards from modRev otherwise.
   */
  function Plan(createRev: int, modRev: int, order: string, limit: int): (plan: seq<int>)
    ensures |plan| == RevisionCount(createRev, modRev, order, limit)
    ensures createRev == modRev ==> plan == [createRev]
  {
    seq(RevisionCount(createRev, modRev, order, limit),
        i => if Ascending(order) then createRev + i else modRev - i)
  }

  /** The plan walks strictly upwards for "asc" and strictly downwards otherwise. */
  lemma PlanMonotone(createRev: int, modRev: int, order: string, limit: int)
    ensures var plan := Plan(createRev, modRev, order, limit);
      forall i, j :: 0 <= i < j < |plan| ==> if Ascending(order) then plan[i] < plan[j] else plan[i] > plan[j]
  {
  }

  /**
   * For a key with createRev <= modRev every planned revision lies in
   * [createRev, modRev]; without a limit every revision of that range is planned.
   */
  lemma PlanCoversRange(createRev: int, modRev: int, order: string, limit: int)
    requires createRev <= modRev
    ensures forall r :: r in Plan(createRev, modRev, order, limit) ==> createRev <= r <= modRev
    ensures limit <= 0 ==> |Plan(createRev, modRev, order, limit)| == modRev - createRev + 1
    ensures limit <= 0 ==> forall r :: createRev <= r <= modRev ==> r in Plan(createRev, modRev, order, limit)
  {
    var plan := Plan(createRev, modRev, order, limit);
    if limit <= 0 {
      forall r | createRev <= r <= modRev
        ensures r in plan
      {
        var i := if Ascending(order) then r - createRev else modRev - r;
        assert plan[i] == r;
      }
    }
  }

  /** The planning loop: append `start + count * step` until the count is reached. */
  method PlanRevisions(createRev: int, modRev: int, order: string, limit: int) returns (revisions: seq<int>)
    ensures revisions == Plan(createRev, modRev, order, limit)
  {
    var start, step := modRev, -1;
    if Ascending(order) {
      start, step := createRev, 1;
    }
    var revisionCount := RevisionCount(createRev, modRev, order, limit);

    revisions := [];
    var rev, count := start, 0;
    while count < revisionCount
      invariant 0 <= count <= revisionCount
      invariant rev == start + count * step
      invariant revisions == Plan(createRev, modRev, order, limit)[..count]
    {
      revisions := revisions + [rev];
      count := count + 1;
      rev := rev + step;
    }
  }

  // ---------------------------------------------------------------------------
  // The workers: one goroutine per planned revision, sending on resultChan or errChan

  /** The record sent for a read at `revision`: its Revision is the planned one. */
  function MakeRecord(revision: int, kv: KeyValue): (r: VersionRecord)
    ensures r.revision == revision
  {
    VersionRecord(kv.version, kv.value, revision, kv.createRevision, kv.modRevision)
  }

  /**
   * The messages the worker for `revision` sends: a record when the read found
   * a value, an error naming the revision when it failed, nothing otherwise.
   */
  function Emit(revision: int, outcome: ReadOutcome): (msgs: seq<Message>)
    ensures |msgs| <= 1
    ensures |msgs| == 0 <==> outcome.NoValue?
    ensures forall m :: m in msgs ==> (m.RecordMsg? <==> outcome.Found?)
    ensures forall m :: m in msgs && m.RecordMsg? ==> m.record.revision == revision
    ensures forall m :: m in msgs && m.ErrorMsg? ==> m.err == RevisionFailed(revision, outcome.cause)
  {
    match outcome
    case Found(kv) => [RecordMsg(MakeRecord(revision, kv))]
    case NoValue => []
    case ReadFailed(cause) => [ErrorMsg(RevisionFailed(revision, cause))]
  }

  /** All messages the workers send, listed in plan order. */
  function Sent(plan: seq<int>, read: int -> ReadOutcome): (msgs: seq<Message>)
    ensures |msgs| <= |plan|
  {
    if plan == [] then []
    else Sent(plan[..|plan| - 1], read) + Emit(plan[|plan| - 1], read(plan[|plan| - 1]))
  }

  ghost predicate AllFound(plan: seq<int>, read: int -> ReadOutcome)
  {
    forall i :: 0 <= i < |plan| ==> read(plan[i]).Found?
  }

  ghost predicate AnyFailed(plan: seq<int>, read: int -> ReadOutcome)
  {
    exists i :: 0 <= i < |plan| && read(plan[i]).ReadFailed?
  }

  /** `err` is the error sent for a planned revision whose read failed. */
  ghost predicate FailedAt(plan: seq<int>, read: int -> ReadOutcome, err: Error)
  {
    exists i :: 0 <= i < |plan| && read(plan[i]).ReadFailed? && err == RevisionFailed(plan[i], read(plan[i]).cause)
  }

  /** When every read found a value: the records, one per planned revision, in plan order. */
  function Expected(plan: seq<int>, read: int -> ReadOutcome): (records: seq<VersionRecord>)
    requires AllFound(plan, read)
    ensures |records| == |plan|
    ensures forall i :: 0 <= i < |plan| ==> records[i].revision == plan[i]
  {
    seq(|plan|, i requires 0 <= i < |plan| => MakeRecord(plan[i], read(plan[i]).kv))
  }

  function AsMessages(records: seq<VersionRecord>): (msgs: seq<Message>)
    ensures |msgs| == |records|
    ensures forall i :: 0 <= i < |records| ==> msgs[i] == RecordMsg(records[i])
  {
    seq(|records|, i requires 0 <= i < |records| => RecordMsg(records[i]))
  }

  /** No more messages than planned revisions; as many only when no read came back empty. */
  lemma {:induction false} SentLength(plan: seq<int>, read: int -> ReadOutcome)
    ensures |Sent(plan, read)| <= |plan|
    ensures |Sent(plan, read)| == |plan| ==> forall i :: 0 <= i < |plan| ==> !read(plan[i]).NoValue?
  {
    if plan != [] {
      var init := plan[..|plan| - 1];
      SentLength(init, read);
      assert forall i :: 0 <= i < |init| ==> init[i] == plan[i];
    }
  }

  /** An error is sent exactly when some planned read failed, and each one names that revision. */
  lemma {:induction false} SentErrors(plan: seq<int>, read: int -> ReadOutcome)
    ensures (exists k :: 0 <= k < |Sent(plan, read)| && Sent(plan, read)[k].ErrorMsg?) <==> AnyFailed(plan, read)
    ensures forall k :: 0 <= k < |Sent(plan, read)| && Sent(plan, read)[k].ErrorMsg? ==>
      FailedAt(plan, read, Sent(plan, read)[k].err)
  {
    if plan != [] {
      var init, last := plan[..|plan| - 1], plan[|plan| - 1];
      SentErrors(init, read);
      var sent, sentInit := Sent(plan, read), Sent(init, read);
      assert sent == sentInit + Emit(last, read(last));
      assert forall i :: 0 <= i < |init| ==> init[i] == plan[i];
      if AnyFailed(plan, read) {
        var i :| 0 <= i < |plan| && read(plan[i]).ReadFailed?;
        if i < |init| {
          assert read(init[i]).ReadFailed?;
          var k :| 0 <= k < |sentInit| && sentInit[k].ErrorMsg?;
          assert sent[k] == sentInit[k];
        } else {
          assert sent[|sentInit|].ErrorMsg?;
        }
      }
      forall k | 0 <= k < |sent| && sent[k].ErrorMsg?
        ensures FailedAt(plan, read, sent[k].err)
      {
        if k < |sentInit| {
          assert sent[k] == sentInit[k];
          var i :| 0 <= i < |init| && read(init[i]).ReadFailed? && sentInit[k].err == RevisionFailed(init[i], read(init[i]).cause);
          assert plan[i] == init[i];
        } else {
          assert plan[|plan| - 1] == last;
        }
      }
      if exists k :: 0 <= k < |sent| && sent[k].ErrorMsg? {
        var k :| 0 <= k < |sent| && sent[k].ErrorMsg?;
        var i :| 0 <= i < |plan| && read(plan[i]).ReadFailed? && sent[k].err == RevisionFailed(plan[i], read(plan[i]).cause);
        assert Sent(plan, read)[k].ErrorMsg?;
      }
    }
  }

  /** When every read found a value, the messages sent are exactly the expected records. */
  lemma {:induction false} SentAllFound(plan: seq<int>, read: int -> ReadOutcome)
    requires AllFound(plan, read)
    ensures Sent(plan, read) == AsMessages(Expected(plan, read))
  {
    if plan != [] {
      var init := plan[..|plan| - 1];
      assert forall i :: 0 <= i < |init| ==> init[i] == plan[i];
      SentAllFound(init, read);
      assert Expected(plan, read) == Expected(init, read) + [MakeRecord(plan[|plan| - 1], read(plan[|plan| - 1]).kv)];
    }
  }

  // ---------------------------------------------------------------------------
  // Permutations and distinct revisions

  /** No two records share a Revision. */
  ghost predicate DistinctRevisions(s: seq<VersionRecord>)
  {
    forall i, j :: 0 <= i < j < |s| ==> s[i].revision != s[j].revision
  }

  lemma {:induction false} CountMessages(records: seq<VersionRecord>, x: VersionRecord)
    ensures multiset(AsMessages(records))[RecordMsg(x)] == multiset(records)[x]
  {
    if records != [] {
      var init := records[..|records| - 1];
      CountMessages(init, x);
      assert records == init + [records[|records| - 1]];
      assert AsMessages(records) == AsMessages(init) + [RecordMsg(records[|records| - 1])];
    }
  }

  /** Two record lists whose messages are permutations of each other are permutations of each other. */
  lemma SameRecords(xs: seq<VersionRecord>, ys: seq<VersionRecord>)
    requires multiset(AsMessages(xs)) == multiset(AsMessages(ys))
    ensures multiset(xs) == multiset(ys)
  {
    forall x
      ensures multiset(xs)[x] == multiset(ys)[x]
    {
      CountMessages(xs, x);
      CountMessages(ys, x);
    }
  }

  lemma {:induction false} DistinctCountsOne(s: seq<VersionRecord>, x: VersionRecord)
    requires DistinctRevisions(s)
    ensures multiset(s)[x] <= 1
  {
    if s != [] {
      var init, last := s[..|s| - 1], s[|s| - 1];
      assert s == init + [last];
      assert DistinctRevisions(init);
      DistinctCountsOne(init, x);
      if x == last {
        assert x !in init;
      }
    }
  }

  lemma RepeatCountsTwo(s: seq<VersionRecord>, i: int, j: int)
    requires 0 <= i < j < |s| && s[i] == s[j]
    ensures multiset(s)[s[i]] >= 2
  {
    assert s == s[..j] + s[j..];
    assert s[i] in s[..j];
    assert s[j] in s[j..];
  }

  /** Distinct revisions survive any permutation. */
  lemma PermutationKeepsDistinct(a: seq<VersionRecord>, b: seq<VersionRecord>)
    requires multiset(a) == multiset(b)
    requires DistinctRevisions(b)
    ensures DistinctRevisions(a)
  {
    forall i, j | 0 <= i < j < |a|
      ensures a[i].revision != a[j].revision
    {
      if a[i].revision == a[j].revision {
        assert a[i] in multiset(b) && a[j] in multiset(b);
        var p :| 0 <= p < |b| && b[p] == a[i];
        var q :| 0 <= q < |b| && b[q] == a[j];
        assert p == q;
        RepeatCountsTwo(a, i, j);
        DistinctCountsOne(b, a[i]);
      }
    }
  }

  // ---------------------------------------------------------------------------
  // Fan-in: the collect loop that receives once per planned revision

  /**
   * The collect loop: `n` receives, each taking the next message to arrive.
   * The first error ends it; when the messages run out it blocks.
   */
  method Collect(n: nat, arrivals: seq<Message>) returns (c: Collected)
    ensures c.Aborted? <==> exists i :: 0 <= i < n && i < |arrivals| && arrivals[i].ErrorMsg?
    ensures c.Aborted? ==>
      exists i :: 0 <= i < n && i < |arrivals| && arrivals[i] == ErrorMsg(c.err)
                  && forall j :: 0 <= j < i ==> arrivals[j].RecordMsg?
    ensures c.Gathered? ==>
      && n <= |arrivals| && |c.records| == n
      && forall i :: 0 <= i < n ==> arrivals[i] == RecordMsg(c.records[i])
    ensures c.Blocked? ==> |arrivals| < n && forall i :: 0 <= i < |arrivals| ==> arrivals[i].RecordMsg?
  {
    var records := [];
    var i := 0;
    while i < n
      invariant 0 <= i <= n && i <= |arrivals|
      invariant |records| == i
      invariant forall j :: 0 <= j < i ==> arrivals[j] == RecordMsg(records[j])
    {
      if i == |arrivals| {
        return Blocked;
      }
      if arrivals[i].ErrorMsg? {
        return Aborted(arrivals[i].err);
      }
      records := records + [arrivals[i].record];
      i := i + 1;
    }
    return Gathered(records);
  }

  /** An error the collector receives is one a failed planned read sent. */
  lemma AbortedMeansFailed(plan: seq<int>, read: int -> ReadOutcome, arrivals: seq<Message>, err: Error)
    requires multiset(arrivals) == multiset(Sent(plan, read))
    requires ErrorMsg(err) in arrivals
    ensures AnyFailed(plan, read) && FailedAt(plan, read, err)
  {
    var sent := Sent(plan, read);
    SentErrors(plan, read);
    assert ErrorMsg(err) in multiset(sent);
    var k :| 0 <= k < |sent| && sent[k] == ErrorMsg(err);
  }

  /** When only records arrive, no planned read failed. */
  lemma OnlyRecordsMeansNoFailure(plan: seq<int>, read: int -> ReadOutcome, arrivals: seq<Message>)
    requires multiset(arrivals) == multiset(Sent(plan, read))
    requires forall i :: 0 <= i < |arrivals| ==> arrivals[i].RecordMsg?
    ensures |arrivals| == |Sent(plan, read)|
    ensures !AnyFailed(plan, read)
  {
    var sent := Sent(plan, read);
    assert |multiset(arrivals)| == |multiset(sent)|;
    forall k | 0 <= k < |sent|
      ensures sent[k].RecordMsg?
    {
      assert sent[k] in multiset(arrivals);
    }
    SentErrors(plan, read);
  }

  /** A collector that runs out of messages means no read failed and some read found no value. */
  lemma BlockedMeansNoValue(plan: seq<int>, read: int -> ReadOutcome, arrivals: seq<Message>)
    requires multiset(arrivals) == multiset(Sent(plan, read))
    requires |arrivals| < |plan| && forall i :: 0 <= i < |arrivals| ==> arrivals[i].RecordMsg?
    ensures !AllFound(plan, read) && !AnyFailed(plan, read)
  {
    OnlyRecordsMeansNoFailure(plan, read, arrivals);
    if AllFound(plan, read) {
      SentAllFound(plan, read);
    }
  }

  /** One message per planned revision, none of them an error: every read found a value. */
  lemma FullSendMeansAllFound(plan: seq<int>, read: int -> ReadOutcome)
    requires |Sent(plan, read)| == |plan| && !AnyFailed(plan, read)
    ensures AllFound(plan, read)
  {
    SentLength(plan, read);
  }

  /**
   * A collector that received one record per planned revision means every
   * read found a value, and the records are the expected ones in some order.
   */
  lemma GatheredMeansAllFound(plan: seq<int>, read: int -> ReadOutcome, arrivals: seq<Message>, records: seq<VersionRecord>)
    requires multiset(arrivals) == multiset(Sent(plan, read))
    requires |records| == |plan| <= |arrivals|
    requires forall i :: 0 <= i < |plan| ==> arrivals[i] == RecordMsg(records[i])
    ensures AllFound(plan, read)
    ensures multiset(records) == multiset(Expected(plan, read))
  {
    assert |arrivals| == |plan| by {
      SentLength(plan, read);
      assert |multiset(arrivals)| == |multiset(Sent(plan, read))|;
    }
    assert arrivals == AsMessages(records);
    assert AllFound(plan, read) by {
      OnlyRecordsMeansNoFailure(plan, read, arrivals);
      FullSendMeansAllFound(plan, read);
    }
    assert multiset(AsMessages(records)) == multiset(AsMessages(Expected(plan, read))) by {
      SentAllFound(plan, read);
    }
    SameRecords(records, Expected(plan, read));
  }

  // ---------------------------------------------------------------------------
  // Ordering: the sort.Slice call and its comparator

  /**
   * The comparator handed to sort.Slice: records with equal revisions never
   * compare Less; otherwise x is Less than y exactly when x's revision is the
   * smaller one and the order is ascending, or the larger one and it is not.
   */
  predicate Less(x: VersionRecord, y: VersionRecord, order: string): (b: bool)
    ensures x.revision == y.revision ==> !b
    ensures x.revision != y.revision ==> (b <==> (x.revision < y.revision <==> Ascending(order)))
  {
    if Ascending(order) then x.revision < y.revision else x.revision > y.revision
  }

  /** What sort.Slice establishes: no record is Less than one placed before it. */
  ghost predicate Sorted(s: seq<VersionRecord>, order: string)
  {
    forall i, j :: 0 <= i < j < |s| ==> !Less(s[j], s[i], order)
  }

  /** Sorts the records in place by Revision, ascending only for "asc". */
  method SortByRevision(a: array<VersionRecord>, order: string)
    modifies a
    ensures Sorted(a[..], order)
    ensures multiset(a[..]) == multiset(old(a[..]))
  {
    var i := 0;
    while i < a.Length
      invariant 0 <= i <= a.Length
      invariant forall k, l :: 0 <= k < l < i ==> !Less(a[l], a[k], order)
      invariant multiset(a[..]) == multiset(old(a[..]))
    {
      var j := i;
      while 0 < j && Less(a[j], a[j - 1], order)
        invariant 0 <= j <= i
        invariant forall k, l :: 0 <= k < l <= i && l != j ==> !Less(a[l], a[k], order)
        invariant multiset(a[..]) == multiset(old(a[..]))
      {
        a[j - 1], a[j] := a[j], a[j - 1];
        j := j - 1;
      }
      i := i + 1;
    }
  }

  /** The strict order the records end in: increasing for "asc", decreasing otherwise. */
  ghost predicate StrictlyOrdered(s: seq<VersionRecord>, order: string)
  {
    forall i, j :: 0 <= i < j < |s| ==> Less(s[i], s[j], order)
  }

  /**
   * The sort step on the collected records: copied into an array, sorted in
   * place, and read back.  Records with distinct revisions come out strictly
   * ordered.
   */
  method SortRecords(records: seq<VersionRecord>, order: string) returns (sorted: seq<VersionRecord>)
    requires DistinctRevisions(records)
    ensures multiset(sorted) == multiset(records) && |sorted| == |records|
    ensures StrictlyOrdered(sorted, order)
  {
    var a := new VersionRecord[|records|](i requires 0 <= i < |records| => records[i]);
    assert a[..] == records;
    SortByRevision(a, order);
    sorted := a[..];
    PermutationKeepsDistinct(sorted, records);
  }

  // ---------------------------------------------------------------------------
  // GetVersionHistory: the first Get, then plan, fan in and sort

  /** The first Get found the key. */
  predicate KeyFound(current: GetResponse)
  {
    current.GetOk? && |current.kvs| > 0
  }

  function PlanFor(opts: Options, current: GetResponse): (plan: seq<int>)
    requires KeyFound(current)
  {
    Plan(current.kvs[0].createRevision, current.kvs[0].modRevision, opts.order, opts.limit)
  }

  /**
   * Everything after the first Get, for a key created at createRev and last
   * modified at modRev: plan, fan in, sort.
   */
  method ReadHistory(createRev: int, modRev: int, order: string, limit: int,
                     read: int -> ReadOutcome, arrivals: seq<Message>)
    returns (h: FetchResult)
    requires multiset(arrivals) == multiset(Sent(Plan(createRev, modRev, order, limit), read))
    ensures h.Success? <==> AllFound(Plan(createRev, modRev, order, limit), read)
    ensures h.Failure? <==> AnyFailed(Plan(createRev, modRev, order, limit), read)
    ensures h.Failure? ==> FailedAt(Plan(createRev, modRev, order, limit), read, h.err)
    ensures h.Success? ==>
      && AllFound(Plan(createRev, modRev, order, limit), read)
      && multiset(h.records) == multiset(Expected(Plan(createRev, modRev, order, limit), read))
    ensures h.Success? ==> |h.records| == RevisionCount(createRev, modRev, order, limit)
    ensures h.Success? ==> StrictlyOrdered(h.records, order)
  {
    var revisions := PlanRevisions(createRev, modRev, order, limit);

    SentLength(revisions, read);
    assert |arrivals| <= |revisions| by {
      assert |multiset(arrivals)| == |multiset(Sent(revisions, read))|;
    }

    var c := Collect(|revisions|, arrivals);
    match c
    case Aborted(err) =>
      AbortedMeansFailed(revisions, read, arrivals, err);
      h := Failure(err);
    case Blocked =>
      BlockedMeansNoValue(revisions, read, arrivals);
      h := Hang;
    case Gathered(records) =>
      GatheredMeansAllFound(revisions, read, arrivals, records);
      ghost var expected := Expected(revisions, read);
      PlanMonotone(createRev, modRev, order, limit);
      assert DistinctRevisions(expected);
      PermutationKeepsDistinct(records, expected);

      var sorted := SortRecords(records, order);
      h := Success(sorted);
  }

  method GetVersionHistory(opts: Options, current: GetResponse, read: int -> ReadOutcome, arrivals: seq<Message>)
    returns (h: FetchResult)
    requires KeyFound(current) ==> multiset(arrivals) == multiset(Sent(PlanFor(opts, current), read))
    ensures current.GetError? ==> h == Failure(GetKeyFailed(current.cause))
    ensures current == GetOk([]) ==> h == Failure(KeyNotFound(opts.key))
    ensures KeyFound(current) ==> (h.Success? <==> AllFound(PlanFor(opts, current), read))
    ensures KeyFound(current) ==> (h.Failure? <==> AnyFailed(PlanFor(opts, current), read))
    ensures KeyFound(current) ==>
      (h.Hang? <==> (!AllFound(PlanFor(opts, current), read) && !AnyFailed(PlanFor(opts, current), read)))
    ensures KeyFound(current) && h.Failure? ==> FailedAt(PlanFor(opts, current), read, h.err)
    ensures h.Success? ==>
      && KeyFound(current) && AllFound(PlanFor(opts, current), read)
      && multiset(h.records) == multiset(Expected(PlanFor(opts, current), read))
    ensures h.Success? ==> |h.records| == |PlanFor(opts, current)|
    ensures h.Success? ==> StrictlyOrdered(h.records, opts.order)
    ensures h.Success? && opts.limit > 0 ==> |h.records| <= opts.limit
  {
    if current.GetError? {
      return Failure(GetKeyFailed(current.cause));
    }
    if |current.kvs| == 0 {
      return Failure(KeyNotFound(opts.key));
    }
    var createRev := current.kvs[0].createRevision;
    var modRev := current.kvs[0].modRevision;
    h := ReadHistory(createRev, modRev, opts.order, opts.limit, read, arrivals);
  }
}
