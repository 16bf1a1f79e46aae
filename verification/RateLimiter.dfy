/**
 The bounded sliding-window request limiter.  The class keeps only a pruned, ordered
 map of recent admissions; its contract speaks about the complete admission history.
 */
module RateLimiter {
  import opened Collections
  import opened Options
  import opened Text

  /** One aggregate bucket of one user; the program keys it by the string `StateKey`. */
  datatype BucketId = BucketId(user: string, read: bool)

  datatype Admission = Admission(bucket: BucketId, time: int)

  // ---------------------------------------------------------------------------
  // Specification: a limiter that remembers every admission
  // ---------------------------------------------------------------------------

  predicate IsReadMethod(verb: string) {
    verb == "GET" || verb == "HEAD" || verb == "OPTIONS"
  }

  function StateKey(id: BucketId): string {
    id.user + (if id.read then ":read" else ":write")
  }

  /** All admission times of one bucket, oldest first. */
  function Times(history: seq<Admission>, id: BucketId): seq<int> {
    if history == [] then []
    else
      var last := history[|history| - 1];
      Times(history[..|history| - 1], id) + (if last.bucket == id then [last.time] else [])
  }

  /** The times that are younger than one window at `now`. */
  function Recent(times: seq<int>, now: int, window: int): seq<int> {
    if times == [] then []
    else (if now - times[0] < window then [times[0]] else []) + Recent(times[1..], now, window)
  }

  /** The buckets with an admission inside the window. */
  function ActiveBuckets(history: seq<Admission>, now: int, window: int): set<BucketId> {
    set a | a in history && now - a.time < window :: a.bucket
  }

  /** The decision, stated over the complete history. */
  predicate Admits(history: seq<Admission>, id: BucketId, limit: int, now: int, window: int, maxEntries: int) {
    var active := ActiveBuckets(history, now, window);
    && limit > 0
    && |Recent(Times(history, id), now, window)| < limit
    && (id in active || |active| < maxEntries)
  }

  // ---------------------------------------------------------------------------
  // Auxiliary predicates of the refinement
  // ---------------------------------------------------------------------------

  ghost predicate Chronological(history: seq<Admission>, upTo: int) {
    && (forall i, j :: 0 <= i < j < |history| ==> history[i].time <= history[j].time)
    && (forall i :: 0 <= i < |history| ==> history[i].time <= upTo)
  }

  ghost predicate SortedTimes(times: seq<int>, upTo: int) {
    && (forall i, j :: 0 <= i < j < |times| ==> times[i] <= times[j])
    && (forall i :: 0 <= i < |times| ==> times[i] <= upTo)
  }

  /** `queue` is what is left of `times` after dropping only entries that left the window. */
  ghost predicate Pruned(times: seq<int>, queue: seq<int>, now: int, window: int) {
    && |queue| <= |times|
    && queue == times[|times| - |queue|..]
    && forall i :: 0 <= i < |times| - |queue| ==> now - times[i] >= window
  }

  function Queue(requests: map<BucketId, seq<int>>, id: BucketId): seq<int> {
    if id in requests then requests[id] else []
  }

  function Last(times: seq<int>): int
    requires times != []
  {
    times[|times| - 1]
  }

  /** The shape of the ordered map, and that it is ordered by latest admission. */
  ghost predicate WellOrdered(order: seq<BucketId>, requests: map<BucketId, seq<int>>) {
    && NoDuplicates(order)
    && (forall id :: id in order <==> id in requests)
    && (forall id :: id in requests ==> requests[id] != [])
    && (forall i, j :: 0 <= i < j < |order| ==> Last(requests[order[i]]) <= Last(requests[order[j]]))
  }

  ghost predicate Refines(history: seq<Admission>, requests: map<BucketId, seq<int>>, now: int, window: int) {
    forall id :: Pruned(Times(history, id), Queue(requests, id), now, window)
  }

  // ---------------------------------------------------------------------------
  // Lemmas about the specification
  // ---------------------------------------------------------------------------

  /** The textual key never confuses two buckets, so the map may be keyed by `BucketId`. */
  lemma StateKeyInjective(a: BucketId, b: BucketId)
    ensures StateKey(a) == StateKey(b) <==> a == b
  {
    var ka, kb := StateKey(a), StateKey(b);
    if ka == kb {
      assert ka[|ka| - 1] == if a.read then 'd' else 'e';
      assert kb[|kb| - 1] == if b.read then 'd' else 'e';
      assert a.user == ka[..|ka| - (if a.read then 5 else 6)];
      assert b.user == kb[..|kb| - (if b.read then 5 else 6)];
    }
  }

  lemma {:induction false} TimesMembers(history: seq<Admission>, id: BucketId, t: int)
    ensures t in Times(history, id) <==> Admission(id, t) in history
  {
    if history != [] {
      var front := history[..|history| - 1];
      TimesMembers(front, id, t);
      assert history == front + [history[|history| - 1]];
    }
  }

  lemma {:induction false} TimesSorted(history: seq<Admission>, id: BucketId, upTo: int)
    requires Chronological(history, upTo)
    ensures SortedTimes(Times(history, id), upTo)
  {
    if history != [] {
      var front := history[..|history| - 1];
      var last := history[|history| - 1];
      assert Chronological(front, last.time);
      TimesSorted(front, id, last.time);
    }
  }

  lemma TimesSnoc(history: seq<Admission>, a: Admission, id: BucketId)
    ensures Times(history + [a], id) == Times(history, id) + (if a.bucket == id then [a.time] else [])
  {
    assert (history + [a])[..|history|] == history;
  }

  lemma {:induction false} RecentConcat(a: seq<int>, b: seq<int>, now: int, window: int)
    ensures Recent(a + b, now, window) == Recent(a, now, window) + Recent(b, now, window)
  {
    if a == [] {
      assert a + b == b;
    } else {
      assert (a + b)[1..] == a[1..] + b;
      RecentConcat(a[1..], b, now, window);
    }
  }

  lemma {:induction false} RecentOfStale(a: seq<int>, now: int, window: int)
    requires forall i :: 0 <= i < |a| ==> now - a[i] >= window
    ensures Recent(a, now, window) == []
  {
    if a != [] {
      RecentOfStale(a[1..], now, window);
    }
  }

  lemma {:induction false} RecentOfFresh(a: seq<int>, now: int, window: int)
    requires forall i :: 0 <= i < |a| ==> now - a[i] < window
    ensures Recent(a, now, window) == a
  {
    if a != [] {
      RecentOfFresh(a[1..], now, window);
    }
  }

  lemma {:induction false} RecentMembers(times: seq<int>, t: int, now: int, window: int)
    ensures t in Recent(times, now, window) <==> t in times && now - t < window
  {
    if times != [] {
      RecentMembers(times[1..], t, now, window);
      assert times == [times[0]] + times[1..];
    }
  }

  /** A pruned queue whose head is young (or which is empty) is exactly the recent times. */
  lemma PrunedIsRecent(times: seq<int>, queue: seq<int>, now: int, window: int)
    requires SortedTimes(times, now) && Pruned(times, queue, now, window)
    requires queue == [] || now - queue[0] < window
    ensures Recent(times, now, window) == queue
  {
    var k := |times| - |queue|;
    assert times == times[..k] + queue;
    RecentConcat(times[..k], queue, now, window);
    RecentOfStale(times[..k], now, window);
    forall i | 0 <= i < |queue| ensures now - queue[i] < window {
      assert queue[0] == times[k] && queue[i] == times[k + i];
    }
    RecentOfFresh(queue, now, window);
  }

  lemma ActiveIffRecent(history: seq<Admission>, id: BucketId, now: int, window: int)
    ensures id in ActiveBuckets(history, now, window) <==> Recent(Times(history, id), now, window) != []
  {
    var recent := Recent(Times(history, id), now, window);
    if recent != [] {
      RecentMembers(Times(history, id), recent[0], now, window);
      TimesMembers(history, id, recent[0]);
      var a := Admission(id, recent[0]);
      assert a in history && now - a.time < window;
    }
    if id in ActiveBuckets(history, now, window) {
      var a :| a in history && now - a.time < window && a.bucket == id;
      TimesMembers(history, id, a.time);
      assert a == Admission(id, a.time);
      RecentMembers(Times(history, id), a.time, now, window);
    }
  }

  /** An entry of the map is active exactly when its latest admission is young. */
  lemma ActiveIffLastRecent(history: seq<Admission>, requests: map<BucketId, seq<int>>, id: BucketId, now: int, window: int)
    requires Chronological(history, now) && Refines(history, requests, now, window)
    ensures id in ActiveBuckets(history, now, window)
            <==> Queue(requests, id) != [] && now - Last(Queue(requests, id)) < window
  {
    var times, queue := Times(history, id), Queue(requests, id);
    TimesSorted(history, id, now);
    ActiveIffRecent(history, id, now, window);
    assert Pruned(times, queue, now, window);
    RecentIffLast(times, queue, now, window);
  }

  lemma RecentIffLast(times: seq<int>, queue: seq<int>, now: int, window: int)
    requires SortedTimes(times, now) && Pruned(times, queue, now, window)
    ensures Recent(times, now, window) != [] <==> queue != [] && now - Last(queue) < window
  {
    if queue != [] {
      assert Last(queue) == times[|times| - 1];
      RecentMembers(times, Last(queue), now, window);
    }
    if Recent(times, now, window) != [] {
      var t := Recent(times, now, window)[0];
      RecentMembers(times, t, now, window);
      var i :| 0 <= i < |times| && times[i] == t;
      assert i >= |times| - |queue|;
    }
  }

  // ---------------------------------------------------------------------------
  // The heart of the refinement: looking at the head of the map is enough
  // ---------------------------------------------------------------------------

  /**
   "Only the first bucket can be reclaimable": when the map is full, there is room for an
   unseen bucket in the history exactly when the head of the map has left the window.
   */
  lemma HeadDecides(history: seq<Admission>, order: seq<BucketId>, requests: map<BucketId, seq<int>>,
                    now: int, window: int)
    requires Chronological(history, now) && Refines(history, requests, now, window)
    requires WellOrdered(order, requests) && order != []
    ensures |ActiveBuckets(history, now, window)| < |order|
            <==> now - Last(requests[order[0]]) >= window
  {
    var active := ActiveBuckets(history, now, window);
    DistinctSize(order);
    forall id ensures id in active ==> id in order {
      ActiveIffLastRecent(history, requests, id, now, window);
    }
    assert active <= ToSet(order);
    SubsetSize(active, ToSet(order));
    ActiveIffLastRecent(history, requests, order[0], now, window);
    if now - Last(requests[order[0]]) < window {
      forall id | id in order ensures id in active {
        var i :| 0 <= i < |order| && order[i] == id;
        ActiveIffLastRecent(history, requests, id, now, window);
      }
      assert active == ToSet(order);
    } else {
      assert order[0] in ToSet(order);
      ProperSubsetSize(active, ToSet(order));
    }
  }

  /** With a spare slot in the map there is always room in the history. */
  lemma SpareSlot(history: seq<Admission>, order: seq<BucketId>, requests: map<BucketId, seq<int>>,
                  now: int, window: int)
    requires Chronological(history, now) && Refines(history, requests, now, window)
    requires WellOrdered(order, requests)
    ensures |ActiveBuckets(history, now, window)| <= |order|
  {
    var active := ActiveBuckets(history, now, window);
    DistinctSize(order);
    forall id ensures id in active ==> id in order {
      ActiveIffLastRecent(history, requests, id, now, window);
    }
    SubsetSize(active, ToSet(order));
  }

  // ---------------------------------------------------------------------------
  // The ordered map operations
  // ---------------------------------------------------------------------------

  function RemoveAt<T>(s: seq<T>, i: nat): seq<T>
    requires i < |s|
  {
    s[..i] + s[i + 1..]
  }

  function IndexOf<T(==)>(s: seq<T>, x: T): (i: nat)
    requires x in s
    ensures i < |s| && s[i] == x
  {
    if s[0] == x then 0 else 1 + IndexOf(s[1..], x)
  }

  /** `OrderedDict.pop` keeps the map well ordered. */
  lemma PopKeepsOrder(order: seq<BucketId>, requests: map<BucketId, seq<int>>, i: nat)
    requires WellOrdered(order, requests) && i < |order|
    ensures WellOrdered(RemoveAt(order, i), requests - {order[i]})
  {
    var rest, left := RemoveAt(order, i), requests - {order[i]};
    forall j | 0 <= j < |rest| ensures rest[j] == order[if j < i then j else j + 1] {
    }
    forall id ensures id in rest <==> id in left {
      if id in left {
        var j :| 0 <= j < |order| && order[j] == id;
        assert rest[if j < i then j else j - 1] == id;
      }
    }
  }

  /** Appending an admission and moving the bucket to the end keeps the map well ordered. */
  lemma TouchKeepsOrder(order: seq<BucketId>, requests: map<BucketId, seq<int>>, id: BucketId, queue: seq<int>)
    requires WellOrdered(order, requests) && id !in requests
    requires queue != []
    requires forall other :: other in requests ==> Last(requests[other]) <= Last(queue)
    ensures WellOrdered(order + [id], requests[id := queue])
  {
  }

  lemma SameLastKeepsOrder(order: seq<BucketId>, requests: map<BucketId, seq<int>>, id: BucketId, queue: seq<int>)
    requires WellOrdered(order, requests) && id in requests
    requires queue != [] && Last(queue) == Last(requests[id])
    ensures WellOrdered(order, requests[id := queue])
  {
  }

  /** What left the window stays outside it. */
  lemma LaterKeepsRefines(history: seq<Admission>, requests: map<BucketId, seq<int>>, now: int, later: int, window: int)
    requires Refines(history, requests, now, window) && now <= later
    ensures Refines(history, requests, later, window)
  {
    forall id ensures Pruned(Times(history, id), Queue(requests, id), later, window) {
      assert Pruned(Times(history, id), Queue(requests, id), now, window);
    }
  }

  /** Dropping stale heads of one queue keeps the refinement. */
  lemma PruneKeepsRefines(history: seq<Admission>, requests: map<BucketId, seq<int>>, id: BucketId, queue: seq<int>,
                          now: int, window: int)
    requires Refines(history, requests, now, window)
    requires Pruned(Times(history, id), queue, now, window)
    ensures Refines(history, requests[id := queue], now, window)
    ensures queue == [] ==> Refines(history, requests - {id}, now, window)
  {
    forall other ensures Pruned(Times(history, other), Queue(requests[id := queue], other), now, window) {
      assert Pruned(Times(history, other), Queue(requests, other), now, window);
    }
    if queue == [] {
      forall other ensures Pruned(Times(history, other), Queue(requests - {id}, other), now, window) {
        assert Pruned(Times(history, other), Queue(requests, other), now, window);
      }
    }
  }

  lemma AdmitKeepsRefines(history: seq<Admission>, requests: map<BucketId, seq<int>>, id: BucketId,
                          now: int, window: int)
    requires Refines(history, requests, now, window)
    ensures Refines(history + [Admission(id, now)], requests[id := Queue(requests, id) + [now]], now, window)
  {
    var history', requests' := history + [Admission(id, now)], requests[id := Queue(requests, id) + [now]];
    forall other ensures Pruned(Times(history', other), Queue(requests', other), now, window) {
      TimesSnoc(history, Admission(id, now), other);
      assert Pruned(Times(history, other), Queue(requests, other), now, window);
    }
  }

  // ---------------------------------------------------------------------------
  // The limiter
  // ---------------------------------------------------------------------------

  class RequestRateLimiter {
    var readLimit: int
    var writeLimit: int
    const window: int
    const maxStateEntries: int
    var order: seq<BucketId>
    var requests: map<BucketId, seq<int>>
    ghost var history: seq<Admission>
    ghost var clock: int

    ghost predicate Valid()
      reads this
    {
      && maxStateEntries >= 1
      && |order| <= maxStateEntries
      && WellOrdered(order, requests)
      && Chronological(history, clock)
      && Refines(history, requests, clock, window)
    }

    constructor (readLimit: int, writeLimit: int, windowSeconds: int, maxStateEntries: int, ghost start: int)
      ensures Valid() && history == [] && clock == start
      ensures this.readLimit == readLimit && this.writeLimit == writeLimit
      ensures window == windowSeconds && this.maxStateEntries == if maxStateEntries < 1 then 1 else maxStateEntries
    {
      this.readLimit, this.writeLimit := readLimit, writeLimit;
      this.window := windowSeconds;
      this.maxStateEntries := if maxStateEntries < 1 then 1 else maxStateEntries;
      order, requests := [], map[];
      history, clock := [], start;
    }

    method UpdateLimits(read: Option<int>, write: Option<int>)
      requires Valid()
      modifies this`readLimit, this`writeLimit
      ensures Valid()
      ensures readLimit == read.GetOr(old(readLimit))
      ensures writeLimit == write.GetOr(old(writeLimit))
    {
      if read.Some? {
        readLimit := read.value;
      }
      if write.Some? {
        writeLimit := write.value;
      }
    }

    /** Drops the requests of `id` that left the window, and the bucket once it is empty. */
    method PruneBucket(id: BucketId, now: int)
      requires Valid() && clock == now
      modifies this`order, this`requests
      ensures Valid()
      ensures Queue(requests, id) == Recent(Times(history, id), now, window)
    {
      ghost var times := Times(history, id);
      TimesSorted(history, id, now);
      assert Pruned(times, Queue(requests, id), now, window);
      if id in requests {
        var queue := DropStale(requests[id], now, window, times);
        PrunedIsRecent(times, queue, now, window);
        PruneKeepsRefines(history, requests, id, queue, now, window);
        if queue == [] {
          var i := IndexOf(order, id);
          PopKeepsOrder(order, requests, i);
          order, requests := RemoveAt(order, i), requests - {id};
        } else {
          SameLastKeepsOrder(order, requests, id, queue);
          requests := requests[id := queue];
        }
      } else {
        PrunedIsRecent(times, [], now, window);
      }
    }

    /** Pops the head of a full map if it left the window; tells whether it did. */
    method ReclaimHead(now: int) returns (reclaimed: bool)
      requires Valid() && clock == now && |order| == maxStateEntries
      modifies this`order, this`requests
      ensures Valid()
      ensures reclaimed == (|ActiveBuckets(history, now, window)| < maxStateEntries)
      ensures reclaimed ==> order == old(order)[1..] && requests == old(requests) - {old(order)[0]}
      ensures !reclaimed ==> order == old(order) && requests == old(requests)
    {
      HeadDecides(history, order, requests, now, window);
      var oldest := order[0];
      reclaimed := now - Last(requests[oldest]) >= window;
      if reclaimed {
        StaleQueueMayGo(history, requests, oldest, now, window);
        PruneKeepsRefines(history, requests, oldest, [], now, window);
        PopKeepsOrder(order, requests, 0);
        assert RemoveAt(order, 0) == order[1..];
        order, requests := order[1..], requests - {oldest};
      }
    }

    method Allow(user: string, verb: string, now: int) returns (allowed: bool)
      requires Valid() && clock <= now
      modifies this`order, this`requests, this`history, this`clock
      ensures Valid() && clock == now
      ensures var id := BucketId(user, IsReadMethod(Upper(verb)));
              var limit := if id.read then readLimit else writeLimit;
              && allowed == Admits(old(history), id, limit, now, window, maxStateEntries)
              && history == old(history) + (if allowed then [Admission(id, now)] else [])
    {
      LaterKeepsRefines(history, requests, clock, now, window);
      clock := now;
      var id := BucketId(user, IsReadMethod(Upper(verb)));
      PruneBucket(id, now);
      allowed := AllowPruned(id, if id.read then readLimit else writeLimit, now);
    }

    /** The part of `allow` after the pruning of the bucket. */
    method AllowPruned(id: BucketId, limit: int, now: int) returns (allowed: bool)
      requires Valid() && clock == now && Queue(requests, id) == Recent(Times(history, id), now, window)
      modifies this`order, this`requests, this`history
      ensures Valid()
      ensures allowed == Admits(old(history), id, limit, now, window, maxStateEntries)
      ensures history == old(history) + (if allowed then [Admission(id, now)] else [])
    {
      if limit <= 0 {
        return false;
      }
      var room := MakeRoom(id, now);
      if !room || |Queue(requests, id)| >= limit {
        return false;
      }
      Admit(id, now);
      return true;
    }

    /** An unseen bucket needs a slot: a spare one, or that of the head if it left the window. */
    method MakeRoom(id: BucketId, now: int) returns (room: bool)
      requires Valid() && clock == now && Queue(requests, id) == Recent(Times(history, id), now, window)
      modifies this`order, this`requests
      ensures Valid()
      ensures var active := ActiveBuckets(history, now, window);
              room == (id in active || |active| < maxStateEntries)
      ensures room ==> id in requests || |order| < maxStateEntries
      ensures Queue(requests, id) == Queue(old(requests), id)
    {
      ActiveIffRecent(history, id, now, window);
      if id !in requests && |order| >= maxStateEntries {
        room := ReclaimHead(now);
      } else {
        SpareSlot(history, order, requests, now, window);
        room := true;
      }
    }

    /** Appends the request and moves the bucket to the end of the map, creating it if needed. */
    method Admit(id: BucketId, now: int)
      requires Valid() && clock == now
      requires id !in requests ==> |order| < maxStateEntries
      modifies this`order, this`requests, this`history
      ensures Valid()
      ensures history == old(history) + [Admission(id, now)]
      ensures requests == old(requests)[id := Queue(old(requests), id) + [now]]
    {
      var queue := Queue(requests, id) + [now];
      AdmitKeepsRefines(history, requests, id, now, window);
      LastsAreOld(history, requests, now, window);
      if id in requests {
        var i := IndexOf(order, id);
        PopKeepsOrder(order, requests, i);
        TouchKeepsOrder(RemoveAt(order, i), requests - {id}, id, queue);
        assert (requests - {id})[id := queue] == requests[id := queue];
        order := RemoveAt(order, i) + [id];
      } else {
        TouchKeepsOrder(order, requests, id, queue);
        order := order + [id];
      }
      requests := requests[id := queue];
      history := history + [Admission(id, now)];
    }
  }

  /** The loop that pops the head of a deque while it is out of the window. */
  method DropStale(queue: seq<int>, now: int, window: int, ghost times: seq<int>) returns (rest: seq<int>)
    requires Pruned(times, queue, now, window)
    ensures Pruned(times, rest, now, window)
    ensures rest == [] || now - rest[0] < window
  {
    rest := queue;
    while rest != [] && now - rest[0] >= window
      invariant Pruned(times, rest, now, window)
      decreases |rest|
    {
      ghost var k := |times| - |rest|;
      assert rest[0] == times[k];
      rest := rest[1..];
      assert rest == times[k + 1..];
    }
  }

  lemma StaleQueueMayGo(history: seq<Admission>, requests: map<BucketId, seq<int>>, id: BucketId, now: int, window: int)
    requires Chronological(history, now) && Refines(history, requests, now, window)
    requires id in requests && requests[id] != [] && now - Last(requests[id]) >= window
    ensures Pruned(Times(history, id), [], now, window)
  {
    var times, queue := Times(history, id), Queue(requests, id);
    TimesSorted(history, id, now);
    assert Pruned(times, queue, now, window);
    assert Last(queue) == times[|times| - 1];
  }

  lemma LastsAreOld(history: seq<Admission>, requests: map<BucketId, seq<int>>, now: int, window: int)
    requires Chronological(history, now) && Refines(history, requests, now, window)
    ensures forall id :: id in requests && requests[id] != [] ==> Last(requests[id]) <= now
  {
    forall id | id in requests && requests[id] != [] ensures Last(requests[id]) <= now {
      TimesSorted(history, id, now);
      assert Pruned(Times(history, id), Queue(requests, id), now, window);
    }
  }

  // ---------------------------------------------------------------------------
  // What the decision promises over whole runs
  // ---------------------------------------------------------------------------

  datatype Request = Request(bucket: BucketId, now: int, limit: int)

  /** The history after a run of requests, each decided by `Admits`. */
  function HistoryOf(run: seq<Request>, window: int, maxEntries: int): seq<Admission> {
    if run == [] then []
    else
      var r := run[|run| - 1];
      var before := HistoryOf(run[..|run| - 1], window, maxEntries);
      if Admits(before, r.bucket, r.limit, r.now, window, maxEntries)
      then before + [Admission(r.bucket, r.now)] else before
  }

  ghost predicate ClockedRun(run: seq<Request>, limit: int) {
    && (forall i, j :: 0 <= i < j < |run| ==> run[i].now <= run[j].now)
    && (forall i :: 0 <= i < |run| ==> run[i].limit <= limit)
  }

  /** How many of `times` fall into the half-open interval `(from, to]`. */
  function CountBetween(times: seq<int>, from: int, to: int): nat {
    if times == [] then 0
    else CountBetween(times[..|times| - 1], from, to)
         + (if from < times[|times| - 1] <= to then 1 else 0)
  }

  lemma {:induction false} HistoryIsChronological(run: seq<Request>, window: int, maxEntries: int, limit: int)
    requires ClockedRun(run, limit)
    ensures forall upTo :: (forall i :: 0 <= i < |run| ==> run[i].now <= upTo)
                           ==> Chronological(HistoryOf(run, window, maxEntries), upTo)
  {
    if run != [] {
      var front, r := run[..|run| - 1], run[|run| - 1];
      assert ClockedRun(front, limit);
      HistoryIsChronological(front, window, maxEntries, limit);
      assert Chronological(HistoryOf(front, window, maxEntries), r.now);
    }
  }

  lemma {:induction false} CountAtMostRecent(times: seq<int>, from: int, to: int, now: int, window: int)
    requires now - window <= from
    requires forall i :: 0 <= i < |times| ==> times[i] <= now
    ensures CountBetween(times, from, to) <= |Recent(times, now, window)|
  {
    if times != [] {
      var front, t := times[..|times| - 1], times[|times| - 1];
      CountAtMostRecent(front, from, to, now, window);
      assert times == front + [t];
      RecentConcat(front, [t], now, window);
      if from < t <= to {
        RecentOfFresh([t], now, window);
      }
    }
  }

  /** One more admission at `now` still fits under the limit it was admitted under. */
  lemma AdmissionFits(times: seq<int>, from: int, now: int, window: int, limit: nat)
    requires SortedTimes(times, now) && |Recent(times, now, window)| < limit
    requires from < now <= from + window
    ensures CountBetween(times + [now], from, from + window) <= limit
  {
    CountAtMostRecent(times, from, from + window, now, window);
    assert (times + [now])[..|times|] == times;
  }

  /**
   The promise of a sliding window: whatever the requests and however the limit moves below
   `limit`, no bucket gets more than `limit` admissions in any interval of one window length.
   */
  lemma {:induction false} WindowBound(run: seq<Request>, window: int, maxEntries: int, limit: nat, id: BucketId, from: int)
    requires ClockedRun(run, limit)
    ensures CountBetween(Times(HistoryOf(run, window, maxEntries), id), from, from + window) <= limit
  {
    if run != [] {
      var front, r := run[..|run| - 1], run[|run| - 1];
      assert ClockedRun(front, limit);
      WindowBound(front, window, maxEntries, limit, id, from);
      HistoryIsChronological(front, window, maxEntries, limit);
      var before := HistoryOf(front, window, maxEntries);
      assert Chronological(before, r.now);
      if Admits(before, r.bucket, r.limit, r.now, window, maxEntries) {
        WindowBoundStep(before, r, window, maxEntries, limit, id, from);
      }
    }
  }

  lemma WindowBoundStep(before: seq<Admission>, r: Request, window: int, maxEntries: int, limit: nat, id: BucketId, from: int)
    requires Chronological(before, r.now) && r.limit <= limit
    requires CountBetween(Times(before, id), from, from + window) <= limit
    requires Admits(before, r.bucket, r.limit, r.now, window, maxEntries)
    ensures CountBetween(Times(before + [Admission(r.bucket, r.now)], id), from, from + window) <= limit
  {
    var times := Times(before, id);
    TimesSnoc(before, Admission(r.bucket, r.now), id);
    if r.bucket != id {
      assert times + [] == times;
    } else if from < r.now <= from + window {
      TimesSorted(before, id, r.now);
      AdmissionFits(times, from, r.now, window, limit);
    } else {
      assert (times + [r.now])[..|times|] == times;
    }
  }

  /** At no instant of a run are more than `maxEntries` buckets active. */
  lemma {:induction false} ActiveBound(run: seq<Request>, window: int, maxEntries: nat, limit: int, now: int)
    requires ClockedRun(run, limit) && maxEntries >= 1
    requires forall i :: 0 <= i < |run| ==> run[i].now <= now
    ensures |ActiveBuckets(HistoryOf(run, window, maxEntries), now, window)| <= maxEntries
  {
    if run != [] {
      var front, r := run[..|run| - 1], run[|run| - 1];
      var before := HistoryOf(front, window, maxEntries);
      var history := HistoryOf(run, window, maxEntries);
      assert ClockedRun(front, limit);
      ActiveBound(front, window, maxEntries, limit, now);
      if history != before {
        var active := ActiveBuckets(before, r.now, window);
        ActiveBound(front, window, maxEntries, limit, r.now);
        assert ActiveBuckets(history, now, window) <= active + {r.bucket};
        SubsetSize(ActiveBuckets(history, now, window), active + {r.bucket});
        if r.bucket in active {
          assert active + {r.bucket} == active;
        } else {
          assert |active + {r.bucket}| == |active| + 1;
        }
      }
    }
  }

  // ---------------------------------------------------------------------------
  // Who keeps within the limits is always admitted
  // ---------------------------------------------------------------------------

  /** The requests as they would be admitted if all were. */
  function Asks(run: seq<Request>): (asks: seq<Admission>)
    ensures |asks| == |run|
  {
    if run == [] then [] else Asks(run[..|run| - 1]) + [Admission(run[|run| - 1].bucket, run[|run| - 1].now)]
  }

  function Buckets(run: seq<Request>): set<BucketId> {
    set r | r in run :: r.bucket
  }

  /** In no interval of one window length does a bucket ask more often than the limit. */
  ghost predicate WithinLimit(run: seq<Request>, window: int, limit: int) {
    forall id, from :: AsksIn(run, id, from, window) <= limit
  }

  function AsksIn(run: seq<Request>, id: BucketId, from: int, window: int): nat {
    CountBetween(Times(Asks(run), id), from, from + window)
  }

  lemma {:induction false} RecentIsCount(times: seq<int>, now: int, window: int)
    requires forall i :: 0 <= i < |times| ==> times[i] <= now
    ensures |Recent(times, now, window)| == CountBetween(times, now - window, now)
  {
    if times != [] {
      var front, t := times[..|times| - 1], times[|times| - 1];
      RecentIsCount(front, now, window);
      assert times == front + [t];
      RecentConcat(front, [t], now, window);
      assert Recent([t], now, window) == if now - t < window then [t] else [];
    }
  }

  lemma CountSnocBetween(times: seq<int>, t: int, from: int, to: int)
    ensures CountBetween(times + [t], from, to) == CountBetween(times, from, to) + if from < t <= to then 1 else 0
  {
    assert (times + [t])[..|times|] == times;
  }

  lemma AsksSnoc(run: seq<Request>, id: BucketId, from: int, window: int)
    requires run != []
    ensures var front, r := run[..|run| - 1], run[|run| - 1];
            AsksIn(run, id, from, window)
            == AsksIn(front, id, from, window) + if r.bucket == id && from < r.now <= from + window then 1 else 0
  {
    var front, r := run[..|run| - 1], run[|run| - 1];
    TimesSnoc(Asks(front), Admission(r.bucket, r.now), id);
    if r.bucket == id {
      CountSnocBetween(Times(Asks(front), id), r.now, from, from + window);
    } else {
      assert Times(Asks(front), id) + [] == Times(Asks(front), id);
    }
  }

  lemma {:induction false} AsksMembers(run: seq<Request>, a: Admission)
    requires a in Asks(run)
    ensures exists r :: r in run && r.bucket == a.bucket && r.now == a.time
  {
    var front, r := run[..|run| - 1], run[|run| - 1];
    assert run == front + [r];
    if a in Asks(front) {
      AsksMembers(front, a);
    } else {
      assert r in run;
    }
  }

  lemma AsksAreOld(run: seq<Request>, id: BucketId, now: int, i: nat)
    requires (forall k :: 0 <= k < |run| ==> run[k].now <= now) && i < |Times(Asks(run), id)|
    ensures Times(Asks(run), id)[i] <= now
  {
    var t := Times(Asks(run), id)[i];
    TimesMembers(Asks(run), id, t);
    AsksMembers(run, Admission(id, t));
  }

  lemma FewRecentAsks(run: seq<Request>, window: int, limit: int)
    requires run != [] && ClockedRun(run, limit) && limit > 0 && WithinLimit(run, window, limit)
    ensures var front, r := run[..|run| - 1], run[|run| - 1];
            |Recent(Times(Asks(front), r.bucket), r.now, window)| < limit
  {
    var front, r := run[..|run| - 1], run[|run| - 1];
    var times := Times(Asks(front), r.bucket);
    forall i | 0 <= i < |times| ensures times[i] <= r.now {
      AsksAreOld(front, r.bucket, r.now, i);
    }
    RecentIsCount(times, r.now, window);
    AsksSnoc(run, r.bucket, r.now - window, window);
    assert AsksIn(run, r.bucket, r.now - window, window) <= limit;
    if window <= 0 {
      NothingBetween(times, r.now - window, r.now);
    }
  }

  lemma LastIsAdmitted(run: seq<Request>, window: int, maxEntries: int, limit: int)
    requires run != [] && ClockedRun(run, limit) && limit > 0 && run[|run| - 1].limit == limit
    requires WithinLimit(run, window, limit) && |Buckets(run)| <= maxEntries
    ensures var front, r := run[..|run| - 1], run[|run| - 1];
            Admits(Asks(front), r.bucket, limit, r.now, window, maxEntries)
  {
    FewRecentAsks(run, window, limit);
    RoomForLast(run, window, maxEntries);
  }

  lemma {:induction false} NothingBetween(times: seq<int>, from: int, to: int)
    requires from >= to
    ensures CountBetween(times, from, to) == 0
  {
    if times != [] {
      NothingBetween(times[..|times| - 1], from, to);
    }
  }

  lemma RoomForLast(run: seq<Request>, window: int, maxEntries: int)
    requires run != [] && |Buckets(run)| <= maxEntries
    ensures var front, r := run[..|run| - 1], run[|run| - 1];
            var active := ActiveBuckets(Asks(front), r.now, window);
            r.bucket in active || |active| < maxEntries
  {
    var front, r := run[..|run| - 1], run[|run| - 1];
    var active := ActiveBuckets(Asks(front), r.now, window);
    assert run == front + [r] && r in run;
    forall id | id in active ensures id in Buckets(run) {
      var a :| a in Asks(front) && r.now - a.time < window && a.bucket == id;
      AsksMembers(front, a);
    }
    if r.bucket !in active {
      assert r.bucket in Buckets(run);
      ProperSubsetSize(active, Buckets(run));
    }
  }

  lemma FrontWithinLimit(run: seq<Request>, window: int, limit: int)
    requires run != [] && WithinLimit(run, window, limit)
    ensures WithinLimit(run[..|run| - 1], window, limit)
  {
    var front := run[..|run| - 1];
    forall id, from ensures AsksIn(front, id, from, window) <= limit {
      AsksSnoc(run, id, from, window);
      assert AsksIn(run, id, from, window) <= limit;
    }
  }

  /**
   The other half of the promise: if no bucket asks more than `limit` times in any interval of one
   window length and at most `maxEntries` buckets ever ask, every request is admitted.
   */
  lemma {:induction false} ModestRunsAreAdmitted(run: seq<Request>, window: int, maxEntries: int, limit: int)
    requires ClockedRun(run, limit) && limit > 0 && forall i :: 0 <= i < |run| ==> run[i].limit == limit
    requires WithinLimit(run, window, limit) && |Buckets(run)| <= maxEntries
    ensures HistoryOf(run, window, maxEntries) == Asks(run)
  {
    if run != [] {
      var front := run[..|run| - 1];
      FrontWithinLimit(run, window, limit);
      assert Buckets(front) <= Buckets(run);
      SubsetSize(Buckets(front), Buckets(run));
      ModestRunsAreAdmitted(front, window, maxEntries, limit);
      LastIsAdmitted(run, window, maxEntries, limit);
    }
  }
}
