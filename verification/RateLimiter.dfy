/** The sliding-window limiter over a Redis sorted set
    (src/infrastructure/rate_limit/redis_rate_limiter.py).

    Time is an integer number of ticks, `second` of them to a second, so that
    sub-second scores are covered. The application's clock and Redis's clock are
    separate: Redis's may run ahead of the application's by up to the TTL margin. */
module RateLimiter {
  import opened Wrappers

  type Uid = nat

  /** One key of Redis: scored members and the instant Redis drops the key. */
  datatype ZSet = ZSet(members: map<Uid, int>, expiresAt: int)

  const EMPTY := ZSet(map[], 0)

  datatype Limits = Limits(limit: int, window: nat, margin: nat, second: nat) {
    predicate Valid() {
      second >= 1
    }
  }

  datatype RateLimitResult = RateLimitResult(allowed: bool, retryAfterSeconds: int)

  function LiveMembers(z: ZSet, redisNow: int): map<Uid, int> {
    if redisNow < z.expiresAt then z.members else map[]
  }

  /** ZREMRANGEBYSCORE key -inf (now - window), on a key Redis has not dropped. */
  function Pruned(z: ZSet, now: int, redisNow: int, window: nat): (p: ZSet)
    ensures forall u :: u in p.members <==> u in LiveMembers(z, redisNow) && LiveMembers(z, redisNow)[u] > now - window
    ensures forall u :: u in p.members ==> p.members[u] == z.members[u]
  {
    var live := LiveMembers(z, redisNow);
    ZSet(map u | u in live && live[u] > now - window :: live[u], z.expiresAt)
  }

  /** ZADD then EXPIRE. */
  function Recorded(z: ZSet, uid: Uid, score: int, redisNow: int, limits: Limits): ZSet {
    ZSet(LiveMembers(z, redisNow)[uid := score], redisNow + limits.window + limits.margin)
  }

  /** Python's `int(a / b)`: division that drops the fraction. */
  function Truncated(a: int, b: nat): int
    requires b > 0
  {
    if a >= 0 then a / b else -(-a / b)
  }

  function RetryAfter(oldest: int, now: int, limits: Limits): int
    requires limits.Valid()
  {
    var hint := Truncated(oldest + limits.window - now, limits.second) + 1;
    if hint > 1 then hint else 1
  }

  ghost predicate IsOldest(members: map<Uid, int>, score: int) {
    (exists u :: u in members && members[u] == score) && forall u :: u in members ==> score <= members[u]
  }

  /** What an acquire leaves of its key: a denial records nothing. */
  function AfterAcquire(z: ZSet, limits: Limits, now: int, redisNow: int, uid: Uid): ZSet {
    var pruned := Pruned(z, now, redisNow, limits.window);
    if |pruned.members| < limits.limit then Recorded(pruned, uid, now, redisNow, limits) else pruned
  }

  /** The wait a denial names: that of an oldest event, or a second if there is
      none. */
  ghost predicate IsHint(members: map<Uid, int>, now: int, limits: Limits, seconds: int)
    requires limits.Valid()
  {
    if members == map[] then seconds == 1
    else exists oldest :: IsOldest(members, oldest) && seconds == RetryAfter(oldest, now, limits)
  }

  // ----- the limiter itself, one call at a time -----

  class RedisRateLimiter {
    var zsets: map<string, ZSet>

    constructor ()
      ensures zsets == map[]
    {
      zsets := map[];
    }

    function At(key: string): ZSet
      reads this
    {
      if key in zsets then zsets[key] else EMPTY
    }

    /** ZRANGE key 0 0 WITHSCORES. */
    method OldestScore(members: map<Uid, int>) returns (score: Option<int>)
      ensures score.None? <==> members == map[]
      ensures score.Some? ==> IsOldest(members, score.value)
    {
      var todo := members.Keys;
      score := None;
      while todo != {}
        invariant todo <= members.Keys
        invariant score.None? <==> todo == members.Keys
        invariant score.Some? ==> exists u :: u in members && members[u] == score.value
        invariant score.Some? ==> forall u :: u in members && u !in todo ==> score.value <= members[u]
        decreases todo
      {
        var u :| u in todo;
        if score.None? || members[u] < score.value {
          score := Some(members[u]);
        }
        todo := todo - {u};
      }
    }

    /** One `acquire` with nothing in between: the whole new state of Redis, the
        verdict, and the hint. Other keys are untouched, and a denial records
        nothing. */
    method Acquire(key: string, limits: Limits, now: int, redisNow: int, uid: Uid)
      returns (result: RateLimitResult)
      requires limits.Valid()
      requires uid !in At(key).members
      modifies this
      ensures var pruned := Pruned(old(At(key)), now, redisNow, limits.window);
              && (result.allowed <==> |pruned.members| < limits.limit)
              && zsets == old(zsets)[key := AfterAcquire(old(At(key)), limits, now, redisNow, uid)]
              && (!result.allowed ==> IsHint(pruned.members, now, limits, result.retryAfterSeconds))
    {
      var pruned := Pruned(At(key), now, redisNow, limits.window);
      zsets := zsets[key := pruned];
      if |pruned.members| >= limits.limit {
        var oldest := OldestScore(pruned.members);
        if oldest.Some? {
          return RateLimitResult(false, RetryAfter(oldest.value, now, limits));
        }
        return RateLimitResult(false, 1);
      }
      zsets := zsets[key := Recorded(pruned, uid, now, redisNow, limits)];
      return RateLimitResult(true, 0);
    }
  }

  // ----- many calls at once: check and record are separate steps -----

  /** One key under concurrent calls. `pending` are the calls that passed the
      check and have not recorded yet, with the time each read; `allowed` is
      every event ever recorded. */
  datatype State = State(now: int, redisNow: int, z: ZSet, pending: map<Uid, int>, allowed: map<Uid, int>)

  datatype Step =
    | Tick(elapsed: nat, redisElapsed: nat)
    | Check(uid: Uid)
    | Record(uid: Uid)
    | Abandon(uid: Uid)

  predicate ClocksAgree(s: State, limits: Limits) {
    0 <= s.redisNow - s.now <= limits.margin
  }

  predicate Enabled(s: State, step: Step, limits: Limits, n: nat) {
    match step
    case Tick(d, e) => ClocksAgree(s.(now := s.now + d, redisNow := s.redisNow + e), limits)
    case Check(uid) => uid !in s.pending && uid !in s.allowed && |s.pending| < n
    case Record(uid) => uid in s.pending
    case Abandon(uid) => uid in s.pending
  }

  function Apply(s: State, step: Step, limits: Limits): State
    requires step.Record? ==> step.uid in s.pending
  {
    match step
    case Tick(d, e) => s.(now := s.now + d, redisNow := s.redisNow + e)
    case Check(uid) =>
      var pruned := Pruned(s.z, s.now, s.redisNow, limits.window);
      if |pruned.members| >= limits.limit then s.(z := pruned)
      else s.(z := pruned, pending := s.pending[uid := s.now])
    case Record(uid) =>
      s.(z := Recorded(s.z, uid, s.pending[uid], s.redisNow, limits),
         allowed := s.allowed[uid := s.pending[uid]],
         pending := s.pending - {uid})
    case Abandon(uid) => s.(pending := s.pending - {uid})
  }

  predicate Initial(s: State, limits: Limits) {
    s.z.members == map[] && s.pending == map[] && s.allowed == map[] && ClocksAgree(s, limits)
  }

  ghost predicate IsRun(run: seq<State>, limits: Limits, n: nat) {
    && run != [] && Initial(run[0], limits)
    && forall i :: 0 <= i < |run| - 1 ==> Follows(run[i], run[i + 1], limits, n)
  }

  ghost predicate Follows(s: State, s': State, limits: Limits, n: nat) {
    exists step :: Enabled(s, step, limits, n) && s' == Apply(s, step, limits)
  }

  ghost predicate Reachable(s: State, limits: Limits, n: nat) {
    exists run :: IsRun(run, limits, n) && run[|run| - 1] == s
  }

  /** Every event a caller was or will be told is allowed. */
  function Events(s: State): map<Uid, int> {
    s.allowed + s.pending
  }

  function InWindow(events: map<Uid, int>, start: int, window: nat): set<Uid> {
    set u | u in events && start < events[u] <= start + window
  }

  function Bound(limits: Limits, n: nat): int {
    if limits.limit >= 1 then limits.limit + n - 1 else 0
  }

  /** Each recorded event still in the window is in the stored set, and Redis
      has not dropped that set. */
  ghost predicate Covered(s: State, limits: Limits) {
    forall u :: u in s.allowed && s.allowed[u] > s.now - limits.window ==>
                  u in LiveMembers(s.z, s.redisNow) && LiveMembers(s.z, s.redisNow)[u] == s.allowed[u]
  }

  ghost predicate WindowsBounded(s: State, limits: Limits, n: nat) {
    forall start :: |InWindow(Events(s), start, limits.window)| <= Bound(limits, n)
  }

  ghost predicate Bookkeeping(s: State, limits: Limits, n: nat) {
    && ClocksAgree(s, limits)
    && s.pending.Keys !! s.allowed.Keys
    && |s.pending| <= n
    && (forall u :: u in s.pending ==> s.pending[u] <= s.now)
    && (forall u :: u in s.allowed ==> s.allowed[u] <= s.now)
    && (forall u :: u in s.z.members ==> u in s.allowed && s.z.members[u] == s.allowed[u])
    && (forall u :: u in s.allowed ==> s.allowed[u] + limits.window + limits.margin <= s.z.expiresAt)
    && (forall u :: u in s.allowed && s.allowed[u] > s.now - limits.window ==> u in s.z.members)
  }

  ghost predicate Inv(s: State, limits: Limits, n: nat) {
    Bookkeeping(s, limits, n) && WindowsBounded(s, limits, n)
  }

  lemma BookkeepingMeansCovered(s: State, limits: Limits, n: nat)
    requires Bookkeeping(s, limits, n)
    ensures Covered(s, limits)
  {
  }

  lemma CheckKeepsBookkeeping(s: State, uid: Uid, limits: Limits, n: nat)
    requires Bookkeeping(s, limits, n) && Enabled(s, Check(uid), limits, n)
    ensures Bookkeeping(Apply(s, Check(uid), limits), limits, n)
  {
    var pruned := Pruned(s.z, s.now, s.redisNow, limits.window);
    PruneKeepsBookkeeping(s, limits, n);
    if |pruned.members| < limits.limit {
      PassKeepsBookkeeping(s.(z := pruned), uid, limits, n);
    }
  }

  lemma PruneKeepsBookkeeping(s: State, limits: Limits, n: nat)
    requires Bookkeeping(s, limits, n)
    ensures Bookkeeping(s.(z := Pruned(s.z, s.now, s.redisNow, limits.window)), limits, n)
  {
    BookkeepingMeansCovered(s, limits, n);
  }

  lemma PassKeepsBookkeeping(s: State, uid: Uid, limits: Limits, n: nat)
    requires Bookkeeping(s, limits, n) && Enabled(s, Check(uid), limits, n)
    ensures Bookkeeping(s.(pending := s.pending[uid := s.now]), limits, n)
  {
    OneMoreCall(s.pending, uid, s.now);
  }

  lemma OneMoreCall(pending: map<Uid, int>, uid: Uid, at: int)
    requires uid !in pending
    ensures pending[uid := at].Keys == pending.Keys + {uid}
    ensures |pending[uid := at]| == |pending| + 1
  {
    assert |pending[uid := at].Keys| == |pending.Keys| + 1;
  }

  /** The heart of the bound: the events of a window around now are either in
      the pruned set, fewer than the limit, or still in flight, fewer than n. */
  lemma WindowHasRoom(s: State, start: int, limits: Limits, n: nat)
    requires Bookkeeping(s, limits, n)
    requires start < s.now <= start + limits.window
    ensures |InWindow(Events(s), start, limits.window)|
            <= |Pruned(s.z, s.now, s.redisNow, limits.window).members| + |s.pending|
  {
    var pruned := Pruned(s.z, s.now, s.redisNow, limits.window);
    BookkeepingMeansCovered(s, limits, n);
    UnionSize(InWindow(Events(s), start, limits.window), pruned.members.Keys, s.pending.Keys);
  }

  lemma OneMoreEvent(events: map<Uid, int>, uid: Uid, score: int, start: int, window: nat)
    requires uid !in events
    ensures |InWindow(events[uid := score], start, window)|
            == |InWindow(events, start, window)| + if start < score <= start + window then 1 else 0
  {
    assert InWindow(events[uid := score], start, window)
           == InWindow(events, start, window) + if start < score <= start + window then {uid} else {};
  }

  lemma CheckKeepsWindow(s: State, uid: Uid, start: int, limits: Limits, n: nat)
    requires Bookkeeping(s, limits, n) && Enabled(s, Check(uid), limits, n)
    requires |Pruned(s.z, s.now, s.redisNow, limits.window).members| < limits.limit
    requires |InWindow(Events(s), start, limits.window)| <= Bound(limits, n)
    ensures |InWindow(Events(s)[uid := s.now], start, limits.window)| <= Bound(limits, n)
  {
    OneMoreEvent(Events(s), uid, s.now, start, limits.window);
    if start < s.now <= start + limits.window {
      WindowHasRoom(s, start, limits, n);
    }
  }

  lemma CheckKeepsWindows(s: State, uid: Uid, limits: Limits, n: nat)
    requires Inv(s, limits, n) && Enabled(s, Check(uid), limits, n)
    ensures WindowsBounded(Apply(s, Check(uid), limits), limits, n)
  {
    var s' := Apply(s, Check(uid), limits);
    if |Pruned(s.z, s.now, s.redisNow, limits.window).members| < limits.limit {
      CheckAddsEvent(s, uid, limits);
      forall start
        ensures |InWindow(Events(s'), start, limits.window)| <= Bound(limits, n)
      {
        CheckKeepsWindow(s, uid, start, limits, n);
      }
    } else {
      SameEvents(s, s', limits, n);
    }
  }

  lemma CheckAddsEvent(s: State, uid: Uid, limits: Limits)
    requires |Pruned(s.z, s.now, s.redisNow, limits.window).members| < limits.limit
    ensures Events(Apply(s, Check(uid), limits)) == Events(s)[uid := s.now]
  {
    var s' := Apply(s, Check(uid), limits);
    assert s'.allowed == s.allowed && s'.pending == s.pending[uid := s.now];
    MergeThenPut(s.allowed, s.pending, uid, s.now);
  }

  lemma MergeThenPut(a: map<Uid, int>, b: map<Uid, int>, uid: Uid, score: int)
    ensures a + b[uid := score] == (a + b)[uid := score]
  {
  }

  lemma SameEvents(s: State, s': State, limits: Limits, n: nat)
    requires WindowsBounded(s, limits, n) && Events(s') == Events(s)
    ensures WindowsBounded(s', limits, n)
  {
  }

  lemma UnionSize(part: set<Uid>, a: set<Uid>, b: set<Uid>)
    requires part <= a + b
    ensures |part| <= |a| + |b|
  {
    SubsetSize(part, a + b);
    assert a + b == a + (b - a);
    SubsetSize(b - a, b);
  }

  lemma {:induction false} SubsetSize(part: set<Uid>, whole: set<Uid>)
    requires part <= whole
    ensures |part| <= |whole|
  {
    if part != {} {
      var u :| u in part;
      SubsetSize(part - {u}, whole - {u});
    }
  }

  lemma RecordKeepsBookkeeping(s: State, uid: Uid, limits: Limits, n: nat)
    requires Bookkeeping(s, limits, n) && Enabled(s, Record(uid), limits, n)
    ensures Bookkeeping(Apply(s, Record(uid), limits), limits, n)
  {
    SubsetSize(s.pending.Keys - {uid}, s.pending.Keys);
    BookkeepingMeansCovered(s, limits, n);
  }

  lemma AbandonKeepsInv(s: State, uid: Uid, limits: Limits, n: nat)
    requires Inv(s, limits, n) && Enabled(s, Abandon(uid), limits, n)
    ensures Inv(Apply(s, Abandon(uid), limits), limits, n)
  {
    var s' := Apply(s, Abandon(uid), limits);
    SubsetSize(s'.pending.Keys, s.pending.Keys);
    forall start
      ensures |InWindow(Events(s'), start, limits.window)| <= Bound(limits, n)
    {
      SubsetSize(InWindow(Events(s'), start, limits.window), InWindow(Events(s), start, limits.window));
    }
  }

  lemma StepKeepsInv(s: State, step: Step, limits: Limits, n: nat)
    requires Inv(s, limits, n) && Enabled(s, step, limits, n)
    ensures Inv(Apply(s, step, limits), limits, n)
  {
    match step
    case Tick(_, _) =>
      SameEvents(s, Apply(s, step, limits), limits, n);
    case Check(uid) =>
      CheckKeepsBookkeeping(s, uid, limits, n);
      CheckKeepsWindows(s, uid, limits, n);
    case Record(uid) =>
      RecordKeepsBookkeeping(s, uid, limits, n);
      RecordKeepsEvents(s, uid, limits);
      SameEvents(s, Apply(s, step, limits), limits, n);
    case Abandon(uid) =>
      AbandonKeepsInv(s, uid, limits, n);
  }

  lemma RecordKeepsEvents(s: State, uid: Uid, limits: Limits)
    requires uid in s.pending && s.pending.Keys !! s.allowed.Keys
    ensures Events(Apply(s, Record(uid), limits)) == Events(s)
  {
  }

  lemma {:induction false} RunKeepsInv(run: seq<State>, limits: Limits, n: nat)
    requires IsRun(run, limits, n)
    ensures Inv(run[|run| - 1], limits, n)
  {
    if |run| == 1 {
      forall start
        ensures |InWindow(Events(run[0]), start, limits.window)| <= Bound(limits, n)
      {
        assert InWindow(Events(run[0]), start, limits.window) == {};
      }
    } else {
      var i := |run| - 2;
      RunKeepsInv(run[..i + 1], limits, n);
      assert Follows(run[i], run[i + 1], limits, n);
      var step :| Enabled(run[i], step, limits, n) && run[i + 1] == Apply(run[i], step, limits);
      StepKeepsInv(run[i], step, limits, n);
    }
  }

  /** In every interleaving of at most n in-flight calls, no window of the
      configured length holds more than limit + n - 1 allowed events (so at
      most limit when calls do not overlap), and the stored set with its expiry
      always holds every allowed event still in the window. */
  lemma WindowBound(s: State, limits: Limits, n: nat, start: int)
    requires Reachable(s, limits, n)
    ensures |InWindow(s.allowed, start, limits.window)| <= Bound(limits, n)
    ensures Covered(s, limits)
  {
    var run :| IsRun(run, limits, n) && run[|run| - 1] == s;
    RunKeepsInv(run, limits, n);
    SubsetSize(InWindow(s.allowed, start, limits.window), InWindow(Events(s), start, limits.window));
    BookkeepingMeansCovered(s, limits, n);
  }

  // ----- the limiter object runs this protocol -----

  /** An acquire that nothing interrupts is the protocol's own steps: the check,
      and the record if the check passed. */
  lemma AcquireIsSteps(s: State, limits: Limits, uid: Uid)
    requires uid !in s.pending
    ensures var checked := Apply(s, Check(uid), limits);
            && (uid in checked.pending
                <==> |Pruned(s.z, s.now, s.redisNow, limits.window).members| < limits.limit)
            && AfterAcquire(s.z, limits, s.now, s.redisNow, uid)
               == if uid in checked.pending then Apply(checked, Record(uid), limits).z else checked.z
  {
  }

  /** One acquire of a sequence of calls on a key. */
  datatype Acquired = Acquired(now: int, redisNow: int, uid: Uid)

  /** Calls in the order they are made: neither clock goes back, the two agree up
      to the margin, and each call brings a fresh uuid. */
  predicate InTurn(calls: seq<Acquired>, limits: Limits) {
    && (forall i :: 0 <= i < |calls| ==> 0 <= calls[i].redisNow - calls[i].now <= limits.margin)
    && (forall i, j :: 0 <= i < j < |calls| ==>
          calls[i].now <= calls[j].now && calls[i].redisNow <= calls[j].redisNow && calls[i].uid != calls[j].uid)
  }

  /** What the calls leave of the key, and which of them were allowed, when. */
  function Served(calls: seq<Acquired>, limits: Limits): (ZSet, map<Uid, int>) {
    if calls == [] then (EMPTY, map[])
    else
      var (z, allowed) := Served(calls[..|calls| - 1], limits);
      var c := calls[|calls| - 1];
      (AfterAcquire(z, limits, c.now, c.redisNow, c.uid),
       if Passes(z, c.now, c.redisNow, limits) then allowed[c.uid := c.now] else allowed)
  }

  function StateAfter(calls: seq<Acquired>, limits: Limits): State
    requires calls != []
  {
    var (z, allowed) := Served(calls, limits);
    State(calls[|calls| - 1].now, calls[|calls| - 1].redisNow, z, map[], allowed)
  }

  lemma {:induction false} ServedKnowsItsCalls(calls: seq<Acquired>, limits: Limits)
    ensures forall u :: u in Served(calls, limits).1 ==>
              exists i :: 0 <= i < |calls| && calls[i].uid == u && calls[i].now == Served(calls, limits).1[u]
  {
    if calls != [] {
      var front, c := calls[..|calls| - 1], calls[|calls| - 1];
      ServedKnowsItsCalls(front, limits);
      forall u | u in Served(calls, limits).1
        ensures exists i :: 0 <= i < |calls| && calls[i].uid == u && calls[i].now == Served(calls, limits).1[u]
      {
        if u in Served(front, limits).1 && u != c.uid {
          var i :| 0 <= i < |front| && front[i].uid == u && front[i].now == Served(front, limits).1[u];
          assert calls[i] == front[i];
        } else {
          assert calls[|calls| - 1].uid == u;
        }
      }
    }
  }

  /** One more call, from any state of the protocol with none in flight. */
  lemma ServeOne(s: State, c: Acquired, limits: Limits) returns (s': State)
    requires Reachable(s, limits, 1) && s.pending == map[] && c.uid !in s.allowed
    requires c.now == s.now && c.redisNow == s.redisNow
    ensures Reachable(s', limits, 1)
    ensures s' == State(c.now, c.redisNow, AfterAcquire(s.z, limits, c.now, c.redisNow, c.uid), map[],
                        if Passes(s.z, c.now, c.redisNow, limits) then s.allowed[c.uid := c.now] else s.allowed)
  {
    AcquireIsSteps(s, limits, c.uid);
    s' := Apply(s, Check(c.uid), limits);
    assert Enabled(s, Check(c.uid), limits, 1);
    Extend(s, s', limits, 1);
    if Passes(s.z, c.now, c.redisNow, limits) {
      var checked := s';
      s' := Apply(checked, Record(c.uid), limits);
      assert Enabled(checked, Record(c.uid), limits, 1);
      Extend(checked, s', limits, 1);
      assert checked.pending == map[c.uid := c.now] && checked.pending - {c.uid} == map[];
    }
  }

  lemma Waited(s: State, now: int, redisNow: int, limits: Limits)
    requires Reachable(s, limits, 1) && now >= s.now && redisNow >= s.redisNow && 0 <= redisNow - now <= limits.margin
    ensures Reachable(s.(now := now, redisNow := redisNow), limits, 1)
  {
    var s' := s.(now := now, redisNow := redisNow);
    assert Enabled(s, Tick(now - s.now, redisNow - s.redisNow), limits, 1);
    assert Apply(s, Tick(now - s.now, redisNow - s.redisNow), limits) == s';
    Extend(s, s', limits, 1);
  }

  /** Any sequence of calls of the limiter object is a run of the protocol in which
      no two overlap. */
  lemma {:induction false} CallsAreARun(calls: seq<Acquired>, limits: Limits)
    requires calls != [] && InTurn(calls, limits)
    ensures Reachable(StateAfter(calls, limits), limits, 1)
    decreases |calls|
  {
    var front, c := calls[..|calls| - 1], calls[|calls| - 1];
    var s := State(c.now, c.redisNow, EMPTY, map[], map[]);
    if front == [] {
      assert IsRun([s], limits, 1) && [s][|[s]| - 1] == s;
    } else {
      CallsAreARun(front, limits);
      Waited(StateAfter(front, limits), c.now, c.redisNow, limits);
      s := StateAfter(front, limits).(now := c.now, redisNow := c.redisNow);
    }
    NotYetServed(calls, limits);
    var s' := ServeOne(s, c, limits);
  }

  lemma NotYetServed(calls: seq<Acquired>, limits: Limits)
    requires calls != [] && InTurn(calls, limits)
    ensures calls[|calls| - 1].uid !in Served(calls[..|calls| - 1], limits).1
  {
    ServedKnowsItsCalls(calls[..|calls| - 1], limits);
  }

  /** However often the limiter is called on a key, one call after another, every
      window holds at most the limit of allowed calls; and a call is refused only
      when the window ending with it already holds the limit. */
  lemma {:induction false} CallsAreLimited(calls: seq<Acquired>, limits: Limits, start: int)
    requires calls != [] && InTurn(calls, limits) && limits.limit >= 1
    ensures |InWindow(Served(calls, limits).1, start, limits.window)| <= limits.limit
    ensures var c, before := calls[|calls| - 1], Served(calls[..|calls| - 1], limits).1;
            c.uid in Served(calls, limits).1
            <==> |InWindow(before, c.now - limits.window, limits.window)| < limits.limit
  {
    CallsAreARun(calls, limits);
    WindowBound(StateAfter(calls, limits), limits, 1, start);
    NotYetServed(calls, limits);
    LastCallSeesItsWindow(calls, limits);
  }

  lemma {:induction false} LastCallSeesItsWindow(calls: seq<Acquired>, limits: Limits)
    requires calls != [] && InTurn(calls, limits)
    ensures var c, before := calls[|calls| - 1], Served(calls[..|calls| - 1], limits);
            Passes(before.0, c.now, c.redisNow, limits)
            <==> |InWindow(before.1, c.now - limits.window, limits.window)| < limits.limit
  {
    var front, c := calls[..|calls| - 1], calls[|calls| - 1];
    if front == [] {
      NothingSeen(c.now, c.redisNow, limits);
    } else {
      TurnsBeforeLast(calls, limits);
      CallsAreARun(front, limits);
      LaterCheckSeesTheWindow(StateAfter(front, limits), c.now, c.redisNow, limits);
    }
  }

  lemma TurnsBeforeLast(calls: seq<Acquired>, limits: Limits)
    requires |calls| >= 2 && InTurn(calls, limits)
    ensures var front, c := calls[..|calls| - 1], calls[|calls| - 1];
            InTurn(front, limits)
            && front[|front| - 1].now <= c.now && front[|front| - 1].redisNow <= c.redisNow
            && 0 <= c.redisNow - c.now <= limits.margin
  {
  }

  lemma NothingSeen(now: int, redisNow: int, limits: Limits)
    ensures |Pruned(EMPTY, now, redisNow, limits.window).members| == 0
    ensures InWindow(map[], now - limits.window, limits.window) == {}
  {
    assert Pruned(EMPTY, now, redisNow, limits.window).members == map[];
  }

  /** Whenever it comes, pruning leaves as many members as there are events in
      the window. */
  lemma LaterCheckSeesTheWindow(s: State, now: int, redisNow: int, limits: Limits)
    requires Reachable(s, limits, 1) && now >= s.now && redisNow >= s.redisNow && 0 <= redisNow - now <= limits.margin
    ensures |Pruned(s.z, now, redisNow, limits.window).members|
            == |InWindow(s.allowed, now - limits.window, limits.window)|
  {
    Waited(s, now, redisNow, limits);
    PrunedIsWindow(s.(now := now, redisNow := redisNow), limits, 1);
    var members := Pruned(s.z, now, redisNow, limits.window).members;
    assert |members| == |members.Keys|;
  }

  // ----- the bound is reached -----

  function AllAtZero(ids: set<Uid>): map<Uid, int> {
    map u | u in ids :: 0
  }

  /** `done` recorded and `open` past the check, all at time 0. */
  function Crowd(done: set<Uid>, open: set<Uid>, limits: Limits): State {
    State(0, 0,
          ZSet(AllAtZero(done), if done == {} then 0 else limits.window + limits.margin),
          AllAtZero(open),
          AllAtZero(done))
  }

  lemma CrowdSizes(ids: set<Uid>)
    ensures |AllAtZero(ids)| == |ids|
  {
    assert AllAtZero(ids).Keys == ids;
  }

  lemma Extend(s: State, s': State, limits: Limits, n: nat)
    requires Reachable(s, limits, n) && Follows(s, s', limits, n)
    ensures Reachable(s', limits, n)
  {
    var run :| IsRun(run, limits, n) && run[|run| - 1] == s;
    var longer := run + [s'];
    forall i | 0 <= i < |longer| - 1
      ensures Follows(longer[i], longer[i + 1], limits, n)
    {
      if i < |run| - 1 {
        assert Follows(run[i], run[i + 1], limits, n);
      }
    }
    assert IsRun(longer, limits, n);
  }

  lemma CrowdPruned(done: set<Uid>, open: set<Uid>, limits: Limits)
    requires limits.window >= 1
    ensures Pruned(Crowd(done, open, limits).z, 0, 0, limits.window) == Crowd(done, open, limits).z
    ensures LiveMembers(Crowd(done, open, limits).z, 0) == AllAtZero(done)
  {
    var z := Crowd(done, open, limits).z;
    if done == {} {
      assert z.members == map[];
    }
    assert LiveMembers(z, 0) == z.members;
    assert Pruned(z, 0, 0, limits.window).members == z.members;
  }

  lemma OneMoreChecks(done: set<Uid>, open: set<Uid>, u: Uid, limits: Limits, n: nat)
    requires limits.window >= 1 && |done| < limits.limit && |open| < n && u !in done + open
    requires Reachable(Crowd(done, open, limits), limits, n)
    ensures Reachable(Crowd(done, open + {u}, limits), limits, n)
  {
    var s, s' := Crowd(done, open, limits), Crowd(done, open + {u}, limits);
    CrowdChecks(done, open, u, limits, n);
    assert Follows(s, s', limits, n);
    Extend(s, s', limits, n);
  }

  lemma CrowdChecks(done: set<Uid>, open: set<Uid>, u: Uid, limits: Limits, n: nat)
    requires limits.window >= 1 && |done| < limits.limit && |open| < n && u !in done + open
    ensures Enabled(Crowd(done, open, limits), Check(u), limits, n)
    ensures Apply(Crowd(done, open, limits), Check(u), limits) == Crowd(done, open + {u}, limits)
  {
    CrowdSizes(done);
    CrowdSizes(open);
    CrowdPruned(done, open, limits);
    assert AllAtZero(open)[u := 0] == AllAtZero(open + {u});
  }

  lemma CrowdRecords(done: set<Uid>, open: set<Uid>, u: Uid, limits: Limits)
    requires limits.window >= 1 && u in open
    ensures u in Crowd(done, open, limits).pending
    ensures Apply(Crowd(done, open, limits), Record(u), limits) == Crowd(done + {u}, open - {u}, limits)
  {
    CrowdPruned(done, open, limits);
    assert AllAtZero(done)[u := 0] == AllAtZero(done + {u});
    assert AllAtZero(open) - {u} == AllAtZero(open - {u});
  }

  lemma OneMoreRecords(done: set<Uid>, open: set<Uid>, u: Uid, limits: Limits, n: nat)
    requires limits.window >= 1 && u in open
    requires Reachable(Crowd(done, open, limits), limits, n)
    ensures Reachable(Crowd(done + {u}, open - {u}, limits), limits, n)
  {
    CrowdRecords(done, open, u, limits);
    var s, s' := Crowd(done, open, limits), Crowd(done + {u}, open - {u}, limits);
    assert Enabled(s, Record(u), limits, n);
    assert Follows(s, s', limits, n);
    Extend(s, s', limits, n);
  }

  /** A uid larger than every one used. */
  lemma {:induction false} FreshUid(ids: set<Uid>) returns (u: Uid)
    ensures forall v :: v in ids ==> v < u
  {
    u := 0;
    if ids != {} {
      var v :| v in ids;
      u := FreshUid(ids - {v});
      assert forall w :: w in ids ==> w == v || w in ids - {v};
      u := if v < u then u else v + 1;
    }
  }

  /** Up to limit - 1 calls, one after another. */
  lemma {:induction false} SequentialCrowd(k: nat, limits: Limits, n: nat) returns (done: set<Uid>)
    requires limits.window >= 1 && n >= 1 && k <= limits.limit
    ensures |done| == k && Reachable(Crowd(done, {}, limits), limits, n)
  {
    done := {};
    if k == 0 {
      var s := Crowd({}, {}, limits);
      assert IsRun([s], limits, n) && [s][|[s]| - 1] == s;
    } else {
      done := SequentialCrowd(k - 1, limits, n);
      var u := FreshUid(done);
      OneMoreChecks(done, {}, u, limits, n);
      OneMoreRecords(done, {} + {u}, u, limits, n);
      assert {} + {u} - {u} == {};
      done := done + {u};
    }
  }

  /** Then n calls that all check before any of them records. */
  lemma {:induction false} OverlappingCrowd(done: set<Uid>, p: nat, limits: Limits, n: nat) returns (open: set<Uid>)
    requires limits.window >= 1 && |done| < limits.limit && p <= n
    requires Reachable(Crowd(done, {}, limits), limits, n)
    ensures |open| == p && open !! done && Reachable(Crowd(done, open, limits), limits, n)
  {
    open := {};
    if p > 0 {
      open := OverlappingCrowd(done, p - 1, limits, n);
      var u := FreshUid(done + open);
      OneMoreChecks(done, open, u, limits, n);
      open := open + {u};
    }
  }

  lemma {:induction false} EveryoneRecords(done: set<Uid>, open: set<Uid>, limits: Limits, n: nat)
    returns (all: set<Uid>)
    requires limits.window >= 1 && done !! open
    requires Reachable(Crowd(done, open, limits), limits, n)
    ensures |all| == |done| + |open| && Reachable(Crowd(all, {}, limits), limits, n)
    decreases open
  {
    all := done;
    if open != {} {
      var u :| u in open;
      OneMoreRecords(done, open, u, limits, n);
      all := EveryoneRecords(done + {u}, open - {u}, limits, n);
    }
  }

  /** The bound is exact: with n callers in flight, limit + n - 1 events do get
      into one window. */
  lemma BoundIsReached(limits: Limits, n: nat) returns (s: State)
    requires limits.window >= 1 && limits.limit >= 1 && n >= 1
    ensures Reachable(s, limits, n)
    ensures |InWindow(s.allowed, -1, limits.window)| == Bound(limits, n)
  {
    var done := SequentialCrowd(limits.limit - 1, limits, n);
    var open := OverlappingCrowd(done, n, limits, n);
    var all := EveryoneRecords(done, open, limits, n);
    s := Crowd(all, {}, limits);
    assert InWindow(s.allowed, -1, limits.window) == all;
  }

  // ----- the retry hint -----

  predicate Passes(z: ZSet, now: int, redisNow: int, limits: Limits) {
    |Pruned(z, now, redisNow, limits.window).members| < limits.limit
  }

  lemma ReachableKeepsInv(s: State, limits: Limits, n: nat)
    requires Reachable(s, limits, n)
    ensures Inv(s, limits, n)
  {
    var run :| IsRun(run, limits, n) && run[|run| - 1] == s;
    RunKeepsInv(run, limits, n);
  }

  lemma PrunedIsWindow(s: State, limits: Limits, n: nat)
    requires Reachable(s, limits, n)
    ensures Pruned(s.z, s.now, s.redisNow, limits.window).members.Keys
            == InWindow(s.allowed, s.now - limits.window, limits.window)
  {
    ReachableKeepsInv(s, limits, n);
    BookkeepingMeansCovered(s, limits, n);
  }

  lemma PrunedSize(s: State, limits: Limits, n: nat)
    requires Reachable(s, limits, n)
    ensures |Pruned(s.z, s.now, s.redisNow, limits.window).members| <= Bound(limits, n)
  {
    var members := Pruned(s.z, s.now, s.redisNow, limits.window).members;
    PrunedIsWindow(s, limits, n);
    WindowBound(s, limits, n, s.now - limits.window);
    assert |members| == |members.Keys|;
  }

  /** Calls that do not overlap never overfill the set: a denial finds exactly
      the limit. */
  lemma SequentialDenialIsExact(s: State, limits: Limits)
    requires Reachable(s, limits, 1) && limits.limit >= 1
    requires !Passes(s.z, s.now, s.redisNow, limits)
    ensures |Pruned(s.z, s.now, s.redisNow, limits.window).members| == limits.limit
  {
    PrunedSize(s, limits, 1);
  }

  lemma HintSeconds(oldest: int, now: int, limits: Limits)
    requires limits.Valid() && oldest + limits.window > now
    ensures var hint := RetryAfter(oldest, now, limits);
            hint >= 1 && oldest + limits.window < now + hint * limits.second <= oldest + limits.window + limits.second
  {
    var wait, q := oldest + limits.window - now, (oldest + limits.window - now) / limits.second;
    assert wait == q * limits.second + wait % limits.second;
    assert (q + 1) * limits.second == q * limits.second + limits.second;
  }

  /** The events a later check still counts. */
  function NewerThan(members: map<Uid, int>, instant: int): set<Uid> {
    set u | u in members && members[u] > instant
  }

  /** After any check, with no other call on the key: a later check passes if and
      only if fewer than the limit of the events the first one left are still in
      its window. Redis has dropped none of those. */
  lemma LaterCheckIsExact(s: State, limits: Limits, n: nat, t: int, r: int)
    requires Reachable(s, limits, n) && t >= s.now && 0 <= r - t <= limits.margin
    ensures var pruned := Pruned(s.z, s.now, s.redisNow, limits.window);
            Passes(pruned, t, r, limits) <==> |NewerThan(pruned.members, t - limits.window)| < limits.limit
  {
    ReachableKeepsInv(s, limits, n);
    var pruned := Pruned(s.z, s.now, s.redisNow, limits.window);
    var later := Pruned(pruned, t, r, limits.window);
    forall u | u in pruned.members && pruned.members[u] > t - limits.window
      ensures r < pruned.expiresAt
    {
      assert s.allowed[u] + limits.window + limits.margin <= s.z.expiresAt;
    }
    assert later.members.Keys == NewerThan(pruned.members, t - limits.window);
    assert |later.members| == |later.members.Keys|;
  }

  /** The instant a denied caller who waits out the hint calls again. */
  function HintedInstant(oldest: int, now: int, limits: Limits): int
    requires limits.Valid()
  {
    now + RetryAfter(oldest, now, limits) * limits.second
  }

  predicate Denies(s: State, limits: Limits) {
    !Passes(s.z, s.now, s.redisNow, limits)
  }

  /** What a denial of any state, overlapping calls or not, is worth: the hinted
      call passes if and only if fewer than the limit of the events the denial
      counted are newer than the hinted instant less the window. So a denial that
      found exactly the limit is always honoured. */
  lemma HintIsExact(s: State, limits: Limits, n: nat, oldest: int, r: int)
    requires limits.Valid() && limits.limit >= 1 && Reachable(s, limits, n) && Denies(s, limits)
    requires IsOldest(Pruned(s.z, s.now, s.redisNow, limits.window).members, oldest)
    requires 0 <= r - HintedInstant(oldest, s.now, limits) <= limits.margin
    ensures var pruned, t := Pruned(s.z, s.now, s.redisNow, limits.window), HintedInstant(oldest, s.now, limits);
            && (Passes(pruned, t, r, limits) <==> |NewerThan(pruned.members, t - limits.window)| < limits.limit)
            && (|pruned.members| == limits.limit ==> Passes(pruned, t, r, limits))
  {
    var members, t := Pruned(s.z, s.now, s.redisNow, limits.window).members, HintedInstant(oldest, s.now, limits);
    HintSeconds(oldest, s.now, limits);
    LaterCheckIsExact(s, limits, n, t, r);
    var u :| u in members && members[u] == oldest;
    SubsetSize(NewerThan(members, t - limits.window), members.Keys - {u});
    assert |members| == |members.Keys|;
  }

  /** After a denial between calls that do not overlap, with no other call on
      the key: an acquire passes exactly from `oldest + window` on; the hinted
      number of seconds reaches that instant and overshoots it by at most one
      second. So an acquire exactly at the hint is allowed. */
  lemma HintIsHonest(s: State, limits: Limits, oldest: int, t: int, r: int)
    requires limits.Valid() && limits.limit >= 1 && Reachable(s, limits, 1) && Denies(s, limits)
    requires IsOldest(Pruned(s.z, s.now, s.redisNow, limits.window).members, oldest)
    requires t >= s.now && 0 <= r - t <= limits.margin
    ensures var hint, earliest := RetryAfter(oldest, s.now, limits), oldest + limits.window;
            && (Passes(Pruned(s.z, s.now, s.redisNow, limits.window), t, r, limits) <==> t >= earliest)
            && hint >= 1 && earliest < s.now + hint * limits.second <= earliest + limits.second
  {
    var members := Pruned(s.z, s.now, s.redisNow, limits.window).members;
    SequentialDenialIsExact(s, limits);
    LaterCheckIsExact(s, limits, 1, t, r);
    HintSeconds(oldest, s.now, limits);
    assert |members| == |members.Keys|;
    if t >= oldest + limits.window {
      var u :| u in members && members[u] == oldest;
      SubsetSize(NewerThan(members, t - limits.window), members.Keys - {u});
    } else {
      assert NewerThan(members, t - limits.window) == members.Keys;
    }
  }

  /** A caller denied in this state who waits out the hint, with no other call on
      the key, is allowed. */
  ghost predicate Honoured(s: State, limits: Limits)
    requires limits.Valid()
  {
    forall oldest, r ::
      Denies(s, limits) && IsOldest(Pruned(s.z, s.now, s.redisNow, limits.window).members, oldest)
      && 0 <= r - HintedInstant(oldest, s.now, limits) <= limits.margin
      ==> Passes(Pruned(s.z, s.now, s.redisNow, limits.window), HintedInstant(oldest, s.now, limits), r, limits)
  }

  /** The least time any hint makes a caller wait: that of an oldest event with
      one tick left in the window. */
  function ShortestWait(limits: Limits): int
    requires limits.Valid()
  {
    (1 / limits.second + 1) * limits.second
  }

  lemma HintsWaitAtLeast(oldest: int, now: int, limits: Limits)
    requires limits.Valid() && oldest + limits.window > now
    ensures HintedInstant(oldest, now, limits) >= now + ShortestWait(limits)
  {
    var wait := oldest + limits.window - now;
    QuotientGrows(1, wait, limits.second);
    TimesGrows(1 / limits.second + 1, wait / limits.second + 1, limits.second);
  }

  lemma QuotientGrows(a: int, b: int, d: nat)
    requires d >= 1 && a <= b
    ensures a / d <= b / d
  {
    assert a == (a / d) * d + a % d && b == (b / d) * d + b % d;
    if a / d >= b / d + 1 {
      TimesGrows(b / d + 1, a / d, d);
    }
  }

  lemma TimesGrows(a: int, b: int, d: nat)
    requires a <= b
    ensures a * d <= b * d
  {
    assert b * d - a * d == (b - a) * d;
  }

  lemma HonouredAlone(s: State, limits: Limits, n: nat)
    requires limits.Valid() && limits.limit >= 1 && Reachable(s, limits, n) && n <= 1
    ensures Honoured(s, limits)
  {
    var members := Pruned(s.z, s.now, s.redisNow, limits.window).members;
    PrunedSize(s, limits, n);
    forall oldest, r | Denies(s, limits) && IsOldest(members, oldest)
                       && 0 <= r - HintedInstant(oldest, s.now, limits) <= limits.margin
      ensures Passes(Pruned(s.z, s.now, s.redisNow, limits.window), HintedInstant(oldest, s.now, limits), r, limits)
    {
      HintIsExact(s, limits, n, oldest, r);
    }
  }

  lemma HonouredWhenShort(s: State, limits: Limits, n: nat)
    requires limits.Valid() && limits.limit >= 1 && Reachable(s, limits, n) && limits.window <= ShortestWait(limits)
    ensures Honoured(s, limits)
  {
    var members := Pruned(s.z, s.now, s.redisNow, limits.window).members;
    ReachableKeepsInv(s, limits, n);
    forall oldest, r | Denies(s, limits) && IsOldest(members, oldest)
                       && 0 <= r - HintedInstant(oldest, s.now, limits) <= limits.margin
      ensures Passes(Pruned(s.z, s.now, s.redisNow, limits.window), HintedInstant(oldest, s.now, limits), r, limits)
    {
      HintIsExact(s, limits, n, oldest, r);
      HintsWaitAtLeast(oldest, s.now, limits);
      assert NewerThan(members, HintedInstant(oldest, s.now, limits) - limits.window) == {};
    }
  }

  // ----- an overlap that outlasts the hint -----

  function AllAt(ids: set<Uid>, at: int): map<Uid, int> {
    map u | u in ids :: at
  }

  /** A first call checked at time 0 and still has to record; since then others
      came and went at the last tick of its window. */
  function Straggling(done: set<Uid>, limits: Limits): State {
    var at := limits.window - 1;
    State(at, at, ZSet(AllAt(done, at), if done == {} then 0 else at + limits.window + limits.margin),
          map[0 := 0], AllAt(done, at))
  }

  lemma StragglingPruned(done: set<Uid>, limits: Limits)
    requires limits.window >= 1
    ensures var s := Straggling(done, limits);
            Pruned(s.z, s.now, s.redisNow, limits.window) == s.z && LiveMembers(s.z, s.redisNow) == s.z.members
    ensures |AllAt(done, limits.window - 1)| == |done|
  {
    var z := Straggling(done, limits).z;
    if done == {} {
      assert z.members == map[];
    }
    assert AllAt(done, limits.window - 1).Keys == done;
    assert Pruned(z, limits.window - 1, limits.window - 1, limits.window).members == z.members;
  }

  lemma StragglerChecks(limits: Limits, n: nat)
    requires limits.window >= 1 && limits.limit >= 1 && n >= 1
    ensures Reachable(Straggling({}, limits), limits, n)
  {
    var at := limits.window - 1;
    var start := State(0, 0, EMPTY, map[], map[]);
    assert IsRun([start], limits, n) && [start][|[start]| - 1] == start;
    var checked := start.(pending := map[0 := 0]);
    assert Pruned(EMPTY, 0, 0, limits.window) == EMPTY;
    Extends(start, Check(0), checked, limits, n);
    assert AllAt({}, at) == map[];
    Extends(checked, Tick(at, at), Straggling({}, limits), limits, n);
  }

  lemma Extends(s: State, step: Step, s': State, limits: Limits, n: nat)
    requires Reachable(s, limits, n) && Enabled(s, step, limits, n) && Apply(s, step, limits) == s'
    ensures Reachable(s', limits, n)
  {
    Extend(s, s', limits, n);
  }

  /** One more call passes the check beside the straggler. */
  lemma LateCallChecks(done: set<Uid>, u: Uid, limits: Limits, n: nat)
    requires limits.window >= 1 && |done| < limits.limit && n >= 2 && u !in done && u != 0
    requires Reachable(Straggling(done, limits), limits, n)
    ensures Reachable(Straggling(done, limits).(pending := map[0 := 0, u := limits.window - 1]), limits, n)
  {
    var s := Straggling(done, limits);
    StragglingPruned(done, limits);
    assert |map[0 := 0]| == 1;
    assert s.pending[u := s.now] == map[0 := 0, u := limits.window - 1];
    Extends(s, Check(u), s.(pending := map[0 := 0, u := limits.window - 1]), limits, n);
  }

  lemma LateCallRecords(done: set<Uid>, u: Uid, limits: Limits, n: nat)
    requires limits.window >= 1 && u !in done && u != 0
    requires Reachable(Straggling(done, limits).(pending := map[0 := 0, u := limits.window - 1]), limits, n)
    ensures Reachable(Straggling(done + {u}, limits), limits, n)
  {
    var s := Straggling(done, limits).(pending := map[0 := 0, u := limits.window - 1]);
    StragglingGrows(done, u, limits);
    Extends(s, Record(u), Straggling(done + {u}, limits), limits, n);
  }

  lemma StragglingGrows(done: set<Uid>, u: Uid, limits: Limits)
    requires limits.window >= 1 && u !in done && u != 0
    ensures Apply(Straggling(done, limits).(pending := map[0 := 0, u := limits.window - 1]), Record(u), limits)
            == Straggling(done + {u}, limits)
  {
    var at := limits.window - 1;
    StragglingPruned(done, limits);
    assert AllAt(done, at)[u := at] == AllAt(done + {u}, at);
    assert map[0 := 0, u := at] - {u} == map[0 := 0];
  }

  lemma {:induction false} LateCalls(k: nat, limits: Limits, n: nat) returns (done: set<Uid>)
    requires limits.window >= 1 && limits.limit >= 1 && n >= 2 && k <= limits.limit
    ensures |done| == k && 0 !in done && Reachable(Straggling(done, limits), limits, n)
  {
    done := {};
    if k == 0 {
      StragglerChecks(limits, n);
    } else {
      done := LateCalls(k - 1, limits, n);
      var u := FreshUid(done + {0});
      LateCallChecks(done, u, limits, n);
      LateCallRecords(done, u, limits, n);
      done := done + {u};
    }
  }

  /** Then the straggler and one call that checked beside it record: one event
      more than the limit, all but the oldest of them new. */
  function Overfilled(done: set<Uid>, limits: Limits): State {
    var at := limits.window - 1;
    State(at, at, ZSet(AllAt(done, at)[0 := 0], at + limits.window + limits.margin), map[], AllAt(done, at)[0 := 0])
  }

  lemma OverfilledIsReachable(limits: Limits, n: nat) returns (done: set<Uid>)
    requires limits.window >= 1 && limits.limit >= 1 && n >= 2
    ensures |done| == limits.limit && 0 !in done && Reachable(Overfilled(done, limits), limits, n)
  {
    var at := limits.window - 1;
    done := LateCalls(limits.limit - 1, limits, n);
    var u := FreshUid(done + {0});
    LateCallChecks(done, u, limits, n);
    StragglerRecords(done, u, limits, n);
    done := done + {u};
  }

  /** Between the two records. */
  function HalfRecorded(done: set<Uid>, u: Uid, limits: Limits): State {
    Overfilled(done, limits).(pending := map[u := limits.window - 1])
  }

  lemma StragglerRecords(done: set<Uid>, u: Uid, limits: Limits, n: nat)
    requires limits.window >= 1 && u !in done && u != 0 && 0 !in done
    requires Reachable(Straggling(done, limits).(pending := map[0 := 0, u := limits.window - 1]), limits, n)
    ensures Reachable(Overfilled(done + {u}, limits), limits, n)
  {
    StragglerRecordsFirst(done, u, limits, n);
    var s := HalfRecorded(done, u, limits);
    OverfilledGrows(done, u, limits);
    Extends(s, Record(u), Overfilled(done + {u}, limits), limits, n);
  }

  lemma StragglerRecordsFirst(done: set<Uid>, u: Uid, limits: Limits, n: nat)
    requires limits.window >= 1 && u !in done && u != 0
    requires Reachable(Straggling(done, limits).(pending := map[0 := 0, u := limits.window - 1]), limits, n)
    ensures Reachable(HalfRecorded(done, u, limits), limits, n)
  {
    var s := Straggling(done, limits).(pending := map[0 := 0, u := limits.window - 1]);
    StragglingPruned(done, limits);
    assert s.pending - {0} == map[u := limits.window - 1];
    Extends(s, Record(0), HalfRecorded(done, u, limits), limits, n);
  }

  lemma OverfilledGrows(done: set<Uid>, u: Uid, limits: Limits)
    requires limits.window >= 1 && u !in done && u != 0
    ensures Apply(HalfRecorded(done, u, limits), Record(u), limits) == Overfilled(done + {u}, limits)
  {
    var at := limits.window - 1;
    assert map[u := at] - {u} == map[];
    assert AllAt(done, at)[0 := 0][u := at] == AllAt(done + {u}, at)[0 := 0];
  }

  lemma OverfilledDenies(done: set<Uid>, limits: Limits)
    requires limits.window >= 2 && |done| == limits.limit && 0 !in done
    ensures var s := Overfilled(done, limits);
            var members := Pruned(s.z, s.now, s.redisNow, limits.window).members;
            Denies(s, limits) && members == s.z.members && IsOldest(members, 0)
  {
    var s := Overfilled(done, limits);
    var members := Pruned(s.z, s.now, s.redisNow, limits.window).members;
    assert members == s.z.members;
    assert members.Keys == done + {0} && |members| == |members.Keys|;
    assert members[0] == 0;
  }

  /** With overlapping calls the hint can be too short, for every limit and any
      window longer than the shortest hint: a call is denied, waits out the hint
      with nobody else calling, and is denied again. */
  lemma HintFailsAfterOverlap(limits: Limits, n: nat) returns (s: State)
    requires limits.Valid() && limits.limit >= 1 && n >= 2 && limits.window > ShortestWait(limits)
    ensures Reachable(s, limits, n) && Denies(s, limits) && !Honoured(s, limits)
  {
    ShortestIsPositive(limits);
    var done := OverfilledIsReachable(limits, n);
    s := Overfilled(done, limits);
    OverfilledDenies(done, limits);
    OverfilledIsDeniedAgain(done, limits, n);
  }

  lemma OverfilledIsDeniedAgain(done: set<Uid>, limits: Limits, n: nat)
    requires limits.Valid() && limits.limit >= 1 && limits.window > ShortestWait(limits)
    requires |done| == limits.limit && 0 !in done && Reachable(Overfilled(done, limits), limits, n)
    requires var s := Overfilled(done, limits);
             var members := Pruned(s.z, s.now, s.redisNow, limits.window).members;
             Denies(s, limits) && members == s.z.members && IsOldest(members, 0)
    ensures var s, t := Overfilled(done, limits), HintedInstant(0, limits.window - 1, limits);
            !Passes(Pruned(s.z, s.now, s.redisNow, limits.window), t, t, limits)
  {
    ShortestIsPositive(limits);
    var s, t := Overfilled(done, limits), HintedInstant(0, limits.window - 1, limits);
    assert NewerThan(s.z.members, t - limits.window) == done;
    HintIsExact(s, limits, n, 0, t);
  }

  lemma ShortestIsPositive(limits: Limits)
    requires limits.Valid()
    ensures ShortestWait(limits) >= limits.second
            && RetryAfter(0, limits.window - 1, limits) * limits.second == ShortestWait(limits)
  {
    QuotientGrows(0, 1, limits.second);
    TimesGrows(1, 1 / limits.second + 1, limits.second);
  }

  /** Exactly when the hints can be trusted: every denial of every run is honoured
      if and only if calls on a key never overlap, or the window is no longer
      than the shortest hint. */
  lemma HintsAreHonouredExactly(limits: Limits, n: nat)
    requires limits.Valid() && limits.limit >= 1
    ensures n <= 1 || limits.window <= ShortestWait(limits)
            <==> forall s :: Reachable(s, limits, n) ==> Honoured(s, limits)
  {
    if n <= 1 || limits.window <= ShortestWait(limits) {
      forall s | Reachable(s, limits, n)
        ensures Honoured(s, limits)
      {
        if n <= 1 {
          HonouredAlone(s, limits, n);
        } else {
          HonouredWhenShort(s, limits, n);
        }
      }
    } else {
      var s := HintFailsAfterOverlap(limits, n);
    }
  }

  // ----- what the user reads (src/presentation/telegram/formatting.py) -----

  datatype ShownWait = ShownSeconds(n: int) | ShownMinutes(n: int) {
    function Seconds(): int {
      match this
      case ShownSeconds(n) => n
      case ShownMinutes(n) => 60 * n
    }
  }

  /** Python's `//` for a positive divisor. */
  function FloorDiv(a: int, b: nat): int
    requires b > 0
  {
    a / b
  }

  function FormatRetryAfter(seconds: int): ShownWait {
    if seconds < 60 then ShownSeconds(seconds) else ShownMinutes(-FloorDiv(-seconds, 60))
  }

  /** The shown wait never promises less than the hint, and less than a minute
      more; it is in seconds exactly below a minute. */
  lemma ShownWaitCoversHint(seconds: int)
    ensures seconds <= FormatRetryAfter(seconds).Seconds() < seconds + 60
    ensures FormatRetryAfter(seconds).ShownSeconds? <==> seconds < 60
    ensures seconds < 60 ==> FormatRetryAfter(seconds).n == seconds
  {
  }
}
