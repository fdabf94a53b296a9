/** How progress travels from the download child to the callback: child queue,
    executor thread, event loop, bridge queue, drain task
    (src/infrastructure/downloader/ytdlp_downloader.py). */
module DownloadPipe {
  import opened Wrappers

  type Item = string

  /** What the child leaves in its result queue; dying without a result reads
      as a process error. */
  datatype Report = Ok | TooLarge | ExtractError | ProcessError

  datatype Outcome = TimedOut | Reported(report: Report)

  // ----- the executor thread -----

  /** The child seen from the executor thread: on any schedule it appends to its
      progress queue, which flushes into the pipe (the first `piped` items so
      far), and exits. Each look at the queue costs at least one tick of the
      monotonic clock; `looks` counts them. */
  class ChildProcess {
    var clock: int
    var alive: bool
    var queued: seq<Item>
    var piped: nat
    var taken: nat
    var terminated: bool
    ghost var looks: nat

    constructor ()
      ensures Valid() && alive && queued == [] && taken == 0 && looks == 0 && !terminated
    {
      clock, alive, queued, piped, taken, terminated := 0, true, [], 0, 0, false;
      looks := 0;
    }

    ghost predicate Valid()
      reads this
    {
      taken <= piped <= |queued|
    }

    /** `process.is_alive()`, after whatever the child did meanwhile. */
    method IsAlive() returns (yes: bool)
      requires Valid()
      modifies this
      ensures Valid() && taken == old(taken) && clock == old(clock) && terminated == old(terminated)
      ensures looks == old(looks) && old(piped) <= piped
      ensures old(queued) <= queued && (!old(alive) ==> queued == old(queued) && piped == old(piped))
      ensures yes == alive && (alive ==> old(alive))
    {
      if alive {
        var put: seq<Item> := *;
        queued := queued + put;
        var reached: nat :| piped <= reached <= |queued|;
        piped := reached;
        if * {
          alive := false;
        }
      }
      yes := alive;
    }

    /** `progress_queue.get(timeout)`: the oldest item not yet taken, if one is in
        the pipe or reaches it in time; Empty only after the whole timeout with
        the pipe still empty. */
    method Get(timeout: nat) returns (item: Option<Item>)
      requires Valid() && timeout >= 1
      modifies this
      ensures Valid() && terminated == old(terminated)
      ensures old(queued) <= queued && old(piped) <= piped && (alive ==> old(alive))
      ensures looks == old(looks) + 1 && old(clock) + 1 <= clock <= old(clock) + timeout
      ensures match item
              case Some(x) => old(taken) < |queued| && x == queued[old(taken)] && taken == old(taken) + 1
              case None => taken == old(taken) == piped && clock == old(clock) + timeout
    {
      var _ := IsAlive();
      looks := looks + 1;
      if taken == piped {
        clock := clock + timeout;
        return None;
      }
      item := Some(queued[taken]);
      taken := taken + 1;
      var wait: int :| 1 <= wait <= timeout;
      clock := clock + wait;
    }

    /** `process.join(timeout)`. */
    method Join(timeout: nat)
      requires Valid()
      modifies this
      ensures Valid() && taken == old(taken) && terminated == old(terminated)
      ensures old(queued) <= queued && looks == old(looks)
      ensures old(clock) <= clock <= old(clock) + timeout
    {
      var running := IsAlive();
      if running {
        clock := clock + timeout;
      }
    }
  }

  const POLL_MS := 500
  const JOIN_MS := 5000

  /** `progress_sink`: hands each value to the event loop, in call order. */
  class Sink {
    var sunk: seq<Option<Item>>

    constructor ()
      ensures sunk == []
    {
      sunk := [];
    }

    method Put(raw: Option<Item>)
      modifies this
      ensures sunk == old(sunk) + [raw]
    {
      sunk := sunk + [raw];
    }
  }

  function Raw(items: seq<Item>): (raw: seq<Option<Item>>)
    ensures |raw| == |items|
    ensures forall i :: 0 <= i < |items| ==> raw[i] == Some(items[i])
  {
    seq(|items|, i requires 0 <= i < |items| => Some(items[i]))
  }

  lemma RawOfOneMore(items: seq<Item>, x: Item)
    ensures Raw(items + [x]) == Raw(items) + [Some(x)]
  {
  }

  /** One look at the queue; `from` is where the caller started taking. */
  method SinkOne(child: ChildProcess, sink: Sink, timeout: nat, ghost from: nat)
    requires child.Valid() && timeout >= 1 && from <= child.taken
    modifies child, sink
    ensures child.Valid() && old(child.queued) <= child.queued && old(child.taken) <= child.taken
    ensures child.terminated == old(child.terminated) && (child.alive ==> old(child.alive))
    ensures old(child.clock) < child.clock <= old(child.clock) + timeout
    ensures child.looks == old(child.looks) + 1 && old(child.piped) <= child.piped
    ensures child.taken == old(child.taken) + 1
            || (child.taken == old(child.taken) == child.piped && child.clock == old(child.clock) + timeout)
    ensures forall sunk :: old(sink.sunk) == sunk + Raw(old(child.queued[from..child.taken]))
                           ==> sink.sunk == sunk + Raw(child.queued[from..child.taken])
  {
    ghost var before := child.taken;
    var raw := child.Get(timeout);
    assert child.queued[from..before] == old(child.queued[from..child.taken]);
    if raw.Some? {
      RawOfOneMore(child.queued[from..before], raw.value);
      assert child.queued[from..child.taken] == child.queued[from..before] + [raw.value];
      sink.Put(raw);
    }
  }

  function Min(a: int, b: int): int {
    if a < b then a else b
  }

  /** `_wait_and_drain_progress`: sinks exactly the items it takes, oldest first
      and none skipped, until the child exits or the time is up, and is back at
      most one join after the deadline. On a timeout the child was told to stop.
      It waits by looking: no stretch longer than a poll passes without a look,
      and every look takes an item as long as one that was waiting is left. */
  method WaitAndDrain(child: ChildProcess, sink: Sink, timeout: int) returns (timedOut: bool)
    requires child.Valid()
    modifies child, sink
    ensures child.Valid() && old(child.queued) <= child.queued && old(child.taken) <= child.taken
    ensures sink.sunk == old(sink.sunk) + Raw(child.queued[old(child.taken)..child.taken])
    ensures timedOut ==> child.terminated && child.clock >= old(child.clock) + timeout
    ensures !timedOut ==> !child.alive && child.terminated == old(child.terminated)
    ensures child.clock <= old(child.clock) + (if timeout > 0 then timeout else 0) + JOIN_MS
    ensures var looks := child.looks - old(child.looks);
            && (if timedOut then looks * POLL_MS >= timeout else child.clock - old(child.clock) <= looks * POLL_MS)
            && child.taken - old(child.taken) >= Min(looks, old(child.piped - child.taken))
  {
    var deadline := child.clock + timeout;
    var running := child.IsAlive();
    while running
      invariant child.Valid() && old(child.queued) <= child.queued && old(child.taken) <= child.taken
      invariant sink.sunk == old(sink.sunk) + Raw(child.queued[old(child.taken)..child.taken])
      invariant running || !child.alive
      invariant child.terminated == old(child.terminated)
      invariant old(child.clock) <= child.clock <= old(child.clock) + if timeout > 0 then timeout else 0
      invariant child.looks >= old(child.looks) && child.piped >= old(child.piped)
      invariant child.clock - old(child.clock) <= (child.looks - old(child.looks)) * POLL_MS
      invariant child.taken - old(child.taken)
                >= Min(child.looks - old(child.looks), old(child.piped - child.taken))
      decreases running, deadline - child.clock
    {
      var remaining := deadline - child.clock;
      if remaining <= 0 {
        break;
      }
      SinkOne(child, sink, if remaining < POLL_MS then remaining else POLL_MS, old(child.taken));
      running := child.IsAlive();
    }
    timedOut := child.IsAlive();
    if timedOut {
      child.terminated := true;
      child.Join(JOIN_MS);
    }
  }

  /** `_run_download_in_process` after the child started: the stop marker is sunk
      exactly once, after every item, whatever the outcome. The outcome is a
      timeout exactly when the child was told to stop, which is never before the
      deadline; otherwise it is what a child that exited left, and no child is
      cut short. `reported` is its result queue. */
  method RunDownload(child: ChildProcess, sink: Sink, timeout: int, reported: Option<Report>)
    returns (outcome: Outcome)
    requires child.Valid()
    modifies child, sink
    ensures child.Valid() && old(child.taken) <= child.taken
    ensures sink.sunk == old(sink.sunk) + Raw(child.queued[old(child.taken)..child.taken]) + [None]
    ensures outcome.TimedOut? ==> child.terminated && child.clock >= old(child.clock) + timeout
    ensures var looks := child.looks - old(child.looks);
            && (if outcome.TimedOut? then looks * POLL_MS >= timeout
                else child.clock - old(child.clock) <= looks * POLL_MS)
            && child.taken - old(child.taken) >= Min(looks, old(child.piped - child.taken))
    ensures !outcome.TimedOut? ==>
              && !child.alive && child.terminated == old(child.terminated)
              && outcome == Reported(if reported.Some? then reported.value else ProcessError)
    ensures !old(child.terminated) ==> (outcome.TimedOut? <==> child.terminated)
    ensures child.clock <= old(child.clock) + (if timeout > 0 then timeout else 0) + JOIN_MS
  {
    var timedOut := WaitAndDrain(child, sink, timeout);
    sink.Put(None);
    if timedOut {
      return TimedOut;
    }
    if reported.None? {
      return Reported(ProcessError);
    }
    return Reported(reported.value);
  }

  /** `_drain_bridge` over the values a bridge delivers: every item up to the
      stop marker goes to the callback, in order, and nothing after it. */
  method DrainBridge(bridge: seq<Option<Item>>) returns (given: seq<Item>, got: nat)
    requires None in bridge
    ensures got < |bridge| && bridge[got] == None && Raw(given) == bridge[..got]
  {
    given, got := [], 0;
    while bridge[got].Some?
      invariant got < |bridge| && Raw(given) == bridge[..got]
      invariant None in bridge[got..]
      decreases |bridge| - got
    {
      RawOfOneMore(given, bridge[got].value);
      assert bridge[..got + 1] == bridge[..got] + [bridge[got]];
      assert None in bridge[got + 1..];
      given := given + [bridge[got].value];
      got := got + 1;
    }
  }

  // ----- all the actors at once -----

  /** `Queued`: no executor thread has picked the call up yet. `Abandoned`: it was
      cancelled before any did. */
  datatype ThreadPc =
    | Queued | Abandoned
    | Draining | Stopping(outcome: Outcome) | Stopped(outcome: Outcome) | Finished(outcome: Outcome)
  {
    predicate HasStopped() {
      Stopped? || Finished?
    }

    predicate NeverRan() {
      Queued? || Abandoned?
    }
  }

  /** `Dropped`: the drain task was cancelled. */
  datatype DrainPc = Waiting | Calling(item: Item) | Ended | Dropped

  /** How `download` ends: by what the thread brought, or by CancelledError. */
  datatype Ending = Through(outcome: Outcome) | Cancelled
  datatype MainPc = AwaitingThread | AwaitingDrain(ending: Ending) | Returned(ending: Ending)

  /** `scheduled` are the `put_nowait` callbacks the event loop has not run;
      `given` is what the callback has been called with. The executor's
      completion reaches `main` on its own path, not through `scheduled`. */
  datatype State = State(
    queued: seq<Item>, taken: nat,
    thread: ThreadPc,
    scheduled: seq<Option<Item>>,
    bridge: seq<Option<Item>>,
    drain: DrainPc, given: seq<Item>,
    main: MainPc)

  datatype Step =
    | ThreadStarts
    | ChildPuts(item: Item)
    | ThreadTakes
    | ThreadLeaves(outcome: Outcome)
    | ThreadSinksStop
    | ThreadFinishes
    | LoopRunsOne
    | DrainGets
    | CallbackReturns
    | MainResumes
    | MainReturns
    | CancelMain

  predicate Enabled(s: State, step: Step) {
    match step
    case ThreadStarts => s.thread.Queued?
    case ChildPuts(_) => !s.thread.NeverRan()
    case ThreadTakes => s.thread.Draining? && s.taken < |s.queued|
    case ThreadLeaves(_) => s.thread.Draining?
    case ThreadSinksStop => s.thread.Stopping?
    case ThreadFinishes => s.thread.Stopped?
    case LoopRunsOne => s.scheduled != []
    case DrainGets => s.drain.Waiting? && s.bridge != []
    case CallbackReturns => s.drain.Calling?
    case MainResumes => s.main.AwaitingThread? && s.thread.Finished?
    case MainReturns => s.main.AwaitingDrain? && s.drain.Ended?
    case CancelMain => !s.main.Returned?
  }

  /** A cancel that lands while `main` awaits the thread leaves a running thread
      alone, withdraws a queued call, and still awaits the drain task. One that
      lands while `main` awaits the drain task is passed on to that task. */
  function AfterCancel(s: State): State
    requires !s.main.Returned?
  {
    if s.main.AwaitingThread? then
      s.(main := AwaitingDrain(Cancelled), thread := if s.thread.Queued? then Abandoned else s.thread)
    else
      s.(main := Returned(Cancelled), drain := if s.drain.Ended? then Ended else Dropped)
  }

  function Apply(s: State, step: Step): State
    requires Enabled(s, step)
  {
    match step
    case ThreadStarts => s.(thread := Draining)
    case ChildPuts(x) => s.(queued := s.queued + [x])
    case ThreadTakes => s.(scheduled := s.scheduled + [Some(s.queued[s.taken])], taken := s.taken + 1)
    case ThreadLeaves(outcome) => s.(thread := Stopping(outcome))
    case ThreadSinksStop => s.(scheduled := s.scheduled + [None], thread := Stopped(s.thread.outcome))
    case ThreadFinishes => s.(thread := Finished(s.thread.outcome))
    case LoopRunsOne => s.(bridge := s.bridge + [s.scheduled[0]], scheduled := s.scheduled[1..])
    case DrainGets =>
      if s.bridge[0].None? then s.(bridge := s.bridge[1..], drain := Ended)
      else s.(bridge := s.bridge[1..], drain := Calling(s.bridge[0].value), given := s.given + [s.bridge[0].value])
    case CallbackReturns => s.(drain := Waiting)
    case MainResumes => s.(main := AwaitingDrain(Through(s.thread.outcome)))
    case MainReturns => s.(main := Returned(s.main.ending))
    case CancelMain => AfterCancel(s)
  }

  const START := State([], 0, Queued, [], [], Waiting, [], AwaitingThread)

  function Exec(s: State, steps: seq<Step>): Option<State> {
    if steps == [] then Some(s)
    else
      match Exec(s, steps[..|steps| - 1])
      case None => None
      case Some(mid) => if Enabled(mid, steps[|steps| - 1]) then Some(Apply(mid, steps[|steps| - 1])) else None
  }

  ghost predicate Reachable(s: State) {
    exists steps :: Exec(START, steps) == Some(s)
  }

  /** Everything sunk so far: the taken items, then the stop marker once sent. */
  function Sunk(s: State): seq<Option<Item>>
    requires s.taken <= |s.queued|
  {
    Raw(s.queued[..s.taken]) + if s.thread.HasStopped() then [None] else []
  }

  /** Everything the drain task has taken off the bridge. */
  function Drained(s: State): seq<Option<Item>> {
    Raw(s.given) + if s.drain.Ended? then [None] else []
  }

  /** Where `main` is, and what got it there. */
  predicate MainWf(s: State) {
    && (s.main.AwaitingDrain? ==> s.main.ending == Cancelled || s.thread == Finished(s.main.ending.outcome))
    && (s.main.Returned? ==>
          || (s.drain.Ended? && (s.main.ending == Cancelled || s.thread == Finished(s.main.ending.outcome)))
          || (s.drain.Dropped? && s.main.ending == Cancelled))
    && (s.drain.Dropped? ==> s.main.Returned?)
    && (s.thread.Abandoned? ==> !s.main.AwaitingThread?)
  }

  /** Nothing is lost, duplicated or reordered on the way. */
  ghost predicate Inv(s: State) {
    && s.taken <= |s.queued|
    && Drained(s) + s.bridge + s.scheduled == Sunk(s)
    && (s.thread.NeverRan() ==> s.queued == [])
    && (s.drain.Calling? ==> s.given != [])
    && MainWf(s)
  }

  lemma SinkAppends(s: State, s': State, raw: Option<Item>)
    requires Inv(s) && s'.taken <= |s'.queued|
    requires Sunk(s') == Sunk(s) + [raw] && s'.scheduled == s.scheduled + [raw]
    requires s'.bridge == s.bridge && s'.drain == s.drain && s'.given == s.given
    ensures Drained(s') + s'.bridge + s'.scheduled == Sunk(s')
  {
    assert Drained(s) + s.bridge + (s.scheduled + [raw]) == (Drained(s) + s.bridge + s.scheduled) + [raw];
  }

  predicate ThreadSide(step: Step) {
    || step.ThreadStarts? || step.ChildPuts? || step.ThreadTakes?
    || step.ThreadLeaves? || step.ThreadSinksStop? || step.ThreadFinishes?
  }

  lemma ThreadStepKeepsInv(s: State, step: Step)
    requires Inv(s) && Enabled(s, step) && ThreadSide(step)
    ensures Inv(Apply(s, step))
  {
    var s' := Apply(s, step);
    match step
    case ChildPuts(x) =>
      assert s'.queued[..s.taken] == s.queued[..s.taken];
    case ThreadTakes =>
      assert s.queued[..s.taken + 1] == s.queued[..s.taken] + [s.queued[s.taken]];
      RawOfOneMore(s.queued[..s.taken], s.queued[s.taken]);
      assert Sunk(s') == Sunk(s) + [Some(s.queued[s.taken])];
      SinkAppends(s, s', Some(s.queued[s.taken]));
    case ThreadSinksStop =>
      assert Sunk(s') == Sunk(s) + [None];
      SinkAppends(s, s', None);
    case _ =>
  }

  lemma LoopRunKeepsInv(s: State)
    requires Inv(s) && Enabled(s, LoopRunsOne)
    ensures Inv(Apply(s, LoopRunsOne))
  {
    assert s.scheduled == [s.scheduled[0]] + s.scheduled[1..];
    assert Drained(s) + (s.bridge + [s.scheduled[0]]) + s.scheduled[1..] == Drained(s) + s.bridge + s.scheduled;
  }

  lemma DrainGetKeepsInv(s: State)
    requires Inv(s) && Enabled(s, DrainGets)
    ensures Inv(Apply(s, DrainGets))
  {
    var s' := Apply(s, DrainGets);
    assert s.bridge == [s.bridge[0]] + s.bridge[1..];
    if s.bridge[0].Some? {
      RawOfOneMore(s.given, s.bridge[0].value);
    }
    assert Drained(s') == Drained(s) + [s.bridge[0]];
    assert (Drained(s) + [s.bridge[0]]) + s.bridge[1..] + s.scheduled == Drained(s) + s.bridge + s.scheduled;
  }

  lemma LoopStepKeepsInv(s: State, step: Step)
    requires Inv(s) && Enabled(s, step) && !ThreadSide(step)
    ensures Inv(Apply(s, step))
  {
    match step
    case LoopRunsOne => LoopRunKeepsInv(s);
    case DrainGets => DrainGetKeepsInv(s);
    case _ =>
  }

  lemma {:induction false} ExecKeepsInv(steps: seq<Step>, s: State)
    requires Exec(START, steps) == Some(s)
    ensures Inv(s)
  {
    if steps != [] {
      var last := steps[|steps| - 1];
      var mid := Exec(START, steps[..|steps| - 1]).value;
      ExecKeepsInv(steps[..|steps| - 1], mid);
      if ThreadSide(last) {
        ThreadStepKeepsInv(mid, last);
      } else {
        LoopStepKeepsInv(mid, last);
      }
    } else {
      assert Raw(START.given) == [];
    }
  }

  lemma ReachableKeepsInv(s: State)
    requires Reachable(s)
    ensures Inv(s)
  {
    var steps :| Exec(START, steps) == Some(s);
    ExecKeepsInv(steps, s);
  }

  /** The items among some sunk values. */
  function Items(raw: seq<Option<Item>>): seq<Item> {
    if raw == [] then []
    else (if raw[0].Some? then [raw[0].value] else []) + Items(raw[1..])
  }

  lemma {:induction false} ItemsOfConcat(a: seq<Option<Item>>, b: seq<Option<Item>>)
    ensures Items(a + b) == Items(a) + Items(b)
  {
    if a == [] {
      assert a + b == b;
    } else {
      ItemsOfConcat(a[1..], b);
      assert (a + b)[1..] == a[1..] + b && (a + b)[0] == a[0];
      Regroup(if a[0].Some? then [a[0].value] else [], Items(a[1..]), Items(b));
    }
  }

  lemma Regroup(a: seq<Item>, b: seq<Item>, c: seq<Item>)
    ensures (a + b) + c == a + (b + c)
  {
  }

  lemma {:induction false} ItemsOfRaw(items: seq<Item>)
    ensures Items(Raw(items)) == items
  {
    if items != [] {
      assert Raw(items)[1..] == Raw(items[1..]);
      ItemsOfRaw(items[1..]);
    }
  }

  lemma ItemsOfRawAndStop(items: seq<Item>, stop: seq<Option<Item>>)
    requires stop == [] || stop == [None]
    ensures Items(Raw(items) + stop) == items
  {
    ItemsOfConcat(Raw(items), stop);
    ItemsOfRaw(items);
  }

  /** What the thread sank and the callback has not had yet. */
  function InFlight(s: State): seq<Item> {
    Items(s.bridge + s.scheduled)
  }

  /** The callback has had everything the thread will ever have sunk. */
  predicate Delivered(s: State) {
    s.taken <= |s.queued| && s.given == s.queued[..s.taken] && (s.thread.HasStopped() || s.thread.Abandoned?)
  }

  /** Nothing that was sunk is lost or reordered: what the callback has had, then
      what is in flight, is exactly what the thread took. */
  lemma ItemsAreConserved(s: State)
    requires Inv(s)
    ensures s.given + InFlight(s) == s.queued[..s.taken]
  {
    ItemsOfRawAndStop(s.queued[..s.taken], if s.thread.HasStopped() then [None] else []);
    ItemsOfRawAndStop(s.given, if s.drain.Ended? then [None] else []);
    ItemsOfConcat(Drained(s), s.bridge + s.scheduled);
    assert Drained(s) + s.bridge + s.scheduled == Drained(s) + (s.bridge + s.scheduled);
  }

  /** The stop marker is last: once the drain task has seen it, nothing is left
      anywhere. */
  lemma EndedMeansAllGiven(s: State)
    requires Inv(s) && s.drain.Ended?
    ensures s.bridge == [] && s.scheduled == [] && Delivered(s) && s.thread.HasStopped()
  {
    var rest := s.bridge + s.scheduled;
    var sunk := Sunk(s);
    assert Raw(s.given) + [None] + rest == sunk by {
      assert Drained(s) + s.bridge + s.scheduled == Drained(s) + rest;
    }
    assert sunk[|s.given|] == None;
    assert forall i :: 0 <= i < s.taken ==> sunk[i] == Some(s.queued[i]);
    assert |s.given| == s.taken && rest == [];
    ItemsAreConserved(s);
  }

  /** However the threads interleave and whenever cancels land: the callback has
      had, in order, a prefix of the items the executor thread sank, and those
      are a prefix of what the child queued. A `download` that returns or raises
      what its thread brought has delivered every one, and nothing is in flight.
      So has a cancelled one, unless the drain task itself was cancelled. */
  lemma CallbackGetsExactlyWhatWasSunk(s: State)
    requires Reachable(s)
    ensures s.taken <= |s.queued| && s.given <= s.queued[..s.taken] <= s.queued
    ensures s.given + InFlight(s) == s.queued[..s.taken]
    ensures s.main.Returned? && !s.drain.Dropped? ==>
              && s.given == s.queued[..s.taken] && s.bridge == [] && s.scheduled == [] && Delivered(s)
    ensures s.main.Returned? && s.main.ending.Through? ==>
              !s.drain.Dropped? && s.thread == Finished(s.main.ending.outcome)
  {
    ReachableKeepsInv(s);
    ItemsAreConserved(s);
    if s.drain.Ended? {
      EndedMeansAllGiven(s);
    }
  }

  /** The step that ends `download` leaves everything delivered if and only if it
      is not a cancel with something still undelivered: an item in flight, or a
      thread that may sink more. */
  lemma ReturnIsCompleteExactly(s: State, step: Step)
    requires Reachable(s) && !s.main.Returned? && Enabled(s, step) && Apply(s, step).main.Returned?
    ensures Delivered(Apply(s, step))
            <==> !(step.CancelMain? && (InFlight(s) != [] || !(s.thread.HasStopped() || s.thread.Abandoned?)))
  {
    ReachableKeepsInv(s);
    ItemsAreConserved(s);
    if s.drain.Ended? {
      EndedMeansAllGiven(s);
    }
  }

  lemma Go(s: State, step: Step) returns (s': State)
    requires Reachable(s) && Enabled(s, step)
    ensures Reachable(s') && s' == Apply(s, step)
  {
    var steps :| Exec(START, steps) == Some(s);
    var longer := steps + [step];
    assert longer[..|longer| - 1] == steps;
    s' := Apply(s, step);
    assert Exec(START, longer) == Some(s');
  }

  /** The child put two items, the thread sank them and is done, and the event
      loop has run none of it. */
  function TwoScheduled(x: Item, y: Item, outcome: Outcome): State {
    State([x, y], 2, Finished(outcome), [Some(x), Some(y), None], [], Waiting, [], AwaitingThread)
  }

  lemma TwoTaken(x: Item, y: Item) returns (s: State)
    ensures Reachable(s) && s == State([x, y], 2, Draining, [Some(x), Some(y)], [], Waiting, [], AwaitingThread)
  {
    assert Exec(START, []) == Some(START);
    s := Go(START, ThreadStarts);
    s := Go(s, ChildPuts(x));
    s := Go(s, ChildPuts(y));
    s := Go(s, ThreadTakes);
    s := Go(s, ThreadTakes);
  }

  lemma TwoScheduledIsReachable(x: Item, y: Item, outcome: Outcome)
    ensures Reachable(TwoScheduled(x, y, outcome))
  {
    var s := TwoTaken(x, y);
    s := Go(s, ThreadLeaves(outcome));
    s := Go(s, ThreadSinksStop);
    s := Go(s, ThreadFinishes);
    assert s == TwoScheduled(x, y, outcome);
  }

  /** The job's timeout, or a shutdown, landing while the callback is slow: the
      thread is done and its outcome in hand, and `download` raises
      CancelledError with an item undelivered. */
  lemma CancelInFinalAwaitLosesItems(x: Item, y: Item, outcome: Outcome) returns (s: State)
    ensures Reachable(s) && s.main == Returned(Cancelled) && s.thread == Finished(outcome)
    ensures s.queued == [x, y] && s.taken == 2 && s.given == [x] && !Delivered(s)
  {
    TwoScheduledIsReachable(x, y, outcome);
    s := Go(TwoScheduled(x, y, outcome), LoopRunsOne);
    s := Go(s, DrainGets);
    s := Go(s, MainResumes);
    s := Go(s, CancelMain);
  }

  // ----- does it end -----

  /** How much work is left once the thread is done. */
  function Remaining(s: State): nat {
    3 * |s.scheduled| + 2 * |s.bridge|
    + (if s.drain.Calling? then 1 else 0)
    + (match s.main case AwaitingThread => 2 case AwaitingDrain(_) => 1 case Returned(_) => 0)
  }

  predicate LoopSide(step: Step) {
    step.LoopRunsOne? || step.DrainGets? || step.CallbackReturns? || step.MainResumes? || step.MainReturns?
  }

  /** Once the thread has finished, `download` cannot get stuck: until it has
      returned some event-loop step is enabled, and every one of them, a cancel
      too, brings the return closer. */
  lemma DrainingFinishes(s: State) returns (step: Step)
    requires Reachable(s) && s.thread.Finished? && !s.main.Returned?
    ensures LoopSide(step) && Enabled(s, step)
    ensures forall other :: (LoopSide(other) || other.CancelMain?) && Enabled(s, other) ==>
              Remaining(Apply(s, other)) < Remaining(s)
  {
    ReachableKeepsInv(s);
    if s.scheduled != [] {
      step := LoopRunsOne;
    } else if s.drain.Calling? {
      step := CallbackReturns;
    } else if s.drain.Waiting? {
      step := DrainGets;
      if s.bridge == [] {
        WaitingNeedsStop(s);
      }
    } else if s.main.AwaitingThread? {
      step := MainResumes;
    } else {
      step := MainReturns;
    }
  }

  /** With the stop marker sunk and nothing in flight, the drain task has it. */
  lemma WaitingNeedsStop(s: State)
    requires Inv(s) && s.thread.HasStopped() && s.bridge == [] && s.scheduled == []
    ensures s.drain.Ended?
  {
    var sunk := Sunk(s);
    assert Drained(s) + s.bridge + s.scheduled == Drained(s);
    assert sunk[|sunk| - 1] == None;
  }

  /** A call cancelled before any executor thread picked it up never gets a stop
      marker: `download` then ends by a second cancel or not at all. */
  lemma UnstartedCallHangs(s: State, step: Step)
    requires Reachable(s) && s.thread.Abandoned? && !s.main.Returned? && Enabled(s, step)
    ensures s.drain.Waiting? && s.main == AwaitingDrain(Cancelled)
    ensures step.CancelMain? && Apply(s, step).main == Returned(Cancelled)
  {
    ReachableKeepsInv(s);
    AbandonedStaysWaiting(s);
  }

  lemma AbandonedStaysWaiting(s: State)
    requires Reachable(s) && s.thread.NeverRan() && !s.main.Returned?
    ensures s.drain.Waiting? && s.given == [] && s.bridge == [] && s.scheduled == []
  {
    ReachableKeepsInv(s);
    assert Sunk(s) == [];
    assert |Drained(s) + s.bridge + s.scheduled| == 0;
  }
}
