/** The cron sweep beside running jobs: it reads the clock once, walks a request's
    directory later, and removes it later still, while the request's job may
    start, write and end in between
    (src/infrastructure/storage/local_storage.py:98-139,
    src/infrastructure/queue/jobs.py:95-110). One host, so one clock. */
module SweepRaces {
  import opened Wrappers
  import opened LocalStorage

  datatype Bounds = Bounds(jobTimeout: nat, maxAge: nat)

  /** `Condemned`: the walk at `look` found `seen`, and the removal is next. */
  datatype SweepPc = Idle | Began(clock: int) | Condemned(clock: int, look: int, seen: Node)

  /** One request's directory, the start of the job now running for it, and the
      pass as far as it has come. A crashed job leaves its directory behind. */
  datatype State = State(now: int, tree: Option<Node>, job: Option<int>, sweep: SweepPc)

  datatype Step =
    | Passes(d: nat)
    | JobStarts
    | JobWrites(tree: Node)
    | JobEnds(leftover: Option<Node>)
    | SweepBegins
    | SweepLooks
    | SweepRemoves(leftover: Option<Node>)

  ghost predicate Holds(tree: Node, node: Node) {
    node == tree || (Under(node, tree) && node.stats)
  }

  /** Some node of the tree was written at that instant or later. */
  ghost predicate HasSince(tree: Node, start: int) {
    exists node :: Holds(tree, node) && node.mtime >= start
  }

  /** Any change a job makes below its directory leaves a node of that instant:
      the file written, or the directory whose entries changed. */
  ghost predicate Enabled(b: Bounds, s: State, step: Step) {
    match step
    case Passes(d) => s.job.Some? ==> s.now + d <= s.job.value + b.jobTimeout
    case JobStarts => s.job.None?
    case JobWrites(tree) => s.job.Some? && HasSince(tree, s.now)
    case JobEnds(_) => s.job.Some?
    case SweepBegins => s.sweep.Idle?
    case SweepLooks => s.sweep.Began?
    case SweepRemoves(_) => s.sweep.Condemned?
  }

  function Apply(b: Bounds, s: State, step: Step): State
    requires step.SweepLooks? ==> s.sweep.Began?
  {
    match step
    case Passes(d) => s.(now := s.now + d)
    case JobStarts => s.(job := Some(s.now))
    case JobWrites(tree) => s.(tree := Some(tree))
    case JobEnds(leftover) => s.(job := None, tree := leftover)
    case SweepBegins => s.(sweep := Began(s.now))
    case SweepLooks =>
      s.(sweep := if s.tree.Some? && s.sweep.clock - NewestIn(s.tree.value) > b.maxAge then
                    Condemned(s.sweep.clock, s.now, s.tree.value)
                  else Idle)
    case SweepRemoves(leftover) => s.(tree := leftover, sweep := Idle)
  }

  predicate Initial(s: State) {
    s.job.None? && s.sweep.Idle?
  }

  ghost predicate Leads(b: Bounds, s: State, steps: seq<Step>, s': State)
    decreases |steps|
  {
    if steps == [] then s' == s
    else Enabled(b, s, steps[0]) && Leads(b, Apply(b, s, steps[0]), steps[1..], s')
  }

  ghost predicate Reachable(b: Bounds, s: State) {
    exists init, steps :: Initial(init) && Leads(b, init, steps, s)
  }

  /** What every step keeps: the job is within its bound, and a condemned tree
      was older than the threshold by a clock read no later than the look. */
  predicate Inv(b: Bounds, s: State) {
    && (s.job.Some? ==> s.job.value <= s.now <= s.job.value + b.jobTimeout)
    && (s.sweep.Began? ==> s.sweep.clock <= s.now)
    && (s.sweep.Condemned? ==>
          s.sweep.clock <= s.sweep.look <= s.now && s.sweep.clock - NewestIn(s.sweep.seen) > b.maxAge)
  }

  lemma {:induction false} LeadsKeepsInv(b: Bounds, s: State, steps: seq<Step>, s': State)
    requires Inv(b, s) && Leads(b, s, steps, s')
    ensures Inv(b, s')
    decreases |steps|
  {
    if steps != [] {
      LeadsKeepsInv(b, Apply(b, s, steps[0]), steps[1..], s');
    }
  }

  lemma ReachableKeepsInv(b: Bounds, s: State)
    requires Reachable(b, s)
    ensures Inv(b, s)
  {
    var init, steps :| Initial(init) && Leads(b, init, steps, s);
    LeadsKeepsInv(b, init, steps, s);
  }

  lemma NewestBoundsAll(tree: Node, start: int)
    ensures HasSince(tree, start) <==> NewestIn(tree) >= start
  {
    NewestInIsMax(tree);
    if NewestIn(tree) >= start {
      if NewestIn(tree) == tree.mtime {
        assert Holds(tree, tree);
      } else {
        var node :| Under(node, tree) && node.stats && node.mtime == NewestIn(tree);
        assert Holds(tree, node);
      }
    }
  }

  /** The look itself: it spares the directory if and only if some node it finds
      is no older than the threshold by the pass's clock. A live job, started
      before or after that clock was read, with a node of its own already there
      is always spared. */
  lemma LookIsExact(b: Bounds, s: State)
    requires b.jobTimeout <= b.maxAge && Reachable(b, s) && s.sweep.Began? && s.tree.Some?
    ensures !Apply(b, s, SweepLooks).sweep.Condemned? <==> HasSince(s.tree.value, s.sweep.clock - b.maxAge)
    ensures s.job.Some? && HasSince(s.tree.value, s.job.value) ==> !Apply(b, s, SweepLooks).sweep.Condemned?
  {
    ReachableKeepsInv(b, s);
    NewestBoundsAll(s.tree.value, s.sweep.clock - b.maxAge);
    if s.job.Some? {
      NewestBoundsAll(s.tree.value, s.job.value);
    }
  }

  /** The look condemns exactly what the uninterrupted sweep takes for expired by
      the pass's clock. */
  lemma LookCondemnsTheExpired(b: Bounds, s: State, leftover: Option<Node>)
    requires s.sweep.Began?
    ensures Apply(b, s, SweepLooks).sweep.Condemned?
            <==> s.tree.Some? && Expired(Entry(s.tree.value, true, leftover), s.sweep.clock, b.maxAge)
  {
  }

  /** The removal would take something written since a live job's start. */
  ghost predicate EndangersWork(s: State) {
    s.sweep.Condemned? && s.job.Some? && s.tree.Some? && HasSince(s.tree.value, s.job.value)
  }

  /** Over every run, a pass only ever takes work of a live job that was not there
      yet when it looked: nothing it saw dates from that job's start or later. */
  lemma OnlyLaterWorkIsLost(b: Bounds, s: State)
    requires b.jobTimeout <= b.maxAge && Reachable(b, s) && s.sweep.Condemned? && s.job.Some?
    ensures !HasSince(s.sweep.seen, s.job.value)
    ensures EndangersWork(s) ==> s.tree != Some(s.sweep.seen)
  {
    ReachableKeepsInv(b, s);
    NewestBoundsAll(s.sweep.seen, s.job.value);
  }

  // ----- where it does lose work -----

  lemma Go(b: Bounds, s: State, step: Step) returns (s': State)
    requires Reachable(b, s) && Enabled(b, s, step)
    ensures Reachable(b, s') && s' == Apply(b, s, step)
  {
    var init, steps :| Initial(init) && Leads(b, init, steps, s);
    s' := Apply(b, s, step);
    LeadsOneMore(b, init, steps, s, step);
  }

  lemma {:induction false} LeadsOneMore(b: Bounds, init: State, steps: seq<Step>, s: State, step: Step)
    requires Leads(b, init, steps, s) && Enabled(b, s, step)
    ensures Leads(b, init, steps + [step], Apply(b, s, step))
    decreases |steps|
  {
    var longer := steps + [step];
    if steps == [] {
      assert longer[1..] == [];
    } else {
      assert longer[0] == steps[0] && longer[1..] == steps[1..] + [step];
      LeadsOneMore(b, Apply(b, init, steps[0]), steps[1..], s, step);
    }
  }

  /** A directory a crashed job left at time 0. */
  const OLD: Node := Dir(0, true, [])

  /** For every timeout and threshold: a retry starts over an old directory, the
      pass looks before its first write, and the removal takes that write while
      the job lives. So the guarantee ends exactly where OnlyLaterWorkIsLost does. */
  lemma RetryCanLoseItsWork(b: Bounds) returns (s: State, s': State)
    ensures Reachable(b, s) && EndangersWork(s)
    ensures Enabled(b, s, SweepRemoves(None)) && s' == Apply(b, s, SweepRemoves(None))
    ensures s'.job.Some? && s'.job == s.job && s'.tree.None?
  {
    s := Looked(b);
    var written := Dir(s.now, true, []);
    assert Holds(written, written);
    s := Go(b, s, JobWrites(written));
    s' := Apply(b, s, SweepRemoves(None));
  }

  /** The same when the retry only starts once the pass has looked. */
  lemma LaterRetryCanLoseItsWork(b: Bounds) returns (s: State)
    ensures Reachable(b, s) && EndangersWork(s) && s.job.value > s.sweep.look
  {
    var init := State(0, Some(OLD), None, Idle);
    assert Leads(b, init, [], init);
    s := Go(b, init, Passes(b.maxAge + 1));
    s := Go(b, s, SweepBegins);
    s := Go(b, s, SweepLooks);
    s := Go(b, s, Passes(1));
    s := Go(b, s, JobStarts);
    var written := Dir(s.now, true, []);
    assert Holds(written, written);
    s := Go(b, s, JobWrites(written));
  }

  lemma Looked(b: Bounds) returns (s: State)
    ensures Reachable(b, s) && s == State(b.maxAge + 1, Some(OLD), Some(b.maxAge + 1),
                                          Condemned(b.maxAge + 1, b.maxAge + 1, OLD))
  {
    var init := State(0, Some(OLD), None, Idle);
    assert Leads(b, init, [], init);
    s := Go(b, init, Passes(b.maxAge + 1));
    s := Go(b, s, JobStarts);
    s := Go(b, s, SweepBegins);
    s := Go(b, s, SweepLooks);
  }
}
