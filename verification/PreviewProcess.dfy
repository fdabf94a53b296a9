/** Waiting for the preview child process and killing it in bounded time
    (`_stop_process` and `_collect_preview_result` in
    src/infrastructure/downloader/ytdlp_downloader.py). Times are milliseconds
    of the monotonic clock. */
module PreviewProcess {
  import opened Wrappers

  const POLL_MS := 500
  const LAST_LOOK_MS := 100
  const JOIN_MS := 5000

  /** What the executor thread comes back with. */
  datatype Outcome<T> = Reported(item: T) | NoResult | TimedOut

  /** The child as the operating system runs it, on any schedule: while it lives
      it may put its one result, flush it into the pipe, and exit, at any
      instant between two calls of the waiting thread. A terminate signal may be
      ignored, a kill is not and takes at most `killMs`. */
  class ChildProcess<T> {
    var clock: int
    var alive: bool
    var put: Option<T>
    var flushed: bool
    var taken: bool
    /** How often the waiting thread looked at the result queue. */
    ghost var looks: nat
    const killMs: nat

    constructor (killMs: nat)
      ensures alive && put.None? && !flushed && !taken && looks == 0 && this.killMs == killMs
    {
      this.killMs := killMs;
      clock := 0;
      alive, put, flushed, taken := true, None, false, false;
      looks := 0;
    }

    ghost predicate Valid()
      reads this
    {
      flushed ==> put.Some?
    }

    /** Anything the child can have done since it was last looked at. A dead
        child does nothing. */
    twostate predicate Evolved()
      reads this
    {
      && Valid() && clock == old(clock) && taken == old(taken) && looks == old(looks)
      && (alive ==> old(alive))
      && (old(put).Some? ==> put == old(put))
      && (old(flushed) ==> flushed)
      && (!old(alive) ==> put == old(put) && flushed == old(flushed))
    }

    method Evolve(choice: T)
      requires Valid()
      modifies this
      ensures Evolved()
    {
      if alive {
        if * {
          if put.None? {
            put := Some(choice);
          }
        }
        if * {
          if put.Some? {
            flushed := true;
          }
        }
        if * {
          alive := false;
        }
      }
    }

    /** `result_queue.get(timeout)`: the item as soon as it is in the pipe, or
        Empty after exactly the timeout. */
    method Get(timeout: nat, choice: T) returns (item: Option<T>)
      requires Valid()
      modifies this
      ensures Valid() && looks == old(looks) + 1
      ensures alive ==> old(alive)
      ensures old(put).Some? ==> put == old(put)
      ensures old(flushed) ==> flushed
      ensures !old(alive) ==> flushed == old(flushed) && put == old(put)
      ensures item.Some? ==>
                !old(taken) && taken && flushed && put == item && old(clock) <= clock <= old(clock) + timeout
      ensures item.None? ==> taken == old(taken) && (taken || !flushed) && clock == old(clock) + timeout
    {
      Evolve(choice);
      looks := looks + 1;
      if flushed && !taken {
        var wait: int :| 0 <= wait <= timeout;
        clock := clock + wait;
        taken := true;
        item := put;
      } else {
        clock := clock + timeout;
        item := None;
      }
    }

    method IsAlive(choice: T) returns (yes: bool)
      requires Valid()
      modifies this
      ensures Evolved() && yes == alive
    {
      Evolve(choice);
      yes := alive;
    }

    /** `process.join(timeout)`. */
    method Join(timeout: nat, choice: T)
      requires Valid()
      modifies this
      ensures Valid() && taken == old(taken) && looks == old(looks)
      ensures old(put).Some? ==> put == old(put)
      ensures old(flushed) ==> flushed
      ensures !old(alive) ==> !alive && clock == old(clock) && flushed == old(flushed)
      ensures old(clock) <= clock <= old(clock) + timeout
    {
      if alive {
        Evolve(choice);
        if alive {
          clock := clock + timeout;
        } else {
          var wait: int :| 0 <= wait <= timeout;
          clock := clock + wait;
        }
      }
    }

    /** SIGKILL and an unbounded join. */
    method KillAndJoin()
      requires Valid()
      modifies this
      ensures Valid() && !alive
      ensures put == old(put) && flushed == old(flushed) && taken == old(taken) && looks == old(looks)
      ensures old(clock) <= clock <= old(clock) + killMs
    {
      var wait: int :| 0 <= wait <= killMs;
      clock := clock + wait;
      alive := false;
    }

    /** `_stop_process`: SIGTERM, five seconds, then SIGKILL. */
    method Stop(choice: T)
      requires Valid()
      modifies this
      ensures Valid() && !alive && taken == old(taken) && looks == old(looks)
      ensures old(put).Some? ==> put == old(put)
      ensures old(flushed) ==> flushed
      ensures old(clock) <= clock <= old(clock) + JOIN_MS + killMs
    {
      Join(JOIN_MS, choice);
      if alive {
        KillAndJoin();
      }
    }

    /** `_collect_preview_result`. On every schedule of the child it comes back
        within the timeout, one last look, two joins and the kill; the child is
        dead; a reported item is the one the child put; "no result" means the
        child exited with nothing in the pipe; and a timeout is never early. A
        result that is already there is always reported, a child already dead
        without one is reported after one look and a last one, and a timeout
        means it looked all along. */
    method CollectPreviewResult(timeout: int, choice: T) returns (outcome: Outcome<T>)
      requires Valid() && !taken
      modifies this
      ensures !alive
      ensures clock <= old(clock) + (if timeout > 0 then timeout else 0) + LAST_LOOK_MS + 2 * JOIN_MS + killMs
      ensures outcome.Reported? ==> put == Some(outcome.item) && flushed && taken
      ensures outcome.NoResult? ==> !flushed && clock <= old(clock) + timeout + LAST_LOOK_MS
      ensures old(flushed) && timeout > 0 ==> outcome.Reported? && Some(outcome.item) == old(put)
      ensures !old(alive) && !old(flushed) && timeout > 0 ==>
                outcome.NoResult? && clock <= old(clock) + POLL_MS + LAST_LOOK_MS
      ensures outcome.TimedOut? ==> (looks - old(looks)) * POLL_MS >= timeout
      ensures outcome.TimedOut? ==> clock >= old(clock) + timeout
    {
      var deadline := clock + timeout;
      while deadline - clock > 0
        invariant Valid() && !taken
        invariant old(clock) <= clock <= old(clock) + if timeout > 0 then timeout else 0
        invariant looks >= old(looks) && clock - old(clock) <= (looks - old(looks)) * POLL_MS
        invariant old(flushed) ==> flushed && put == old(put) && clock == old(clock)
        invariant !old(alive) ==> !alive && flushed == old(flushed)
        invariant !old(alive) && !old(flushed) ==> clock == old(clock)
        decreases deadline - clock
      {
        var remaining := deadline - clock;
        var item := Get(if remaining < POLL_MS then remaining else POLL_MS, choice);
        if item.None? {
          var running := IsAlive(choice);
          if running {
            continue;
          }
          item := Get(LAST_LOOK_MS, choice);
          if item.None? {
            Join(0, choice);
            return NoResult;
          }
        }
        Join(JOIN_MS, choice);
        if alive {
          Stop(choice);
        }
        return Reported(item.value);
      }
      Stop(choice);
      return TimedOut;
    }
  }
}
