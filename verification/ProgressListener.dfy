/** The progress card: a debounce per download and the listener that drives it
    (src/presentation/telegram/progress_listener.py). Times and percentages are
    real numbers; decoding JSON and rendering text are the library's. */
module ProgressListener {
  import opened Wrappers

  const MIN_INTERVAL_SECONDS := 3.0
  const MIN_PERCENT_STEP := 5.0

  datatype ThrottleState = ThrottleState(lastPercent: Option<real>, lastTs: real)

  /** A decoded payload; a phase that is missing or not a string is None. */
  datatype Payload = Payload(phase: Option<string>, percent: Option<real>, chatId: Option<int>, messageId: Option<int>)

  /** One pub/sub message; an undecodable payload is None. */
  datatype Message = Message(key: string, payload: Option<Payload>, now: real)

  datatype Edit = Edit(key: string, chatId: int, messageId: int, phase: Phase, percent: Option<real>)

  datatype Phase = Downloading | Converting | Uploading | Done | Failed {
    predicate Terminal() {
      Done? || Failed?
    }
  }

  /** Anything but the four known one-shot names reads as downloading. */
  function PhaseOf(payload: Payload): Phase {
    match payload.phase
    case None => Downloading
    case Some(name) =>
      if name == "converting" then Converting
      else if name == "uploading" then Uploading
      else if name == "done" then Done
      else if name == "failed" then Failed
      else Downloading
  }

  /** Each of the four names is its own phase, and nothing else is. */
  lemma PhasesByName(payload: Payload)
    ensures PhaseOf(payload) == Converting <==> payload.phase == Some("converting")
    ensures PhaseOf(payload) == Uploading <==> payload.phase == Some("uploading")
    ensures PhaseOf(payload) == Done <==> payload.phase == Some("done")
    ensures PhaseOf(payload) == Failed <==> payload.phase == Some("failed")
    ensures PhaseOf(payload) == Downloading
            <==> payload.phase !in {Some("converting"), Some("uploading"), Some("done"), Some("failed")}
  {
    assert "converting"[0] == 'c' && "uploading"[0] == 'u' && "done"[0] == 'd' && "failed"[0] == 'f';
  }

  function Abs(x: real): real {
    if x < 0.0 then -x else x
  }

  // ----- the debounce -----

  predicate Passes(entry: Option<ThrottleState>, percent: Option<real>, now: real) {
    match entry
    case None => true
    case Some(last) =>
      && now - last.lastTs >= MIN_INTERVAL_SECONDS
      && (percent.Some? && last.lastPercent.Some? ==> Abs(percent.value - last.lastPercent.value) >= MIN_PERCENT_STEP)
  }

  function EntryOf(state: map<string, ThrottleState>, key: string): Option<ThrottleState> {
    if key in state then Some(state[key]) else None
  }

  class ProgressThrottler {
    var state: map<string, ThrottleState>

    constructor ()
      ensures state == map[]
    {
      state := map[];
    }

    method ShouldEmit(key: string, percent: Option<real>, now: real) returns (emit: bool)
      modifies this
      ensures emit <==> Passes(old(EntryOf(state, key)), percent, now)
      ensures state == if emit then old(state)[key := ThrottleState(percent, now)] else old(state)
    {
      if key !in state {
        state := state[key := ThrottleState(percent, now)];
        return true;
      }
      var last := state[key];
      if now - last.lastTs < MIN_INTERVAL_SECONDS {
        return false;
      }
      if percent.Some? && last.lastPercent.Some? && Abs(percent.value - last.lastPercent.value) < MIN_PERCENT_STEP {
        return false;
      }
      state := state[key := ThrottleState(percent, now)];
      return true;
    }

    method Discard(key: string)
      modifies this
      ensures state == old(state) - {key}
    {
      state := state - {key};
    }
  }

  // ----- one message -----

  predicate IsStream(m: Message) {
    m.payload.Some? && PhaseOf(m.payload.value) == Downloading
  }

  predicate IsTerminal(m: Message) {
    m.payload.Some? && PhaseOf(m.payload.value).Terminal()
  }

  /** The entry of a message's own key afterwards. */
  function EntryAfter(entry: Option<ThrottleState>, m: Message): Option<ThrottleState> {
    if IsTerminal(m) then None
    else if IsStream(m) && Passes(entry, m.payload.value.percent, m.now) then
      Some(ThrottleState(m.payload.value.percent, m.now))
    else entry
  }

  /** A stream update the debounce lets through. */
  predicate Emits(entry: Option<ThrottleState>, m: Message) {
    IsStream(m) && Passes(entry, m.payload.value.percent, m.now)
  }

  /** The edit a message leads to: one-shot phases always, stream updates when
      emitted, and only with coordinates. */
  function EditOf(entry: Option<ThrottleState>, m: Message): Option<Edit> {
    if m.payload.None? || (IsStream(m) && !Emits(entry, m)) then None
    else
      var p := m.payload.value;
      if p.chatId.None? || p.messageId.None? then None
      else Some(Edit(m.key, p.chatId.value, p.messageId.value, PhaseOf(p), p.percent))
  }

  class TelegramProgressListener {
    const throttler: ProgressThrottler
    var edits: seq<Edit>

    constructor (throttler: ProgressThrottler)
      ensures this.throttler == throttler && edits == []
    {
      this.throttler := throttler;
      edits := [];
    }

    method HandleMessage(m: Message)
      modifies this, throttler
      ensures throttler.state == StateAfter(old(throttler.state), m)
      ensures edits == old(edits) + AsSeq(EditOf(old(EntryOf(throttler.state, m.key)), m))
    {
      if m.payload.None? {
        return;
      }
      var payload := m.payload.value;
      var phase := PhaseOf(payload);
      if phase.Terminal() {
        throttler.Discard(m.key);
      } else if phase == Downloading {
        var emit := throttler.ShouldEmit(m.key, payload.percent, m.now);
        if !emit {
          return;
        }
      }
      if payload.chatId.None? || payload.messageId.None? {
        return;
      }
      edits := edits + [Edit(m.key, payload.chatId.value, payload.messageId.value, phase, payload.percent)];
    }

    /** `run`: every message in the order it is heard. */
    method Run(messages: seq<Message>)
      modifies this, throttler
      ensures throttler.state == StateAfterAll(old(throttler.state), messages)
      ensures edits == old(edits) + EditsOf(old(throttler.state), messages)
    {
      for i := 0 to |messages|
        invariant throttler.state == StateAfterAll(old(throttler.state), messages[..i])
        invariant edits == old(edits) + EditsOf(old(throttler.state), messages[..i])
      {
        assert messages[..i + 1][..i] == messages[..i];
        HandleMessage(messages[i]);
      }
      assert messages[..|messages|] == messages;
    }
  }

  function AsSeq<T>(o: Option<T>): seq<T> {
    if o.Some? then [o.value] else []
  }

  function WithEntry(state: map<string, ThrottleState>, key: string, entry: Option<ThrottleState>)
    : map<string, ThrottleState> {
    if entry.Some? then state[key := entry.value] else state - {key}
  }

  function StateAfter(state: map<string, ThrottleState>, m: Message): map<string, ThrottleState> {
    WithEntry(state, m.key, EntryAfter(EntryOf(state, m.key), m))
  }

  // ----- whole traces -----

  function StateAfterAll(state: map<string, ThrottleState>, messages: seq<Message>): map<string, ThrottleState> {
    if messages == [] then state
    else StateAfter(StateAfterAll(state, messages[..|messages| - 1]), messages[|messages| - 1])
  }

  function EditsOf(state: map<string, ThrottleState>, messages: seq<Message>): seq<Edit> {
    if messages == [] then []
    else
      var before := messages[..|messages| - 1];
      var last := messages[|messages| - 1];
      EditsOf(state, before) + AsSeq(EditOf(EntryOf(StateAfterAll(state, before), last.key), last))
  }

  function OfKey(messages: seq<Message>, key: string): seq<Message> {
    if messages == [] then []
    else
      var last := messages[|messages| - 1];
      OfKey(messages[..|messages| - 1], key) + if last.key == key then [last] else []
  }

  function EditsOfKey(edits: seq<Edit>, key: string): seq<Edit> {
    if edits == [] then []
    else
      var last := edits[|edits| - 1];
      EditsOfKey(edits[..|edits| - 1], key) + if last.key == key then [last] else []
  }

  lemma EditsOfKeyOfConcat(a: seq<Edit>, e: Option<Edit>, key: string)
    ensures EditsOfKey(a + AsSeq(e), key)
            == EditsOfKey(a, key) + if e.Some? && e.value.key == key then [e.value] else []
  {
    var all := a + AsSeq(e);
    if e.Some? {
      assert all[..|all| - 1] == a;
    } else {
      assert all == a;
    }
  }

  lemma MessagesAreLocal(state: map<string, ThrottleState>, m: Message, key: string)
    ensures EntryOf(StateAfter(state, m), key)
            == if m.key == key then EntryAfter(EntryOf(state, key), m) else EntryOf(state, key)
  {
  }

  lemma OfKeyOfLast(before: seq<Message>, last: Message, key: string)
    ensures OfKey(before + [last], key) == if last.key == key then OfKey(before, key) + [last] else OfKey(before, key)
  {
    var all := before + [last];
    assert all[..|all| - 1] == before;
  }

  lemma AfterLast(state: map<string, ThrottleState>, before: seq<Message>, last: Message)
    ensures StateAfterAll(state, before + [last]) == StateAfter(StateAfterAll(state, before), last)
    ensures EditsOf(state, before + [last])
            == EditsOf(state, before) + AsSeq(EditOf(EntryOf(StateAfterAll(state, before), last.key), last))
  {
    var all := before + [last];
    assert all[..|all| - 1] == before;
  }

  lemma {:induction false} EntriesAreIndependent(state: map<string, ThrottleState>, messages: seq<Message>, key: string)
    ensures EntryOf(StateAfterAll(state, messages), key) == EntryOf(StateAfterAll(state, OfKey(messages, key)), key)
  {
    if messages != [] {
      var before, last := messages[..|messages| - 1], messages[|messages| - 1];
      EntriesAreIndependent(state, before, key);
      assert messages == before + [last];
      OfKeyOfLast(before, last, key);
      MessagesAreLocal(StateAfterAll(state, before), last, key);
      if last.key == key {
        AfterLast(state, OfKey(before, key), last);
        MessagesAreLocal(StateAfterAll(state, OfKey(before, key)), last, key);
      }
    }
  }

  lemma LastEditIsLocal(state: map<string, ThrottleState>, before: seq<Message>, last: Message, key: string)
    requires EditsOfKey(EditsOf(state, before), key) == EditsOf(state, OfKey(before, key))
    ensures EditsOfKey(EditsOf(state, before + [last]), key) == EditsOf(state, OfKey(before + [last], key))
  {
    OfKeyOfLast(before, last, key);
    AfterLast(state, before, last);
    EditsOfKeyOfConcat(EditsOf(state, before), EditOf(EntryOf(StateAfterAll(state, before), last.key), last), key);
    if last.key == key {
      EntriesAreIndependent(state, before, key);
      AfterLast(state, OfKey(before, key), last);
    }
  }

  /** Keys never affect each other: in any interleaving, what one download's
      card shows and its debounce entry are those of its own messages alone. */
  lemma {:induction false} KeysAreIndependent(state: map<string, ThrottleState>, messages: seq<Message>, key: string)
    ensures EntryOf(StateAfterAll(state, messages), key) == EntryOf(StateAfterAll(state, OfKey(messages, key)), key)
    ensures EditsOfKey(EditsOf(state, messages), key) == EditsOf(state, OfKey(messages, key))
  {
    EntriesAreIndependent(state, messages, key);
    if messages != [] {
      KeysAreIndependent(state, messages[..|messages| - 1], key);
      LastEditIsLocal(state, messages[..|messages| - 1], messages[|messages| - 1], key);
      assert messages == messages[..|messages| - 1] + [messages[|messages| - 1]];
    }
  }

  /** The entry of a single-key trace after its first i messages. */
  function EntryAt(entry: Option<ThrottleState>, trace: seq<Message>, i: nat): Option<ThrottleState>
    requires i <= |trace|
  {
    if i == 0 then entry else EntryAfter(EntryAt(entry, trace, i - 1), trace[i - 1])
  }

  /** On a trace of one key, that is what the listener's own state holds; with
      KeysAreIndependent it is so for that key's messages in any trace. */
  lemma {:induction false} EntryAtIsState(state: map<string, ThrottleState>, trace: seq<Message>, key: string, i: nat)
    requires i <= |trace| && forall m :: m in trace ==> m.key == key
    ensures EntryOf(StateAfterAll(state, trace[..i]), key) == EntryAt(EntryOf(state, key), trace, i)
  {
    if i > 0 {
      EntryAtIsState(state, trace, key, i - 1);
      assert trace[..i] == trace[..i - 1] + [trace[i - 1]];
      AfterLast(state, trace[..i - 1], trace[i - 1]);
      MessagesAreLocal(StateAfterAll(state, trace[..i - 1]), trace[i - 1], key);
    }
  }

  predicate EmittedAt(entry: Option<ThrottleState>, trace: seq<Message>, i: nat)
    requires i < |trace|
  {
    Emits(EntryAt(entry, trace, i), trace[i])
  }

  function EmittedCount(entry: Option<ThrottleState>, trace: seq<Message>, i: nat, j: nat): nat
    requires i <= j <= |trace|
  {
    if i == j then 0
    else EmittedCount(entry, trace, i, j - 1) + if EmittedAt(entry, trace, j - 1) then 1 else 0
  }

  /** Between an emitted update and the next, with no terminal phase between,
      the entry is that update. */
  lemma {:induction false} EntryIsLastEmitted(entry: Option<ThrottleState>, trace: seq<Message>, i: nat, j: nat)
    requires i < j <= |trace| && EmittedAt(entry, trace, i)
    requires forall k :: i < k < j ==> !IsTerminal(trace[k]) && !EmittedAt(entry, trace, k)
    ensures EntryAt(entry, trace, j) == Some(ThrottleState(trace[i].payload.value.percent, trace[i].now))
  {
    if j > i + 1 {
      EntryIsLastEmitted(entry, trace, i, j - 1);
    }
  }

  /** Consecutive emitted updates of one download, no terminal phase between
      them, are at least three seconds apart and, when both percentages are
      known, at least five points apart. */
  lemma ConsecutiveUpdatesAreSpaced(entry: Option<ThrottleState>, trace: seq<Message>, i: nat, j: nat)
    requires i < j < |trace| && EmittedAt(entry, trace, i) && EmittedAt(entry, trace, j)
    requires forall k :: i < k < j ==> !IsTerminal(trace[k]) && !EmittedAt(entry, trace, k)
    ensures trace[j].now - trace[i].now >= 3.0
    ensures var p, q := trace[i].payload.value.percent, trace[j].payload.value.percent;
            p.Some? && q.Some? ==> Abs(q.value - p.value) >= 5.0
  {
    EntryIsLastEmitted(entry, trace, i, j);
  }

  /** Between two emissions nothing due is held back: the first message of a
      stream is emitted, and after an emission, with no terminal phase since, the
      next one is the first that is three seconds later and, both percentages
      known, five points away. */
  lemma DueUpdatesAreEmitted(entry: Option<ThrottleState>, trace: seq<Message>, i: nat, j: nat)
    requires i < j < |trace| && EmittedAt(entry, trace, i) && IsStream(trace[j])
    requires forall k :: i < k < j ==> !IsTerminal(trace[k]) && !EmittedAt(entry, trace, k)
    ensures var p, q := trace[i].payload.value.percent, trace[j].payload.value.percent;
            EmittedAt(entry, trace, j)
            <==> && trace[j].now - trace[i].now >= 3.0
                 && (p.Some? && q.Some? ==> (q.value - p.value >= 5.0 || p.value - q.value >= 5.0))
  {
    EntryIsLastEmitted(entry, trace, i, j);
  }

  lemma FirstUpdateIsEmitted(trace: seq<Message>)
    requires trace != [] && IsStream(trace[0])
    ensures EmittedAt(None, trace, 0)
  {
  }

  /** Which message edits the card, and how: with coordinates, any one-shot phase
      by its name, and a stream update the debounce lets through. */
  lemma EditsExactly(entry: Option<ThrottleState>, m: Message)
    ensures EditOf(entry, m).Some?
            <==> && m.payload.Some? && m.payload.value.chatId.Some? && m.payload.value.messageId.Some?
                 && (m.payload.value.phase in {Some("converting"), Some("uploading"), Some("done"), Some("failed")}
                     || Passes(entry, m.payload.value.percent, m.now))
    ensures EditOf(entry, m).Some? ==>
              var e, p := EditOf(entry, m).value, m.payload.value;
              && e.key == m.key && Some(e.chatId) == p.chatId && Some(e.messageId) == p.messageId
              && e.phase == PhaseOf(p) && e.percent == p.percent
    ensures IsTerminal(m) <==> m.payload.Some? && m.payload.value.phase in {Some("done"), Some("failed")}
  {
    if m.payload.Some? {
      PhasesByName(m.payload.value);
    }
  }

  /** What the counting argument carries along: the latest emission is three
      seconds later for each one before it. */
  ghost predicate Paced(entry: Option<ThrottleState>, count: nat, start: real) {
    count > 0 ==> entry.Some? && entry.value.lastTs >= start + 3.0 * (count as real - 1.0)
  }

  lemma {:induction false} EmissionsArePaced(
      entry: Option<ThrottleState>, trace: seq<Message>, i: nat, j: nat, start: real)
    requires i <= j <= |trace|
    requires forall k :: i <= k < j ==> !IsTerminal(trace[k]) && trace[k].now >= start
    ensures Paced(EntryAt(entry, trace, j), EmittedCount(entry, trace, i, j), start)
  {
    if i < j {
      EmissionsArePaced(entry, trace, i, j - 1, start);
    }
  }

  lemma {:induction false} LatestIsWithin(entry: Option<ThrottleState>, trace: seq<Message>, i: nat, j: nat, end: real)
    requires i <= j <= |trace| && EmittedCount(entry, trace, i, j) > 0
    requires forall k :: i <= k < j ==> !IsTerminal(trace[k]) && trace[k].now <= end
    ensures EntryAt(entry, trace, j).Some? && EntryAt(entry, trace, j).value.lastTs <= end
  {
    if !EmittedAt(entry, trace, j - 1) {
      LatestIsWithin(entry, trace, i, j - 1, end);
    }
  }

  /** Any stretch of a download's messages that lies within `span` seconds and
      has no terminal phase emits at most 1 + floor(span / 3) updates. */
  lemma EditRateIsBounded(
      entry: Option<ThrottleState>, trace: seq<Message>, i: nat, j: nat, start: real, span: real)
    requires i <= j <= |trace| && span >= 0.0
    requires forall k :: i <= k < j ==> !IsTerminal(trace[k]) && start <= trace[k].now <= start + span
    ensures EmittedCount(entry, trace, i, j) <= 1 + (span / 3.0).Floor
  {
    var count := EmittedCount(entry, trace, i, j);
    if count > 0 {
      EmissionsArePaced(entry, trace, i, j, start);
      LatestIsWithin(entry, trace, i, j, start + span);
      assert 3.0 * (count as real - 1.0) <= span;
      assert (count - 1) as real <= span / 3.0;
    }
  }

  /** A trace that ends in DONE or FAILED with coordinates ends with that edit,
      and leaves no entry for its key behind. */
  lemma TerminalPhaseEndsTheCard(state: map<string, ThrottleState>, messages: seq<Message>)
    requires messages != [] && IsTerminal(messages[|messages| - 1])
    ensures var last := messages[|messages| - 1];
            && last.key !in StateAfterAll(state, messages)
            && var p := last.payload.value;
               (p.chatId.Some? && p.messageId.Some? ==>
                  var edits := EditsOf(state, messages);
                  edits != [] && edits[|edits| - 1]
                                 == Edit(last.key, p.chatId.value, p.messageId.value, PhaseOf(p), p.percent))
  {
    assert StateAfterAll(state, messages)
           == StateAfter(StateAfterAll(state, messages[..|messages| - 1]), messages[|messages| - 1]);
  }
}
