/** The short-lived store behind a preview card's token
    (src/infrastructure/preview_context/redis_preview_context_store.py). */
module PreviewStores {
  import opened Wrappers
  import opened FormatPolicies

  const KEY_PREFIX := "umd:preview:"

  /** A value as stored: what `_encode` wrote, or text `_decode` cannot read,
      such as the bare link an older version wrote. */
  datatype Stored = Encoded(context: PreviewContext) | Unreadable(raw: string)

  datatype Entry = Entry(value: Stored, expiresAt: int)

  type Entries = map<string, Entry>

  function Decode(value: Stored): Option<PreviewContext> {
    match value
    case Encoded(context) => Some(context)
    case Unreadable(_) => None
  }

  function Key(token: string): string {
    KEY_PREFIX + token
  }

  /** What a read of the token finds: nothing once it expired, and nothing for
      an entry that does not decode. */
  function Peek(entries: Entries, token: string, now: int): Option<PreviewContext> {
    if Key(token) in entries && now < entries[Key(token)].expiresAt then Decode(entries[Key(token)].value) else None
  }

  lemma KeysAreDistinct(a: string, b: string)
    ensures Key(a) == Key(b) <==> a == b
  {
    assert Key(a)[|KEY_PREFIX|..] == a && Key(b)[|KEY_PREFIX|..] == b;
  }

  /** One call on the store, and what it leaves. */
  datatype StoreOp =
    | SaveOp(token: string, context: PreviewContext, at: int)
    | GetOp(token: string, at: int)
    | DeleteOp(token: string, at: int)
    | PopOp(token: string, at: int)

  function AfterOp(entries: Entries, op: StoreOp, ttl: nat): Entries {
    match op
    case SaveOp(token, context, at) => entries[Key(token) := Entry(Encoded(context), at + ttl)]
    case GetOp(_, _) => entries
    case DeleteOp(token, _) => entries - {Key(token)}
    case PopOp(token, _) => entries - {Key(token)}
  }

  class RedisPreviewContextStore {
    const ttl: nat
    var entries: Entries

    constructor (ttl: nat)
      ensures this.ttl == ttl && entries == map[]
    {
      this.ttl := ttl;
      entries := map[];
    }

    /** `uuid` is the fresh uuid4 hex. */
    method Save(context: PreviewContext, uuid: string, now: int) returns (token: string)
      modifies this
      ensures token == uuid
      ensures entries == AfterOp(old(entries), SaveOp(token, context, now), ttl)
    {
      token := uuid;
      entries := entries[Key(token) := Entry(Encoded(context), now + ttl)];
    }

    method Get(token: string, now: int) returns (found: Option<PreviewContext>)
      ensures found == Peek(entries, token, now)
    {
      if Key(token) !in entries || entries[Key(token)].expiresAt <= now {
        return None;
      }
      return Decode(entries[Key(token)].value);
    }

    method Delete(token: string)
      modifies this
      ensures entries == AfterOp(old(entries), DeleteOp(token, 0), ttl)
    {
      entries := entries - {Key(token)};
    }

    /** GETDEL: one atomic claim. */
    method Pop(token: string, now: int) returns (found: Option<PreviewContext>)
      modifies this
      ensures found == Peek(old(entries), token, now)
      ensures entries == AfterOp(old(entries), PopOp(token, now), ttl)
    {
      found := Get(token, now);
      entries := entries - {Key(token)};
    }
  }

  // ----- what any history of calls answers -----

  /** The store after a history that began with it empty. */
  function AfterOps(ops: seq<StoreOp>, ttl: nat): Entries {
    if ops == [] then map[] else AfterOp(AfterOps(ops[..|ops| - 1], ttl), ops[|ops| - 1], ttl)
  }

  /** The k-th call saved `c` under the token, and since then the token was at
      most read. */
  ghost predicate SavedAndUntouched(ops: seq<StoreOp>, k: nat, token: string, c: PreviewContext) {
    && k < |ops| && ops[k].SaveOp? && ops[k].token == token && ops[k].context == c
    && forall m :: k < m < |ops| && ops[m].token == token ==> ops[m].GetOp?
  }

  lemma HistoryGrows(front: seq<StoreOp>, last: StoreOp, k: nat, token: string, c: PreviewContext)
    ensures SavedAndUntouched(front + [last], k, token, c)
            <==> if k < |front| then SavedAndUntouched(front, k, token, c) && (last.token == token ==> last.GetOp?)
                 else k == |front| && last.SaveOp? && last.token == token && last.context == c
  {
    var ops := front + [last];
    assert ops[|front|] == last && forall m :: 0 <= m < |front| ==> front[m] == ops[m];
  }

  lemma {:induction false} SaveSetsEntry(ops: seq<StoreOp>, ttl: nat, token: string, k: nat, c: PreviewContext)
    requires SavedAndUntouched(ops, k, token, c)
    ensures Key(token) in AfterOps(ops, ttl)
    ensures AfterOps(ops, ttl)[Key(token)] == Entry(Encoded(c), ops[k].at + ttl)
  {
    var front, last := ops[..|ops| - 1], ops[|ops| - 1];
    assert ops == front + [last];
    HistoryGrows(front, last, k, token, c);
    KeysAreDistinct(token, last.token);
    if k < |front| {
      SaveSetsEntry(front, ttl, token, k, c);
    }
  }

  lemma {:induction false} EntryComesFromSave(ops: seq<StoreOp>, ttl: nat, token: string)
    returns (k: nat, c: PreviewContext)
    requires Key(token) in AfterOps(ops, ttl)
    ensures SavedAndUntouched(ops, k, token, c)
    ensures AfterOps(ops, ttl)[Key(token)] == Entry(Encoded(c), ops[k].at + ttl)
  {
    var front, last := ops[..|ops| - 1], ops[|ops| - 1];
    assert ops == front + [last];
    KeysAreDistinct(token, last.token);
    if last.SaveOp? && last.token == token {
      k, c := |front|, last.context;
    } else {
      k, c := EntryComesFromSave(front, ttl, token);
    }
    HistoryGrows(front, last, k, token, c);
  }

  /** A read answers Some(c) exactly when the token's last save, less than the
      time to live ago, stored c and nothing deleted or claimed it since. */
  lemma ReadAnswersLastSave(ops: seq<StoreOp>, ttl: nat, token: string, now: int, c: PreviewContext)
    ensures Peek(AfterOps(ops, ttl), token, now) == Some(c)
            <==> exists k: nat :: SavedAndUntouched(ops, k, token, c) && now < ops[k].at + ttl
  {
    if Key(token) in AfterOps(ops, ttl) {
      var k, saved := EntryComesFromSave(ops, ttl, token);
    }
    forall k: nat | SavedAndUntouched(ops, k, token, c)
      ensures Key(token) in AfterOps(ops, ttl) && AfterOps(ops, ttl)[Key(token)] == Entry(Encoded(c), ops[k].at + ttl)
    {
      SaveSetsEntry(ops, ttl, token, k, c);
    }
  }

  /** Once a token was claimed or deleted, whether or not it was still live, it
      answers nothing until it is saved again; so of all the claims of a uuid4
      token at most one gets the context. */
  lemma ClaimedTokenStaysDead(ops: seq<StoreOp>, ttl: nat, i: nat, now: int)
    requires i < |ops| && (ops[i].PopOp? || ops[i].DeleteOp?)
    requires forall k :: i < k < |ops| && ops[k].token == ops[i].token ==> !ops[k].SaveOp?
    ensures Peek(AfterOps(ops, ttl), ops[i].token, now) == None
  {
    var answer := Peek(AfterOps(ops, ttl), ops[i].token, now);
    forall c
      ensures answer != Some(c)
    {
      assert forall k: nat :: !SavedAndUntouched(ops, k, ops[i].token, c);
      ReadAnswersLastSave(ops, ttl, ops[i].token, now, c);
    }
  }
}
