/** The download directory and its sweep (src/infrastructure/storage/local_storage.py). */
module LocalStorage {
  import opened Wrappers

  /** A node as the walk meets it. `stats` is false when `lstat` no longer finds
      it (it vanished mid-walk); a directory's `children` are what listing it
      gives, which is nothing once it is gone. A link is never followed. */
  datatype Node =
    | File(mtime: int, stats: bool)
    | Link(mtime: int, stats: bool)
    | Dir(mtime: int, stats: bool, children: seq<Node>)

  function Max(a: int, b: int): int {
    if a < b then b else a
  }

  // ----- the newest activity, defined by the tree's own shape -----

  /** Newest mtime of everything below the listed nodes and of the nodes that
      still exist, starting from `newest`. */
  function NewestAmong(nodes: seq<Node>, newest: int): int {
    if nodes == [] then newest
    else
      var own := if nodes[0].stats then Max(newest, nodes[0].mtime) else newest;
      var below := if nodes[0].Dir? then NewestAmong(nodes[0].children, own) else own;
      NewestAmong(nodes[1..], below)
  }

  function NewestIn(entry: Node): int {
    if entry.Dir? then NewestAmong(entry.children, entry.mtime) else entry.mtime
  }

  ghost predicate Under(node: Node, entry: Node)
    decreases entry
  {
    entry.Dir? && exists child <- entry.children :: node == child || Under(node, child)
  }

  /** `when` is the mtime of the entry itself or of some existing node below it,
      and nothing that exists below is newer. */
  ghost predicate IsNewest(entry: Node, when: int) {
    && (when == entry.mtime || exists node :: Under(node, entry) && node.stats && node.mtime == when)
    && when >= entry.mtime
    && forall node :: Under(node, entry) && node.stats ==> node.mtime <= when
  }

  ghost predicate Below(node: Node, nodes: seq<Node>) {
    exists child <- nodes :: node == child || Under(node, child)
  }

  lemma {:induction false} NewestAmongIsMax(nodes: seq<Node>, newest: int)
    ensures var when := NewestAmong(nodes, newest);
            && when >= newest
            && (forall node :: Below(node, nodes) && node.stats ==> node.mtime <= when)
            && (when == newest || exists node :: Below(node, nodes) && node.stats && node.mtime == when)
    decreases nodes
  {
    if nodes != [] {
      var first := nodes[0];
      var own := if first.stats then Max(newest, first.mtime) else newest;
      var below := if first.Dir? then NewestAmong(first.children, own) else own;
      if first.Dir? {
        NewestAmongIsMax(first.children, own);
        assert forall node :: Below(node, first.children) <==> Under(node, first);
      }
      NewestAmongIsMax(nodes[1..], below);
      forall node
        ensures Below(node, nodes) <==> node == first || Under(node, first) || Below(node, nodes[1..])
      {
        BelowSplits(node, nodes);
      }
    }
  }

  lemma BelowSplits(node: Node, nodes: seq<Node>)
    requires nodes != []
    ensures Below(node, nodes) <==> node == nodes[0] || Under(node, nodes[0]) || Below(node, nodes[1..])
  {
    if Below(node, nodes) {
      var child :| child in nodes && (node == child || Under(node, child));
      assert child == nodes[0] || child in nodes[1..];
    }
    if Below(node, nodes[1..]) {
      var child :| child in nodes[1..] && (node == child || Under(node, child));
      assert child in nodes;
    }
    assert nodes[0] in nodes;
  }

  lemma BelowIsUnder(entry: Node)
    requires entry.Dir?
    ensures forall node :: Below(node, entry.children) <==> Under(node, entry)
  {
  }

  /** The recursive definition is the maximum over the whole tree. */
  lemma NewestInIsMax(entry: Node)
    ensures IsNewest(entry, NewestIn(entry))
  {
    if entry.Dir? {
      NewestAmongIsMax(entry.children, entry.mtime);
      BelowIsUnder(entry);
      var when := NewestIn(entry);
      if when != entry.mtime {
        var node :| Below(node, entry.children) && node.stats && node.mtime == when;
        assert Under(node, entry);
      }
      assert forall node :: Under(node, entry) ==> Below(node, entry.children);
    }
  }

  lemma NewestIsUnique(entry: Node, a: int, b: int)
    requires IsNewest(entry, a) && IsNewest(entry, b)
    ensures a == b
  {
  }

  // ----- the walk -----

  function Size(node: Node): nat {
    if node.Dir? then 1 + SizeAll(node.children) else 1
  }

  function SizeAll(nodes: seq<Node>): nat {
    if nodes == [] then 0 else Size(nodes[0]) + SizeAll(nodes[1..])
  }

  lemma {:induction false} SizeOfConcat(a: seq<Node>, b: seq<Node>)
    ensures SizeAll(a + b) == SizeAll(a) + SizeAll(b)
  {
    if a == [] {
      assert a + b == b;
    } else {
      SizeOfConcat(a[1..], b);
      assert (a + b)[1..] == a[1..] + b;
    }
  }

  /** The sub-directories a walk descends into. */
  function SubDirs(nodes: seq<Node>): (dirs: seq<Node>)
    ensures forall d :: d in dirs ==> d in nodes && d.Dir?
    ensures forall d :: d in nodes && d.Dir? ==> d in dirs
    ensures SizeAll(dirs) <= SizeAll(nodes)
  {
    if nodes == [] then []
    else
      var rest := SubDirs(nodes[1..]);
      if nodes[0].Dir? then [nodes[0]] + rest else rest
  }

  ghost predicate UnderAny(node: Node, stack: seq<Node>) {
    exists d <- stack :: Under(node, d)
  }

  lemma {:induction false} UnderIsTransitive(a: Node, b: Node, c: Node)
    requires Under(a, b) && Under(b, c)
    ensures Under(a, c)
    decreases c
  {
    var child :| child in c.children && (b == child || Under(b, child));
    if b != child {
      UnderIsTransitive(a, b, child);
    }
  }

  ghost predicate WithinTree(d: Node, entry: Node) {
    d == entry || Under(d, entry)
  }

  /** Every existing node of the tree has been seen or lies under the stack. */
  ghost predicate SeenOrStacked(entry: Node, newest: int, stack: seq<Node>) {
    forall node :: Under(node, entry) && node.stats ==> node.mtime <= newest || UnderAny(node, stack)
  }

  ghost predicate Witnessed(entry: Node, newest: int) {
    newest == entry.mtime || exists node :: Under(node, entry) && node.stats && node.mtime == newest
  }

  /** The names of one directory: `newest` raised by every one that still
      exists. */
  method NewestListed(nodes: seq<Node>, start: int) returns (newest: int)
    ensures newest >= start
    ensures forall node :: node in nodes && node.stats ==> node.mtime <= newest
    ensures newest == start || exists node :: node in nodes && node.stats && node.mtime == newest
  {
    newest := start;
    for i := 0 to |nodes|
      invariant newest >= start
      invariant forall k :: 0 <= k < i && nodes[k].stats ==> nodes[k].mtime <= newest
      invariant newest == start || exists node :: node in nodes && node.stats && node.mtime == newest
    {
      if nodes[i].stats {
        newest := Max(newest, nodes[i].mtime);
      }
    }
  }

  lemma ChildrenAreWithin(entry: Node, top: Node)
    requires WithinTree(top, entry) && top.Dir?
    ensures forall child :: child in top.children ==> Under(child, entry)
  {
    forall child | child in top.children
      ensures Under(child, entry)
    {
      assert Under(child, top);
      if top != entry {
        UnderIsTransitive(child, top, entry);
      }
    }
  }

  lemma StackStep(entry: Node, rest: seq<Node>, top: Node, before: int, newest: int)
    requires top.Dir? && before <= newest
    requires SeenOrStacked(entry, before, rest + [top])
    requires forall child :: child in top.children && child.stats ==> child.mtime <= newest
    ensures SeenOrStacked(entry, newest, rest + SubDirs(top.children))
    ensures SizeAll(rest + SubDirs(top.children)) < SizeAll(rest + [top])
  {
    var stack := rest + SubDirs(top.children);
    forall node | Under(node, entry) && node.stats && node.mtime > newest
      ensures UnderAny(node, stack)
    {
      var d :| d in rest + [top] && Under(node, d);
      if d in rest {
        assert d in stack;
      } else {
        var child :| child in top.children && (node == child || Under(node, child));
        assert child in stack;
      }
    }
    SizeOfConcat(rest, [top]);
    SizeOfConcat(rest, SubDirs(top.children));
    assert SizeAll([top]) == Size(top);
  }

  /** `os.walk` top-down with a stack, looking at each listed name once. The
      result is the recursive maximum. */
  method LastActivity(entry: Node) returns (newest: int)
    ensures newest == NewestIn(entry)
  {
    newest := entry.mtime;
    if entry.Dir? {
      var stack := [entry];
      assert forall node :: Under(node, entry) ==> UnderAny(node, stack);
      while stack != []
        invariant newest >= entry.mtime && Witnessed(entry, newest)
        invariant forall d :: d in stack ==> d.Dir? && WithinTree(d, entry)
        invariant SeenOrStacked(entry, newest, stack)
        decreases SizeAll(stack)
      {
        var rest, top := stack[..|stack| - 1], stack[|stack| - 1];
        assert stack == rest + [top];
        ghost var before := newest;
        ChildrenAreWithin(entry, top);
        newest := NewestListed(top.children, newest);
        StackStep(entry, rest, top, before, newest);
        stack := rest + SubDirs(top.children);
      }
    }
    NewestInIsMax(entry);
    NewestIsUnique(entry, newest, NewestIn(entry));
  }

  // ----- the sweep -----

  /** A top-level entry. `present` is false when a job released it between the
      listing and the first `lstat`; `leftover` is what an attempt to remove it
      would leave behind (None when it is gone afterwards). */
  datatype Entry = Entry(tree: Node, present: bool, leftover: Option<Node>)

  predicate Expired(entry: Entry, now: int, maxAge: int) {
    entry.present && now - NewestIn(entry.tree) > maxAge
  }

  /** Expired means every existing node is too old, the entry's own included, and
      the entry was there to look at. */
  lemma ExpiredExactly(entry: Entry, now: int, maxAge: int)
    ensures Expired(entry, now, maxAge)
            <==> && entry.present && now - entry.tree.mtime > maxAge
                 && forall node :: Under(node, entry.tree) && node.stats ==> now - node.mtime > maxAge
  {
    NewestInIsMax(entry.tree);
    var when := NewestIn(entry.tree);
    if when != entry.tree.mtime {
      var node :| Under(node, entry.tree) && node.stats && node.mtime == when;
    }
  }

  class LocalFileStorage {
    var entries: map<string, Entry>
    /** Names whose removal was attempted, in order. */
    ghost var attempted: seq<string>

    constructor (entries: map<string, Entry>)
      ensures this.entries == entries && attempted == []
    {
      this.entries := entries;
      attempted := [];
    }

    /** True only if the entry is gone afterwards. */
    method Remove(name: string) returns (gone: bool)
      requires name in entries
      modifies this
      ensures attempted == old(attempted) + [name]
      ensures gone <==> old(entries)[name].leftover.None?
      ensures entries == AfterRemoval(old(entries), name)
      ensures |entries| == |old(entries)| - if gone then 1 else 0
    {
      attempted := attempted + [name];
      gone := entries[name].leftover.None?;
      if gone {
        entries := entries - {name};
      } else {
        entries := entries[name := entries[name].(tree := entries[name].leftover.value)];
      }
    }

    /** One entry of the listing. */
    method SweepOne(name: string, now: int, maxAge: int) returns (gone: bool)
      requires name in entries
      modifies this
      ensures attempted == old(attempted) + Attempt(old(entries)[name], name, now, maxAge)
      ensures entries == SweptOne(old(entries), name, now, maxAge)
      ensures gone <==> name !in entries
      ensures |entries| == |old(entries)| - if gone then 1 else 0
    {
      gone := false;
      if entries[name].present {
        var newest := LastActivity(entries[name].tree);
        if now - newest > maxAge {
          gone := Remove(name);
        }
      }
    }

    /** One pass over a listing of the directory. What the final state means
        entry by entry is SweepIsExact. */
    method CleanupExpired(listing: seq<string>, now: int, maxAge: int) returns (removed: nat)
      requires forall i, j :: 0 <= i < j < |listing| ==> listing[i] != listing[j]
      requires forall name :: name in listing <==> name in entries
      modifies this
      ensures entries == SweptAll(old(entries), listing, now, maxAge)
      ensures attempted == old(attempted) + ExpiredNames(old(entries), listing, now, maxAge)
      ensures removed == |old(entries)| - |entries|
    {
      removed := 0;
      ghost var before, tried := entries, [];
      for i := 0 to |listing|
        invariant PassSoFar(before, listing, i, now, maxAge, entries, tried)
        invariant attempted == old(attempted) + tried
        invariant removed == |before| - |entries|
      {
        PassGrows(before, listing, i, now, maxAge, entries, tried);
        ghost var attempt := Attempt(entries[listing[i]], listing[i], now, maxAge);
        var gone := SweepOne(listing[i], now, maxAge);
        tried := tried + attempt;
        if gone {
          removed := removed + 1;
        }
      }
      assert listing[..|listing|] == listing;
    }
  }

  /** The rest of the listing is as the pass found it. */
  ghost predicate Untouched(entries: map<string, Entry>, before: map<string, Entry>, listing: seq<string>, i: nat) {
    forall k :: i <= k < |listing| ==>
      listing[k] in entries && listing[k] in before && entries[listing[k]] == before[listing[k]]
  }

  lemma UntouchedAfterOne(
      was: map<string, Entry>, entries: map<string, Entry>, before: map<string, Entry>, listing: seq<string>, i: nat)
    requires i < |listing| && forall j, k :: 0 <= j < k < |listing| ==> listing[j] != listing[k]
    requires Untouched(was, before, listing, i) && entries - {listing[i]} == was - {listing[i]}
    ensures Untouched(entries, before, listing, i + 1)
  {
    forall k | i + 1 <= k < |listing|
      ensures listing[k] in entries && listing[k] in before && entries[listing[k]] == before[listing[k]]
    {
      assert listing[k] in was - {listing[i]};
    }
  }

  /** What a pass has done after its first i entries. */
  ghost predicate PassSoFar(
      before: map<string, Entry>, listing: seq<string>, i: nat, now: int, maxAge: int,
      entries: map<string, Entry>, tried: seq<string>)
  {
    && i <= |listing| && (forall name :: name in listing ==> name in before)
    && (forall j, k :: 0 <= j < k < |listing| ==> listing[j] != listing[k])
    && entries == SweptAll(before, listing[..i], now, maxAge)
    && tried == ExpiredNames(before, listing[..i], now, maxAge)
    && Untouched(entries, before, listing, i)
  }

  lemma PassGrows(
      before: map<string, Entry>, listing: seq<string>, i: nat, now: int, maxAge: int,
      entries: map<string, Entry>, tried: seq<string>)
    requires i < |listing| && PassSoFar(before, listing, i, now, maxAge, entries, tried)
    ensures listing[i] in entries
    ensures PassSoFar(before, listing, i + 1, now, maxAge, SweptOne(entries, listing[i], now, maxAge),
                      tried + Attempt(entries[listing[i]], listing[i], now, maxAge))
  {
    SweepGrows(before, listing, i, now, maxAge);
    var after := SweptOne(entries, listing[i], now, maxAge);
    assert after - {listing[i]} == entries - {listing[i]};
    UntouchedAfterOne(entries, after, before, listing, i);
  }

  lemma SweepGrows(entries: map<string, Entry>, listing: seq<string>, i: nat, now: int, maxAge: int)
    requires i < |listing| && forall name :: name in listing ==> name in entries
    ensures SweptAll(entries, listing[..i + 1], now, maxAge)
            == SweptOne(SweptAll(entries, listing[..i], now, maxAge), listing[i], now, maxAge)
    ensures ExpiredNames(entries, listing[..i + 1], now, maxAge)
            == ExpiredNames(entries, listing[..i], now, maxAge) + Attempt(entries[listing[i]], listing[i], now, maxAge)
  {
    assert listing[..i + 1][..i] == listing[..i];
  }

  function AfterRemoval(entries: map<string, Entry>, name: string): map<string, Entry>
    requires name in entries
  {
    match entries[name].leftover
    case None => entries - {name}
    case Some(tree) => entries[name := entries[name].(tree := tree)]
  }

  function Attempt(entry: Entry, name: string, now: int, maxAge: int): seq<string> {
    if Expired(entry, now, maxAge) then [name] else []
  }

  function SweptOne(entries: map<string, Entry>, name: string, now: int, maxAge: int): map<string, Entry> {
    if name in entries && Expired(entries[name], now, maxAge) then AfterRemoval(entries, name) else entries
  }

  function SweptAll(entries: map<string, Entry>, listing: seq<string>, now: int, maxAge: int): map<string, Entry> {
    if listing == [] then entries
    else
      var last := |listing| - 1;
      SweptOne(SweptAll(entries, listing[..last], now, maxAge), listing[last], now, maxAge)
  }

  function ExpiredNames(entries: map<string, Entry>, listing: seq<string>, now: int, maxAge: int): seq<string>
    requires forall name :: name in listing ==> name in entries
  {
    if listing == [] then []
    else
      var last := |listing| - 1;
      ExpiredNames(entries, listing[..last], now, maxAge) + Attempt(entries[listing[last]], listing[last], now, maxAge)
  }

  ghost predicate Distinct(listing: seq<string>) {
    forall i, j :: 0 <= i < j < |listing| ==> listing[i] != listing[j]
  }

  /** What became of one entry. */
  ghost predicate SweptCorrectly(before: Entry, after: Option<Entry>, now: int, maxAge: int) {
    if !Expired(before, now, maxAge) then after == Some(before)
    else if before.leftover.None? then after == None
    else after == Some(before.(tree := before.leftover.value))
  }

  function Lookup(entries: map<string, Entry>, name: string): Option<Entry> {
    if name in entries then Some(entries[name]) else None
  }

  /** Entry by entry: the sweep attempts a listed entry exactly when its newest
      activity is older than the threshold, an attempted entry is gone or left
      as the removal left it, and nothing else changes. */
  lemma {:induction false} SweepIsExact(
      entries: map<string, Entry>, listing: seq<string>, now: int, maxAge: int, name: string)
    requires Distinct(listing) && name in entries
    requires forall n :: n in listing ==> n in entries
    ensures name in ExpiredNames(entries, listing, now, maxAge)
            <==> name in listing && Expired(entries[name], now, maxAge)
    ensures var after := Lookup(SweptAll(entries, listing, now, maxAge), name);
            if name in listing then SweptCorrectly(entries[name], after, now, maxAge) else after == Some(entries[name])
  {
    if listing != [] {
      var last := |listing| - 1;
      assert forall n :: n in listing <==> n in listing[..last] || n == listing[last];
      SweepIsExact(entries, listing[..last], now, maxAge, name);
      if listing[last] == name {
        assert name !in listing[..last];
      }
    }
  }

  /** A job started at `start` is over after `jobTimeout`, and the threshold is
      at least that. So while the job lives, a walk that finds any node written
      since its start never takes the directory for expired, whether the pass
      read its clock before the job started or after. */
  lemma LiveDownloadsAreSpared(
      entry: Entry, written: Node, start: int, clock: int, look: int, jobTimeout: nat, maxAge: int)
    requires jobTimeout <= maxAge && clock <= look <= start + jobTimeout
    requires (written == entry.tree || (Under(written, entry.tree) && written.stats)) && written.mtime >= start
    ensures !Expired(entry, clock, maxAge)
  {
    NewestInIsMax(entry.tree);
  }
}
