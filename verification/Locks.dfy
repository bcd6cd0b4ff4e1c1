/**
 The daemon-wide lock registry as values: who holds what on each resource, one
 attempt at a grant, release of one level, and release of everything a holder has.
 */
module LockModel {
  import opened Common

  type HolderId = nat

  /** A HiSLIP session's identity. The two bit fields do not overlap, so `|` is `+`. */
  function HislipId(sessionId: u16): HolderId { 0x1_0000_0000 + sessionId }

  /** A VXI-11 link's identity; `lid as u32` is `lid` modulo 2^32. */
  function Vxi11Id(lid: i32): HolderId { 0x2_0000_0000 + lid % 0x1_0000_0000 }

  lemma IdentitiesNeverCollide(s: u16, s': u16, l: i32, l': i32)
    ensures HislipId(s) == HislipId(s') ==> s == s'
    ensures Vxi11Id(l) == Vxi11Id(l') ==> l == l'
    ensures HislipId(s) != Vxi11Id(l)
  {
    assert l % 0x1_0000_0000 == if l >= 0 then l else l + 0x1_0000_0000;
    assert l' % 0x1_0000_0000 == if l' >= 0 then l' else l' + 0x1_0000_0000;
  }

  datatype LockResponse = Failure | SuccessExclusive | SuccessShared | Error {
    predicate IsSuccess() { SuccessExclusive? || SuccessShared? }
  }

  datatype Exclusive = Nobody | Held(holder: HolderId, depth: nat)

  datatype LockTable = LockTable(exclusive: Exclusive, sharedName: Option<string>, shared: map<HolderId, nat>) {
    predicate IsEmpty() { exclusive.Nobody? && shared == map[] }

    predicate HeldBy(id: HolderId) { (exclusive.Held? && exclusive.holder == id) || id in shared }

    predicate GrantsAccess(id: HolderId) { HeldBy(id) || IsEmpty() }

    /** The count reported by AsyncLockInfo. */
    function Holders(): nat {
      |shared| + if exclusive.Held? && exclusive.holder !in shared then 1 else 0
    }

    function HolderSet(): set<HolderId> {
      shared.Keys + if exclusive.Held? then {exclusive.holder} else {}
    }

    /** Nesting depth of a holder, over both kinds of lock. */
    function Depth(id: HolderId): nat {
      (if exclusive.Held? && exclusive.holder == id then exclusive.depth else 0)
      + (if id in shared then shared[id] else 0)
    }

    /** Everything the holder has here, gone. */
    function Without(id: HolderId): LockTable {
      var kept := shared - {id};
      LockTable(
        if exclusive.Held? && exclusive.holder == id then Nobody else exclusive,
        if id in shared && kept == map[] then None else sharedName,
        kept)
    }
  }

  const FREE := LockTable(Nobody, None, map[])

  /** One attempt on one table; `None` means it conflicts right now. */
  function TryGrant(t: LockTable, id: HolderId, name: string): Option<LockTable> {
    if name == "" then
      match t.exclusive
      case Held(holder, depth) =>
        if holder == id then Some(t.(exclusive := Held(id, depth + 1))) else None
      case Nobody =>
        if exists h :: h in t.shared && h != id then None else Some(t.(exclusive := Held(id, 1)))
    else
      if t.exclusive.Held? && t.exclusive.holder != id then None
      else if t.sharedName.Some? && t.sharedName.value != name then None
      else
        var depth := if id in t.shared then t.shared[id] else 0;
        Some(t.(sharedName := Some(name), shared := t.shared[id := depth + 1]))
  }

  type Tables = map<string, LockTable>

  function TableOf(ts: Tables, resource: string): LockTable {
    if resource in ts then ts[resource] else FREE
  }

  predicate Conflicts(ts: Tables, resource: string, id: HolderId, name: string) {
    TryGrant(TableOf(ts, resource), id, name).None?
  }

  predicate HasAccess(ts: Tables, resource: string, id: HolderId) {
    resource in ts ==> ts[resource].GrantsAccess(id)
  }

  predicate Holds(ts: Tables, resource: string, id: HolderId) {
    resource in ts && ts[resource].HeldBy(id)
  }

  function Info(ts: Tables, resource: string): (bool, nat) {
    if resource in ts then (ts[resource].exclusive.Held?, ts[resource].Holders()) else (false, 0)
  }

  /** The tables with an emptied one dropped. */
  function Store(ts: Tables, resource: string, t: LockTable): Tables {
    if t.IsEmpty() then ts - {resource} else ts[resource := t]
  }

  function Request(ts: Tables, resource: string, id: HolderId, name: string): (Tables, Option<LockResponse>) {
    match TryGrant(TableOf(ts, resource), id, name)
    case Some(t) => (ts[resource := t], Some(if name == "" then SuccessExclusive else SuccessShared))
    case None => (if TableOf(ts, resource).IsEmpty() then ts - {resource} else ts, None)
  }

  /** Release one level: of the exclusive lock first, else of the shared one. */
  function Release(ts: Tables, resource: string, id: HolderId): (Tables, LockResponse) {
    if resource !in ts then (ts, Error) else
    var t := ts[resource];
    if t.exclusive.Held? && t.exclusive.holder == id then
      var e := if t.exclusive.depth <= 1 then Nobody else Held(id, t.exclusive.depth - 1);
      (Store(ts, resource, t.(exclusive := e)), SuccessExclusive)
    else if id in t.shared then
      var t' := if t.shared[id] <= 1 then t.Without(id)
                else t.(shared := t.shared[id := t.shared[id] - 1]);
      (Store(ts, resource, t'), SuccessShared)
    else (ts, Error)
  }

  function ReleaseAll(ts: Tables, id: HolderId): Tables {
    map r | r in ts && !ts[r].Without(id).IsEmpty() :: ts[r].Without(id)
  }

  predicate HoldsAnywhere(ts: Tables, id: HolderId) { exists r :: r in ts && ts[r].HeldBy(id) }

  // ---- the inductive invariant ----

  /**
   Depths are positive, a shared name exists exactly while shared holders do, an exclusive
   holder shares the table with nobody else, and an empty table is never stored.
   */
  predicate TableOk(t: LockTable) {
    && (t.exclusive.Held? ==> t.exclusive.depth > 0 && t.shared.Keys <= {t.exclusive.holder})
    && (forall h :: h in t.shared ==> t.shared[h] > 0)
    && (t.sharedName.Some? <==> t.shared != map[])
    && !t.IsEmpty()
  }

  predicate TablesOk(ts: Tables) { forall r :: r in ts ==> TableOk(ts[r]) }

  lemma RequestKeepsTablesOk(ts: Tables, resource: string, id: HolderId, name: string)
    requires TablesOk(ts)
    ensures TablesOk(Request(ts, resource, id, name).0)
    ensures Request(ts, resource, id, name).1.None? ==> Request(ts, resource, id, name).0 == ts
  {
    var t := TableOf(ts, resource);
    match TryGrant(t, id, name)
    case None =>
    case Some(t') =>
      assert TableOk(t') by {
        if name == "" {
          if t.exclusive.Nobody? {
            assert forall h :: h in t.shared ==> h == id;
          }
        } else {
          assert id in t'.shared;
        }
      }
  }

  lemma ReleaseKeepsTablesOk(ts: Tables, resource: string, id: HolderId)
    requires TablesOk(ts)
    ensures TablesOk(Release(ts, resource, id).0)
    ensures Release(ts, resource, id).1.Error? ==> Release(ts, resource, id).0 == ts
    ensures Release(ts, resource, id).1.Error? <==> !Holds(ts, resource, id)
  {
    if resource in ts {
      var t := ts[resource];
      if !(t.exclusive.Held? && t.exclusive.holder == id) && id in t.shared {
        WithoutKeepsTable(t, id);
        assert t.shared[id] > 1 ==> t.shared[id := t.shared[id] - 1] != map[];
      }
    }
  }

  lemma WithoutKeepsTable(t: LockTable, id: HolderId)
    requires TableOk(t)
    ensures t.Without(id).IsEmpty() || TableOk(t.Without(id))
    ensures !t.HeldBy(id) ==> t.Without(id) == t
    ensures forall h :: t.Without(id).Depth(h) == if h == id then 0 else t.Depth(h)
  {
    if id !in t.shared {
      assert t.shared - {id} == t.shared;
    }
  }

  lemma ReleaseAllKeepsTablesOk(ts: Tables, id: HolderId)
    requires TablesOk(ts)
    ensures TablesOk(ReleaseAll(ts, id))
    ensures !HoldsAnywhere(ts, id) ==> ReleaseAll(ts, id) == ts
  {
    forall r | r in ts
      ensures ts[r].Without(id).IsEmpty() || TableOk(ts[r].Without(id))
      ensures !ts[r].HeldBy(id) ==> ts[r].Without(id) == ts[r]
    {
      WithoutKeepsTable(ts[r], id);
    }
  }

  // ---- what the invariant buys ----

  /** Two holders may both do I/O exactly when the resource is free or they share it. */
  lemma TwoWithAccess(ts: Tables, resource: string, a: HolderId, b: HolderId)
    requires TablesOk(ts) && a != b
    ensures HasAccess(ts, resource, a) && HasAccess(ts, resource, b)
       <==> || resource !in ts
            || (ts[resource].exclusive.Nobody? && a in ts[resource].shared && b in ts[resource].shared)
  {
    if resource in ts {
      assert TableOk(ts[resource]);
    }
  }

  lemma InfoCountsHolders(ts: Tables, resource: string)
    requires TablesOk(ts)
    ensures Info(ts, resource).1 == |TableOf(ts, resource).HolderSet()|
    ensures forall id :: id in TableOf(ts, resource).HolderSet() <==> TableOf(ts, resource).Depth(id) > 0
  {
    var t := TableOf(ts, resource);
    assert |t.shared| == |t.shared.Keys|;
    if t.exclusive.Held? && t.exclusive.holder in t.shared {
      assert t.HolderSet() == t.shared.Keys;
    }
  }
}
