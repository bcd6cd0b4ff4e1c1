/**
 VXI-11 links against the shared lock registry. Each event is one stretch of the server
 between two awaits; a call that is waiting for a lock sits in `calls` until a later event
 resumes, aborts or expires it, and anything may happen in between.
 */
module Vxi11Links {
  import opened Common
  import opened LockModel

  const NO_ERROR := 0
  const INVALID_LINK := 4
  const OUT_OF_RESOURCES := 9
  const LOCKED := 11
  const NO_LOCK := 12
  const ABORT := 23

  datatype Link = Link(resource: string, owner: nat)

  /** What a connection's serve loop is suspended in. */
  datatype Call = Idle | Creating(lid: i32) | Locking(lid: i32)

  datatype Server = Server(
    links: map<i32, Link>,
    owned: map<nat, seq<i32>>,
    calls: map<nat, Call>,
    nextLid: int,
    maxLinks: nat,
    tables: Tables)

  datatype Event =
    | Create(conn: nat, resource: string, lock: bool, patient: bool)
    | Lock(conn: nat, lid: i32, patient: bool)
    | Resume(conn: nat, last: bool)
    | AbortWait(conn: nat)
    | Unlock(conn: nat, lid: i32)
    | Destroy(conn: nat, lid: i32)
    | Close(conn: nat)
    | HislipAsk(resource: string, sessionId: u16, name: string)
    | HislipFree(resource: string, sessionId: u16)
    | HislipFreeAll(sessionId: u16)

  datatype Reply = Nothing | Code(error: nat)

  function Owned(s: Server, conn: nat): seq<i32> { if conn in s.owned then s.owned[conn] else [] }
  function CallOf(s: Server, conn: nat): Call { if conn in s.calls then s.calls[conn] else Idle }
  function Retain(lids: seq<i32>, lid: i32): seq<i32> {
    if lids == [] then [] else (if lids[0] == lid then [] else [lids[0]]) + Retain(lids[1..], lid)
  }

  /** A connection only names links it created itself, or ones that do not exist. */
  predicate MayName(s: Server, conn: nat, lid: i32) {
    CallOf(s, conn).Idle? && (lid in s.links ==> s.links[lid].owner == conn)
  }

  predicate LidLeft(s: Server) { 1 <= s.nextLid < 0x8000_0000 }

  /** create_link's insertion, before any lock request: the lock needs the link's identity. */
  function Inserted(s: Server, conn: nat, resource: string): Server
    requires LidLeft(s)
  {
    s.(links := s.links[s.nextLid := Link(resource, conn)],
       owned := s.owned[conn := Owned(s, conn) + [s.nextLid]],
       nextLid := s.nextLid + 1)
  }

  function Unlinked(s: Server, conn: nat, lid: i32): Server {
    s.(links := s.links - {lid}, owned := s.owned[conn := Retain(Owned(s, conn), lid)])
  }

  /** One poll of the lock request a call is in: granted, given up, or still waiting. */
  function PollLock(s: Server, conn: nat, call: Call, last: bool): (Server, Reply)
    requires !call.Idle? && call.lid in s.links
  {
    var (ts, answer) := Request(s.tables, s.links[call.lid].resource, Vxi11Id(call.lid), "");
    var s' := s.(tables := ts);
    if answer.Some? then (s'.(calls := s'.calls - {conn}), Code(NO_ERROR))
    else if !last then (s'.(calls := s'.calls[conn := call]), Nothing)
    else ((if call.Creating? then Unlinked(s', conn, call.lid) else s').(calls := s'.calls - {conn}), Code(LOCKED))
  }

  function ReleaseEach(ts: Tables, lids: seq<i32>): Tables {
    if lids == [] then ts else ReleaseEach(ReleaseAll(ts, Vxi11Id(lids[0])), lids[1..])
  }

  function Step(s: Server, e: Event): (Server, Reply) {
    match e
    case Create(conn, resource, lock, patient) =>
      if !CallOf(s, conn).Idle? || !LidLeft(s) then (s, Nothing)
      else if |s.links| >= s.maxLinks then (s, Code(OUT_OF_RESOURCES))
      else
        var s' := Inserted(s, conn, resource);
        if lock then PollLock(s', conn, Creating(s.nextLid), !patient) else (s', Code(NO_ERROR))
    case Lock(conn, lid, patient) =>
      if !MayName(s, conn, lid) then (s, Nothing)
      else if lid !in s.links then (s, Code(INVALID_LINK))
      else if Holds(s.tables, s.links[lid].resource, Vxi11Id(lid)) then (s, Code(LOCKED))
      else PollLock(s, conn, Locking(lid), !patient)
    case Resume(conn, last) =>
      if CallOf(s, conn).Idle? || CallOf(s, conn).lid !in s.links then (s, Nothing)
      else PollLock(s, conn, CallOf(s, conn), last)
    case AbortWait(conn) =>
      if CallOf(s, conn).Locking? then (s.(calls := s.calls - {conn}), Code(ABORT)) else (s, Nothing)
    case Unlock(conn, lid) =>
      if !MayName(s, conn, lid) then (s, Nothing)
      else if lid !in s.links then (s, Code(INVALID_LINK))
      else if Holds(s.tables, s.links[lid].resource, Vxi11Id(lid)) then
        (s.(tables := Release(s.tables, s.links[lid].resource, Vxi11Id(lid)).0), Code(NO_ERROR))
      else (s, Code(NO_LOCK))
    case Destroy(conn, lid) =>
      if !MayName(s, conn, lid) then (s, Nothing)
      else if lid !in s.links then (s, Code(INVALID_LINK))
      else (Unlinked(s, conn, lid).(tables := ReleaseAll(s.tables, Vxi11Id(lid))), Code(NO_ERROR))
    case Close(conn) =>
      if !CallOf(s, conn).Idle? then (s, Nothing) else
      var gone := Owned(s, conn);
      (s.(links := s.links - (set l | l in gone), owned := s.owned - {conn}, tables := ReleaseEach(s.tables, gone)), Nothing)
    case HislipAsk(r, sid, name) => (s.(tables := Request(s.tables, r, HislipId(sid), name).0), Nothing)
    case HislipFree(r, sid) => (s.(tables := Release(s.tables, r, HislipId(sid)).0), Nothing)
    case HislipFreeAll(sid) => (s.(tables := ReleaseAll(s.tables, HislipId(sid))), Nothing)
  }

  function Run(maxLinks: nat, events: seq<Event>): Server {
    if events == [] then Server(map[], map[], map[], 1, maxLinks, map[])
    else Step(Run(maxLinks, events[..|events| - 1]), events[|events| - 1]).0
  }

  // ---- what a holder has on one resource ----

  /** Exclusive depth and shared depth. */
  function Grip(ts: Tables, resource: string, id: HolderId): (nat, nat) {
    var t := TableOf(ts, resource);
    (if t.exclusive.Held? && t.exclusive.holder == id then t.exclusive.depth else 0,
     if id in t.shared then t.shared[id] else 0)
  }

  lemma GripMeansHolds(ts: Tables, resource: string, id: HolderId)
    requires TablesOk(ts)
    ensures Grip(ts, resource, id) != (0, 0) <==> Holds(ts, resource, id)
  {
    assert TableOf(ts, resource) == FREE || TableOk(TableOf(ts, resource));
  }

  lemma RequestGrip(ts: Tables, r: string, i: HolderId, name: string, resource: string, id: HolderId)
    requires TablesOk(ts)
    ensures TablesOk(Request(ts, r, i, name).0)
    ensures id != i || resource != r ==> Grip(Request(ts, r, i, name).0, resource, id) == Grip(ts, resource, id)
    ensures Request(ts, r, i, "").1.Some? ==> Grip(Request(ts, r, i, "").0, r, i) == (Grip(ts, r, i).0 + 1, Grip(ts, r, i).1)
    ensures Request(ts, r, i, name).1.None? ==> Request(ts, r, i, name).0 == ts
  {
    RequestKeepsTablesOk(ts, r, i, name);
  }

  lemma ReleaseGrip(ts: Tables, r: string, i: HolderId, resource: string, id: HolderId)
    requires TablesOk(ts)
    ensures TablesOk(Release(ts, r, i).0)
    ensures id != i || resource != r ==> Grip(Release(ts, r, i).0, resource, id) == Grip(ts, resource, id)
    ensures Grip(ts, r, i) == (1, 0) ==> Grip(Release(ts, r, i).0, r, i) == (0, 0)
  {
    ReleaseKeepsTablesOk(ts, r, i);
    if r in ts {
      assert TableOk(ts[r]);
    }
  }

  lemma ReleaseAllGrip(ts: Tables, i: HolderId, resource: string, id: HolderId)
    requires TablesOk(ts)
    ensures TablesOk(ReleaseAll(ts, i))
    ensures Grip(ReleaseAll(ts, i), resource, id) == if id == i then (0, 0) else Grip(ts, resource, id)
  {
    ReleaseAllKeepsTablesOk(ts, i);
    if resource in ts {
      WithoutKeepsTable(ts[resource], i);
    }
  }

  lemma {:induction false} ReleaseEachGrip(ts: Tables, lids: seq<i32>, resource: string, lid: i32)
    requires TablesOk(ts)
    ensures TablesOk(ReleaseEach(ts, lids))
    ensures Grip(ReleaseEach(ts, lids), resource, Vxi11Id(lid))
         == if lid in lids then (0, 0) else Grip(ts, resource, Vxi11Id(lid))
  {
    if lids != [] {
      ReleaseAllGrip(ts, Vxi11Id(lids[0]), resource, Vxi11Id(lid));
      ReleaseEachGrip(ReleaseAll(ts, Vxi11Id(lids[0])), lids[1..], resource, lid);
      IdentitiesNeverCollide(0, 0, lid, lids[0]);
    }
  }

  lemma {:induction false} RetainKeepsOthers(lids: seq<i32>, lid: i32)
    ensures forall l :: l in Retain(lids, lid) <==> l in lids && l != lid
  {
    if lids != [] {
      RetainKeepsOthers(lids[1..], lid);
      assert forall l :: l in lids <==> l == lids[0] || l in lids[1..];
    }
  }

  // ---- the invariant ----

  /** A link's holder has nothing, or exactly one exclusive level on its own live link's resource. */
  predicate GripOk(s: Server, lid: i32, resource: string) {
    var g := Grip(s.tables, resource, Vxi11Id(lid));
    g == (0, 0) || (g == (1, 0) && lid in s.links && s.links[lid].resource == resource)
  }

  predicate OwnershipOk(s: Server) {
    && s.nextLid >= 1
    && (forall l :: l in s.links ==> l < s.nextLid && l in Owned(s, s.links[l].owner))
    && (forall c, l :: c in s.owned && l in s.owned[c] ==> l in s.links && s.links[l].owner == c)
  }

  /** A call waiting for a lock is for a live link of its own that holds nothing yet. */
  predicate CallOk(s: Server, conn: nat) {
    var call := CallOf(s, conn);
    call.Idle? || (&& call.lid in s.links && s.links[call.lid].owner == conn
                   && Grip(s.tables, s.links[call.lid].resource, Vxi11Id(call.lid)) == (0, 0))
  }

  ghost predicate LinksOk(s: Server) {
    && TablesOk(s.tables)
    && OwnershipOk(s)
    && (forall c: nat :: CallOk(s, c))
    && (forall lid: i32, r: string :: GripOk(s, lid, r))
  }

  lemma TablesChangeKeeps(s: Server, ts: Tables)
    requires LinksOk(s) && TablesOk(ts)
    requires forall lid: i32, r: string :: Grip(ts, r, Vxi11Id(lid)) == Grip(s.tables, r, Vxi11Id(lid))
    ensures LinksOk(s.(tables := ts))
  {
    var s' := s.(tables := ts);
    forall c: nat ensures CallOk(s', c) {
      assert CallOk(s, c);
    }
    forall lid: i32, r: string ensures GripOk(s', lid, r) {
      assert GripOk(s, lid, r);
    }
  }

  lemma HislipKeepsLinks(s: Server, e: Event)
    requires LinksOk(s) && (e.HislipAsk? || e.HislipFree? || e.HislipFreeAll?)
    ensures LinksOk(Step(s, e).0)
  {
    forall lid: i32, r: string
      ensures TablesOk(Step(s, e).0.tables)
      ensures Grip(Step(s, e).0.tables, r, Vxi11Id(lid)) == Grip(s.tables, r, Vxi11Id(lid))
    {
      IdentitiesNeverCollide(e.sessionId, 0, lid, 0);
      match e
      case HislipAsk(r', sid, name) => RequestGrip(s.tables, r', HislipId(sid), name, r, Vxi11Id(lid));
      case HislipFree(r', sid) => ReleaseGrip(s.tables, r', HislipId(sid), r, Vxi11Id(lid));
      case HislipFreeAll(sid) => ReleaseAllGrip(s.tables, HislipId(sid), r, Vxi11Id(lid));
    }
    assert Grip(Step(s, e).0.tables, "", Vxi11Id(0)) == Grip(s.tables, "", Vxi11Id(0));
    TablesChangeKeeps(s, Step(s, e).0.tables);
  }

  lemma UnlinkKeepsOwnership(s: Server, conn: nat, lid: i32)
    requires OwnershipOk(s) && lid in s.links && s.links[lid].owner == conn
    ensures OwnershipOk(Unlinked(s, conn, lid))
  {
    RetainKeepsOthers(Owned(s, conn), lid);
    var s' := Unlinked(s, conn, lid);
    forall l | l in s'.links ensures l < s'.nextLid && l in Owned(s', s'.links[l].owner) {
      assert l in s.links;
    }
  }

  lemma UnlinkKeepsCall(s: Server, conn: nat, lid: i32, ts: Tables, c: nat)
    requires CallOk(s, c) && lid in s.links && s.links[lid].owner == conn
    requires var call := CallOf(s, c);
             !call.Idle? && call.lid != lid ==>
               Grip(ts, s.links[call.lid].resource, Vxi11Id(call.lid)) == Grip(s.tables, s.links[call.lid].resource, Vxi11Id(call.lid))
    ensures CallOk(Unlinked(s, conn, lid).(tables := ts, calls := s.calls - {conn}), c)
  {
  }

  lemma UnlinkKeepsGrip(s: Server, conn: nat, lid: i32, ts: Tables, l: i32, r: string)
    requires GripOk(s, l, r) && Grip(ts, r, Vxi11Id(l)) == if l == lid then (0, 0) else Grip(s.tables, r, Vxi11Id(l))
    ensures GripOk(Unlinked(s, conn, lid).(tables := ts, calls := s.calls - {conn}), l, r)
  {
  }

  /** Removing a link with its holder's locks. */
  lemma UnlinkKeepsLinks(s: Server, conn: nat, lid: i32, ts: Tables)
    requires LinksOk(s) && TablesOk(ts)
    requires lid in s.links && s.links[lid].owner == conn
    requires forall l: i32, r: string :: Grip(ts, r, Vxi11Id(l)) == if l == lid then (0, 0) else Grip(s.tables, r, Vxi11Id(l))
    ensures LinksOk(Unlinked(s, conn, lid).(tables := ts, calls := s.calls - {conn}))
  {
    UnlinkKeepsOwnership(s, conn, lid);
    var s' := Unlinked(s, conn, lid).(tables := ts, calls := s.calls - {conn});
    forall c: nat ensures CallOk(s', c) {
      assert CallOk(s, c);
      UnlinkKeepsCall(s, conn, lid, ts, c);
    }
    forall l: i32, r: string ensures GripOk(s', l, r) {
      assert GripOk(s, l, r);
      UnlinkKeepsGrip(s, conn, lid, ts, l, r);
    }
  }

  /** A lock request moves the grip of its own link on its own resource, and no other link's. */
  lemma OnlyThisGripMoves(s: Server, lid: i32, res: string)
    requires TablesOk(s.tables)
    ensures var (ts, answer) := Request(s.tables, res, Vxi11Id(lid), "");
            && TablesOk(ts) && (answer.None? ==> ts == s.tables)
            && (answer.Some? ==> Grip(ts, res, Vxi11Id(lid)) == (Grip(s.tables, res, Vxi11Id(lid)).0 + 1, Grip(s.tables, res, Vxi11Id(lid)).1))
            && forall l: i32, r: string :: l != lid || r != res ==> Grip(ts, r, Vxi11Id(l)) == Grip(s.tables, r, Vxi11Id(l))
  {
    RequestGrip(s.tables, res, Vxi11Id(lid), "", res, Vxi11Id(lid));
    forall l: i32, r: string | l != lid || r != res
      ensures Grip(Request(s.tables, res, Vxi11Id(lid), "").0, r, Vxi11Id(l)) == Grip(s.tables, r, Vxi11Id(l))
    {
      IdentitiesNeverCollide(0, 0, l, lid);
      RequestGrip(s.tables, res, Vxi11Id(lid), "", r, Vxi11Id(l));
    }
  }

  /** A poll that gives a create_link up takes its link back. */
  lemma GivingUpKeepsLinks(s: Server, conn: nat, lid: i32)
    requires LinksOk(s) && lid in s.links && s.links[lid].owner == conn
    requires Grip(s.tables, s.links[lid].resource, Vxi11Id(lid)) == (0, 0)
    ensures LinksOk(Unlinked(s, conn, lid).(calls := s.calls - {conn}))
  {
    forall r: string ensures Grip(s.tables, r, Vxi11Id(lid)) == (0, 0) {
      assert GripOk(s, lid, r);
    }
    UnlinkKeepsLinks(s, conn, lid, s.tables);
    assert Unlinked(s, conn, lid).(calls := s.calls - {conn}) == Unlinked(s, conn, lid).(tables := s.tables, calls := s.calls - {conn});
  }

  /** A poll that is granted, goes on waiting, or gives a device_lock up keeps the links. */
  lemma StayingKeepsLinks(s: Server, conn: nat, call: Call, last: bool)
    requires LinksOk(s) && !call.Idle? && call.lid in s.links && s.links[call.lid].owner == conn
    requires Grip(s.tables, s.links[call.lid].resource, Vxi11Id(call.lid)) == (0, 0)
    requires PollLock(s, conn, call, last).1 == Code(LOCKED) ==> !call.Creating?
    ensures LinksOk(PollLock(s, conn, call, last).0)
  {
    var s' := PollLock(s, conn, call, last).0;
    OnlyThisGripMoves(s, call.lid, s.links[call.lid].resource);
    forall c: nat ensures CallOk(s', c) {
      assert CallOk(s, c);
      if c != conn && !CallOf(s, c).Idle? {
        assert CallOf(s, c).lid != call.lid;
      }
    }
    forall l: i32, r: string ensures GripOk(s', l, r) {
      assert GripOk(s, l, r);
      assert l == call.lid && r == s.links[call.lid].resource ==> Grip(s'.tables, r, Vxi11Id(l)).1 == 0;
    }
  }

  lemma PollKeepsLinks(s: Server, conn: nat, call: Call, last: bool)
    requires LinksOk(s) && !call.Idle? && call.lid in s.links && s.links[call.lid].owner == conn
    requires Grip(s.tables, s.links[call.lid].resource, Vxi11Id(call.lid)) == (0, 0)
    ensures LinksOk(PollLock(s, conn, call, last).0)
    ensures PollLock(s, conn, call, last).1 == Code(NO_ERROR)
       <==> Holds(PollLock(s, conn, call, last).0.tables, s.links[call.lid].resource, Vxi11Id(call.lid))
    ensures PollLock(s, conn, call, last).1 != Code(NO_ERROR) ==> PollLock(s, conn, call, last).0.tables == s.tables
    ensures PollLock(s, conn, call, last).1 == Code(LOCKED) && call.Creating? ==> PollLock(s, conn, call, last).0.links == s.links - {call.lid}
  {
    var (s', reply) := PollLock(s, conn, call, last);
    var res := s.links[call.lid].resource;
    OnlyThisGripMoves(s, call.lid, res);
    GripMeansHolds(s'.tables, res, Vxi11Id(call.lid));
    if reply == Code(LOCKED) && call.Creating? {
      GivingUpKeepsLinks(s, conn, call.lid);
      assert s' == Unlinked(s, conn, call.lid).(calls := s.calls - {conn});
    } else {
      StayingKeepsLinks(s, conn, call, last);
    }
  }

  lemma InsertKeepsLinks(s: Server, conn: nat, resource: string)
    requires LinksOk(s) && LidLeft(s) && CallOf(s, conn).Idle?
    ensures LinksOk(Inserted(s, conn, resource))
    ensures Grip(s.tables, resource, Vxi11Id(s.nextLid)) == (0, 0)
  {
    var s' := Inserted(s, conn, resource);
    assert OwnershipOk(s') by {
      var mine := Owned(s', conn);
      assert forall l :: l in mine <==> l in Owned(s, conn) || l == s.nextLid;
      forall l | l in s'.links ensures l < s'.nextLid && l in Owned(s', s'.links[l].owner) {
        assert l != s.nextLid ==> l in Owned(s, s.links[l].owner);
      }
      forall c, l | c in s'.owned && l in s'.owned[c] ensures l in s'.links && s'.links[l].owner == c {
        if c != conn {
          assert c in s.owned && l in s.owned[c];
          assert l in s.links && s.links[l].owner == c;
        } else if l != s.nextLid {
          assert l in mine;
          assert c in s.owned && l in s.owned[c];
          assert l in s.links && s.links[l].owner == c;
        }
      }
    }
    forall c: nat ensures CallOk(s', c) {
      assert CallOk(s, c);
    }
    forall l: i32, r: string ensures GripOk(s', l, r) {
      assert GripOk(s, l, r);
    }
    assert GripOk(s, s.nextLid, resource);
  }

  lemma CreateKeepsLinks(s: Server, e: Event)
    requires LinksOk(s) && e.Create?
    ensures LinksOk(Step(s, e).0)
  {
    if CallOf(s, e.conn).Idle? && LidLeft(s) && |s.links| < s.maxLinks {
      InsertKeepsLinks(s, e.conn, e.resource);
      if e.lock {
        PollKeepsLinks(Inserted(s, e.conn, e.resource), e.conn, Creating(s.nextLid), !e.patient);
      }
    }
  }

  lemma LockWaitKeepsLinks(s: Server, e: Event)
    requires LinksOk(s) && (e.Lock? || e.Resume? || e.AbortWait?)
    ensures LinksOk(Step(s, e).0)
  {
    assert CallOk(s, e.conn);
    match e
    case Lock(conn, lid, patient) =>
      if MayName(s, conn, lid) && lid in s.links {
        GripMeansHolds(s.tables, s.links[lid].resource, Vxi11Id(lid));
        if !Holds(s.tables, s.links[lid].resource, Vxi11Id(lid)) {
          PollKeepsLinks(s, conn, Locking(lid), !patient);
        }
      }
    case Resume(conn, last) =>
      if !CallOf(s, conn).Idle? {
        PollKeepsLinks(s, conn, CallOf(s, conn), last);
      }
    case AbortWait(conn) =>
      var s' := Step(s, e).0;
      forall c: nat ensures CallOk(s', c) {
        assert CallOk(s, c);
      }
      forall l: i32, r: string ensures GripOk(s', l, r) {
        assert GripOk(s, l, r);
      }
  }

  lemma UnlockKeepsLinks(s: Server, conn: nat, lid: i32)
    requires LinksOk(s)
    ensures LinksOk(Step(s, Unlock(conn, lid)).0)
    ensures Step(s, Unlock(conn, lid)).1 == Code(NO_ERROR) ==>
              forall r: string :: !Holds(Step(s, Unlock(conn, lid)).0.tables, r, Vxi11Id(lid))
  {
    var s' := Step(s, Unlock(conn, lid)).0;
    if Step(s, Unlock(conn, lid)).1 == Code(NO_ERROR) {
      var res, id := s.links[lid].resource, Vxi11Id(lid);
      GripMeansHolds(s.tables, res, id);
      assert GripOk(s, lid, res);
      forall l: i32, r: string
        ensures TablesOk(s'.tables)
        ensures Grip(s'.tables, r, Vxi11Id(l)) == if l == lid then (0, 0) else Grip(s.tables, r, Vxi11Id(l))
      {
        IdentitiesNeverCollide(0, 0, l, lid);
        ReleaseGrip(s.tables, res, id, r, Vxi11Id(l));
        assert GripOk(s, l, r);
      }
      assert Grip(s'.tables, res, id) == (0, 0);
      forall c: nat ensures CallOk(s', c) {
        assert CallOk(s, c);
      }
      forall l: i32, r: string ensures GripOk(s', l, r) {
        assert GripOk(s, l, r);
      }
      forall r: string ensures !Holds(s'.tables, r, id) {
        assert Grip(s'.tables, r, Vxi11Id(lid)) == (0, 0);
        GripMeansHolds(s'.tables, r, id);
      }
    }
  }

  /** destroy_link takes the link and its lock together. */
  lemma DestroyLeavesNothing(s: Server, conn: nat, lid: i32)
    requires LinksOk(s) && MayName(s, conn, lid)
    ensures LinksOk(Step(s, Destroy(conn, lid)).0)
    ensures lid !in Step(s, Destroy(conn, lid)).0.links
    ensures forall r: string :: !Holds(Step(s, Destroy(conn, lid)).0.tables, r, Vxi11Id(lid))
  {
    var s' := Step(s, Destroy(conn, lid)).0;
    if lid in s.links {
      var ts := ReleaseAll(s.tables, Vxi11Id(lid));
      forall l: i32, r: string
        ensures TablesOk(ts)
        ensures Grip(ts, r, Vxi11Id(l)) == if l == lid then (0, 0) else Grip(s.tables, r, Vxi11Id(l))
      {
        IdentitiesNeverCollide(0, 0, l, lid);
        ReleaseAllGrip(s.tables, Vxi11Id(lid), r, Vxi11Id(l));
      }
      assert Grip(ts, "", Vxi11Id(lid)) == (0, 0);
      UnlinkKeepsLinks(s, conn, lid, ts);
      assert s'.(calls := s.calls - {conn}) == Unlinked(s, conn, lid).(tables := ts, calls := s.calls - {conn});
      IdleCallsMayGo(s', conn);
    }
    forall r: string ensures !Holds(s'.tables, r, Vxi11Id(lid)) {
      assert GripOk(s', lid, r);
      GripMeansHolds(s'.tables, r, Vxi11Id(lid));
    }
  }

  /** Whether an idle connection is recorded or absent makes no difference. */
  lemma IdleCallsMayGo(s: Server, conn: nat)
    requires LinksOk(s.(calls := s.calls - {conn})) && CallOf(s, conn).Idle?
    ensures LinksOk(s)
  {
    var s' := s.(calls := s.calls - {conn});
    forall c: nat ensures CallOk(s, c) {
      assert CallOk(s', c);
    }
    forall l: i32, r: string ensures GripOk(s, l, r) {
      assert GripOk(s', l, r);
    }
  }

  lemma CloseKeepsOwnership(s: Server, conn: nat)
    requires OwnershipOk(s) && CallOf(s, conn).Idle?
    ensures OwnershipOk(Step(s, Close(conn)).0)
    ensures forall l :: l in Owned(s, conn) <==> l in s.links && s.links[l].owner == conn
  {
    var s' := Step(s, Close(conn)).0;
    forall c, l | c in s'.owned && l in s'.owned[c] ensures l in s'.links && s'.links[l].owner == c {
      assert c in s.owned && s.owned[c] == s'.owned[c] && c != conn;
      assert l in s.links && s.links[l].owner == c;
    }
  }

  /** A connection that ends cleanly leaves none of its links and none of their locks. */
  lemma CloseLeavesNothing(s: Server, conn: nat)
    requires LinksOk(s) && CallOf(s, conn).Idle?
    ensures LinksOk(Step(s, Close(conn)).0)
    ensures forall l :: l in Step(s, Close(conn)).0.links <==> l in s.links && s.links[l].owner != conn
    ensures forall l: i32, r: string :: l in s.links && s.links[l].owner == conn ==>
              !Holds(Step(s, Close(conn)).0.tables, r, Vxi11Id(l))
  {
    var s', gone := Step(s, Close(conn)).0, Owned(s, conn);
    forall l: i32, r: string
      ensures TablesOk(s'.tables)
      ensures Grip(s'.tables, r, Vxi11Id(l)) == if l in gone then (0, 0) else Grip(s.tables, r, Vxi11Id(l))
    {
      ReleaseEachGrip(s.tables, gone, r, l);
    }
    assert Grip(s'.tables, "", Vxi11Id(0)) == Grip(s'.tables, "", Vxi11Id(0));
    CloseKeepsOwnership(s, conn);
    forall c: nat ensures CallOk(s', c) {
      assert CallOk(s, c);
    }
    forall l: i32, r: string ensures GripOk(s', l, r) {
      assert GripOk(s, l, r);
    }
    forall l: i32, r: string | l in s.links && s.links[l].owner == conn ensures !Holds(s'.tables, r, Vxi11Id(l)) {
      assert Grip(s'.tables, r, Vxi11Id(l)) == (0, 0);
      GripMeansHolds(s'.tables, r, Vxi11Id(l));
    }
  }

  lemma StepKeepsLinks(s: Server, e: Event)
    requires LinksOk(s)
    ensures LinksOk(Step(s, e).0)
  {
    match e
    case Create(_, _, _, _) => CreateKeepsLinks(s, e);
    case Lock(_, _, _) => LockWaitKeepsLinks(s, e);
    case Resume(_, _) => LockWaitKeepsLinks(s, e);
    case AbortWait(_) => LockWaitKeepsLinks(s, e);
    case Unlock(conn, lid) => UnlockKeepsLinks(s, conn, lid);
    case Destroy(conn, lid) => if MayName(s, conn, lid) { DestroyLeavesNothing(s, conn, lid); }
    case Close(conn) => if CallOf(s, conn).Idle? { CloseLeavesNothing(s, conn); }
    case HislipAsk(_, _, _) => HislipKeepsLinks(s, e);
    case HislipFree(_, _) => HislipKeepsLinks(s, e);
    case HislipFreeAll(_) => HislipKeepsLinks(s, e);
  }

  /** Every run: VXI-11 holders are live links holding one exclusive level, or nothing. */
  lemma {:induction false} RunKeepsLinks(maxLinks: nat, events: seq<Event>)
    ensures LinksOk(Run(maxLinks, events))
  {
    if events == [] {
      var s := Run(maxLinks, events);
      forall c: nat ensures CallOk(s, c) {}
      forall l: i32, r: string ensures GripOk(s, l, r) {}
    } else {
      RunKeepsLinks(maxLinks, events[..|events| - 1]);
      StepKeepsLinks(Run(maxLinks, events[..|events| - 1]), events[|events| - 1]);
    }
  }

  /** device_lock answers 0 exactly when this step took the lock, and otherwise changed no lock. */
  lemma LockAnswersExactly(s: Server, e: Event)
    requires LinksOk(s)
    requires || (e.Lock? && MayName(s, e.conn, e.lid))
             || ((e.Resume? || e.AbortWait?) && CallOf(s, e.conn).Locking?)
    ensures var lid := if e.Lock? then e.lid else CallOf(s, e.conn).lid;
            && (Step(s, e).1 == Code(NO_ERROR) <==>
                  && lid in s.links && !Holds(s.tables, s.links[lid].resource, Vxi11Id(lid))
                  && Holds(Step(s, e).0.tables, s.links[lid].resource, Vxi11Id(lid)))
            && (Step(s, e).1 != Code(NO_ERROR) ==> Step(s, e).0.tables == s.tables)
            && (Step(s, e).1 == Code(INVALID_LINK) <==> lid !in s.links)
  {
    match e
    case Lock(conn, lid, patient) =>
      if lid in s.links {
        GripMeansHolds(s.tables, s.links[lid].resource, Vxi11Id(lid));
        if !Holds(s.tables, s.links[lid].resource, Vxi11Id(lid)) {
          PollKeepsLinks(s, conn, Locking(lid), !patient);
        }
      }
    case Resume(conn, last) =>
      assert CallOk(s, conn);
      var lid := CallOf(s, conn).lid;
      GripMeansHolds(s.tables, s.links[lid].resource, Vxi11Id(lid));
      PollKeepsLinks(s, conn, CallOf(s, conn), last);
    case AbortWait(conn) =>
      assert CallOk(s, conn);
      var lid := CallOf(s, conn).lid;
      GripMeansHolds(s.tables, s.links[lid].resource, Vxi11Id(lid));
  }

  lemma HoldsNothing(s: Server, lid: i32)
    requires LinksOk(s)
    requires lid in s.links ==> Grip(s.tables, s.links[lid].resource, Vxi11Id(lid)) == (0, 0)
    ensures forall r: string :: !Holds(s.tables, r, Vxi11Id(lid))
  {
    forall r: string ensures !Holds(s.tables, r, Vxi11Id(lid)) {
      assert GripOk(s, lid, r);
      GripMeansHolds(s.tables, r, Vxi11Id(lid));
    }
  }

  lemma InsertionUndone(s: Server, conn: nat, resource: string)
    requires OwnershipOk(s) && LidLeft(s)
    ensures Inserted(s, conn, resource).links - {s.nextLid} == s.links
  {
  }

  /** A locking create_link refused at once: no link, no lock, every table as it was. */
  lemma RefusedCreateLeavesNothing(s: Server, e: Event)
    requires LinksOk(s) && e.Create? && Step(s, e).1 == Code(LOCKED)
    ensures Step(s, e).0.links == s.links
    ensures Step(s, e).0.tables == s.tables
    ensures forall r: string :: !Holds(s.tables, r, Vxi11Id(s.nextLid))
  {
    assert Step(s, e) == PollLock(Inserted(s, e.conn, e.resource), e.conn, Creating(s.nextLid), !e.patient);
    InsertionUndone(s, e.conn, e.resource);
    InsertKeepsLinks(s, e.conn, e.resource);
    PollKeepsLinks(Inserted(s, e.conn, e.resource), e.conn, Creating(s.nextLid), !e.patient);
    HoldsNothing(s, s.nextLid);
  }

  /** The same when the refusal comes after waiting, whatever else happened meanwhile. */
  lemma RefusedWaitLeavesNothing(s: Server, conn: nat, last: bool)
    requires LinksOk(s) && CallOf(s, conn).Creating? && Step(s, Resume(conn, last)).1 == Code(LOCKED)
    ensures var lid := CallOf(s, conn).lid;
            && Step(s, Resume(conn, last)).0.links == s.links - {lid}
            && Step(s, Resume(conn, last)).0.tables == s.tables
            && forall r: string :: !Holds(s.tables, r, Vxi11Id(lid))
  {
    assert CallOk(s, conn);
    PollKeepsLinks(s, conn, CallOf(s, conn), last);
    HoldsNothing(s, CallOf(s, conn).lid);
  }
}
