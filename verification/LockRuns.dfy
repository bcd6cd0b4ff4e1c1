/** Whole runs of the lock registry, and the two kinds of task parked on it. */
module LockRuns {
  import opened Common
  import opened LockModel

  /** `generation` counts the calls of `notify_waiters`. */
  datatype Registry = Registry(tables: Tables, generation: nat)

  datatype Op =
    | Ask(resource: string, id: HolderId, name: string)
    | Free(resource: string, id: HolderId)
    | FreeAll(id: HolderId)

  const EMPTY := Registry(map[], 0)

  function Step(reg: Registry, op: Op): (Registry, bool) {
    match op
    case Ask(r, id, name) =>
      var (ts, answer) := Request(reg.tables, r, id, name);
      (Registry(ts, reg.generation), answer.Some?)
    case Free(r, id) =>
      var (ts, answer) := Release(reg.tables, r, id);
      (Registry(ts, reg.generation + if answer.IsSuccess() then 1 else 0), answer.IsSuccess())
    case FreeAll(id) =>
      var freed := HoldsAnywhere(reg.tables, id);
      (Registry(ReleaseAll(reg.tables, id), reg.generation + if freed then 1 else 0), freed)
  }

  function Run(ops: seq<Op>): Registry {
    if ops == [] then EMPTY else Step(Run(ops[..|ops| - 1]), ops[|ops| - 1]).0
  }

  lemma StepKeepsTablesOk(reg: Registry, op: Op)
    requires TablesOk(reg.tables)
    ensures TablesOk(Step(reg, op).0.tables)
    ensures !Step(reg, op).1 ==> Step(reg, op).0 == reg
    ensures Step(reg, op).0.generation == reg.generation + if Step(reg, op).1 && !op.Ask? then 1 else 0
  {
    match op
    case Ask(r, id, name) => RequestKeepsTablesOk(reg.tables, r, id, name);
    case Free(r, id) => ReleaseKeepsTablesOk(reg.tables, r, id);
    case FreeAll(id) => ReleaseAllKeepsTablesOk(reg.tables, id);
  }

  /** The invariant holds after every run, by any holders, on any resources. */
  lemma {:induction false} RunKeepsTablesOk(ops: seq<Op>)
    ensures TablesOk(Run(ops).tables)
  {
    if ops != [] {
      RunKeepsTablesOk(ops[..|ops| - 1]);
      StepKeepsTablesOk(Run(ops[..|ops| - 1]), ops[|ops| - 1]);
    }
  }

  // ---- nesting conserves ----

  function DepthAt(ts: Tables, resource: string, id: HolderId): nat { TableOf(ts, resource).Depth(id) }

  /** What one operation that answered `success` does to a holder's account. */
  function Account(balance: int, op: Op, success: bool, resource: string, id: HolderId): int {
    match op
    case Ask(r, i, _) => if r == resource && i == id && success then balance + 1 else balance
    case Free(r, i) => if r == resource && i == id && success then balance - 1 else balance
    case FreeAll(i) => if i == id then 0 else balance
  }

  /** Grants minus successful releases since the holder's last release_all, from the answers alone. */
  function Balance(ops: seq<Op>, resource: string, id: HolderId): int {
    if ops == [] then 0 else
    var before, op := ops[..|ops| - 1], ops[|ops| - 1];
    Account(Balance(before, resource, id), op, Step(Run(before), op).1, resource, id)
  }

  lemma AskAccounts(ts: Tables, r: string, i: HolderId, name: string, resource: string, id: HolderId)
    requires TablesOk(ts)
    ensures DepthAt(Request(ts, r, i, name).0, resource, id)
         == DepthAt(ts, resource, id) + if r == resource && i == id && Request(ts, r, i, name).1.Some? then 1 else 0
  {
    RequestKeepsTablesOk(ts, r, i, name);
    if r == resource && Request(ts, r, i, name).1.Some? {
      var t := TableOf(ts, r);
      assert t == FREE || TableOk(t);
    }
  }

  lemma FreeAccounts(ts: Tables, r: string, i: HolderId, resource: string, id: HolderId)
    requires TablesOk(ts)
    ensures Release(ts, r, i).1.IsSuccess() <==> DepthAt(ts, r, i) > 0
    ensures DepthAt(Release(ts, r, i).0, resource, id)
         == DepthAt(ts, resource, id) - if r == resource && i == id && Release(ts, r, i).1.IsSuccess() then 1 else 0
  {
    if r in ts {
      assert TableOk(ts[r]);
      WithoutKeepsTable(ts[r], i);
    }
  }

  lemma FreeAllAccounts(ts: Tables, i: HolderId, resource: string, id: HolderId)
    requires TablesOk(ts)
    ensures DepthAt(ReleaseAll(ts, i), resource, id) == if i == id then 0 else DepthAt(ts, resource, id)
  {
    if resource in ts {
      WithoutKeepsTable(ts[resource], i);
      assert ts[resource].Without(i).IsEmpty() ==> ts[resource].Without(i).Depth(id) == 0;
    }
  }

  /** One step moves the account of the holder it names and no other. */
  lemma StepAccounts(reg: Registry, op: Op, resource: string, id: HolderId)
    requires TablesOk(reg.tables)
    ensures DepthAt(Step(reg, op).0.tables, resource, id)
         == Account(DepthAt(reg.tables, resource, id), op, Step(reg, op).1, resource, id)
    ensures op == Free(resource, id) ==> (Step(reg, op).1 <==> DepthAt(reg.tables, resource, id) > 0)
  {
    match op
    case Ask(r, i, name) => AskAccounts(reg.tables, r, i, name, resource, id);
    case Free(r, i) => FreeAccounts(reg.tables, r, i, resource, id);
    case FreeAll(i) => FreeAllAccounts(reg.tables, i, resource, id);
  }

  /** Depth in the registry is the balance of the answers the holder was given. */
  lemma {:induction false} DepthIsBalance(ops: seq<Op>, resource: string, id: HolderId)
    ensures DepthAt(Run(ops).tables, resource, id) == Balance(ops, resource, id)
  {
    if ops != [] {
      var before := ops[..|ops| - 1];
      RunKeepsTablesOk(before);
      DepthIsBalance(before, resource, id);
      StepAccounts(Run(before), ops[|ops| - 1], resource, id);
    }
  }

  /** The registry after `k` more attempts to release the same lock. */
  function AfterReleases(reg: Registry, resource: string, id: HolderId, k: nat): Registry {
    if k == 0 then reg else Step(AfterReleases(reg, resource, id, k - 1), Free(resource, id)).0
  }

  lemma {:induction false} ReleasesSpend(reg: Registry, resource: string, id: HolderId, k: nat)
    requires TablesOk(reg.tables)
    ensures TablesOk(AfterReleases(reg, resource, id, k).tables)
    ensures DepthAt(AfterReleases(reg, resource, id, k).tables, resource, id)
         == Max(0, DepthAt(reg.tables, resource, id) - k)
  {
    if k > 0 {
      ReleasesSpend(reg, resource, id, k - 1);
      var before := AfterReleases(reg, resource, id, k - 1);
      StepKeepsTablesOk(before, Free(resource, id));
      StepAccounts(before, Free(resource, id), resource, id);
    }
  }

  /** After any run, exactly `Balance` more releases succeed; the next one is an error. */
  lemma ExactlyBalanceReleases(ops: seq<Op>, resource: string, id: HolderId, k: nat)
    ensures Step(AfterReleases(Run(ops), resource, id, k), Free(resource, id)).1 <==> k < Balance(ops, resource, id)
  {
    DepthIsBalance(ops, resource, id);
    RunKeepsTablesOk(ops);
    ReleasesSpend(Run(ops), resource, id, k);
    FreeAccounts(AfterReleases(Run(ops), resource, id, k).tables, resource, id, resource, id);
  }

  // ---- no lost wakeup ----

  /**
   A task parked on the registry. `captured` is the generation at which `notified()` was
   called, just before the test that failed; it can run again once it is stale.
   */
  datatype Waiter =
    | ForLock(resource: string, id: HolderId, name: string, captured: nat)
    | ForAccess(resource: string, id: HolderId, captured: nat)

  datatype System = System(registry: Registry, parked: map<nat, Waiter>)

  /**
   Every step is one stretch between awaits. `Park*` subscribes and tests; it returns at
   once when the test succeeds. `Wake` re-runs the loop body of a parked task: subscribe
   again, test again, and either leave or park with the new generation. `Expire` is the same
   with the deadline passed: it leaves whatever the last test says. `Cancel` drops the
   future, as an abort does to a lock wait.
   */
  datatype Event =
    | Other(op: Op)
    | ParkForLock(task: nat, resource: string, id: HolderId, name: string)
    | ParkForAccess(task: nat, resource: string, id: HolderId)
    | Wake(task: nat)
    | Expire(task: nat)
    | Cancel(task: nat)

  function Attempt(s: System, task: nat, w: Waiter): System {
    match w
    case ForLock(r, id, name, _) =>
      var (reg, granted) := Step(s.registry, Ask(r, id, name));
      if granted then System(reg, s.parked - {task})
      else System(reg, s.parked[task := w.(captured := s.registry.generation)])
    case ForAccess(r, id, _) =>
      if HasAccess(s.registry.tables, r, id) then System(s.registry, s.parked - {task})
      else System(s.registry, s.parked[task := w.(captured := s.registry.generation)])
  }

  function Advance(s: System, e: Event): System {
    match e
    case Other(op) => s.(registry := Step(s.registry, op).0)
    case ParkForLock(task, r, id, name) =>
      if task in s.parked then s else Attempt(s, task, ForLock(r, id, name, 0))
    case ParkForAccess(task, r, id) =>
      if task in s.parked then s else Attempt(s, task, ForAccess(r, id, 0))
    case Wake(task) => if task in s.parked then Attempt(s, task, s.parked[task]) else s
    case Expire(task) =>
      if task !in s.parked then s else
      var s' := Attempt(s, task, s.parked[task]);
      s'.(parked := s'.parked - {task})
    case Cancel(task) => s.(parked := s.parked - {task})
  }

  function Execute(events: seq<Event>): System {
    if events == [] then System(EMPTY, map[]) else Advance(Execute(events[..|events| - 1]), events[|events| - 1])
  }

  /**
   A task whose subscription is current still has nothing to do: a lock request still
   conflicts, and an access wait is either still locked out or its own holder was granted
   a lock meanwhile, which is the one change that wakes nobody.
   */
  predicate StillBlocked(reg: Registry, w: Waiter) {
    && w.captured <= reg.generation
    && (w.captured == reg.generation ==>
          match w
          case ForLock(r, id, name, _) => Conflicts(reg.tables, r, id, name)
          case ForAccess(r, id, _) => HasAccess(reg.tables, r, id) <==> Holds(reg.tables, r, id))
  }

  predicate NoneLost(s: System) {
    && TablesOk(s.registry.tables)
    && forall t :: t in s.parked ==> StillBlocked(s.registry, s.parked[t])
  }

  /** A grant to anybody resolves no other request's conflict, and frees no resource. */
  lemma GrantsResolveNothing(ts: Tables, r: string, id: HolderId, name: string, r': string, id': HolderId, name': string)
    requires TablesOk(ts)
    ensures Conflicts(ts, r', id', name') ==> Conflicts(Request(ts, r, id, name).0, r', id', name')
    ensures (HasAccess(ts, r', id') <==> Holds(ts, r', id'))
        ==> (HasAccess(Request(ts, r, id, name).0, r', id') <==> Holds(Request(ts, r, id, name).0, r', id'))
  {
    RequestKeepsTablesOk(ts, r, id, name);
    var t := TableOf(ts, r);
    assert t == FREE || TableOk(t);
    if r == r' && TryGrant(t, id, name).Some? {
      var t' := TryGrant(t, id, name).value;
      assert forall h :: h in t.shared ==> h in t'.shared;
    }
  }

  lemma StepLosesNone(reg: Registry, op: Op, w: Waiter)
    requires TablesOk(reg.tables) && StillBlocked(reg, w)
    ensures StillBlocked(Step(reg, op).0, w)
  {
    StepKeepsTablesOk(reg, op);
    if op.Ask? {
      match w
      case ForLock(r, id, name, _) =>
        GrantsResolveNothing(reg.tables, op.resource, op.id, op.name, r, id, name);
      case ForAccess(r, id, _) =>
        GrantsResolveNothing(reg.tables, op.resource, op.id, op.name, r, id, "");
    }
  }

  lemma OperationLosesNone(s: System, op: Op)
    requires NoneLost(s)
    ensures NoneLost(s.(registry := Step(s.registry, op).0))
  {
    StepKeepsTablesOk(s.registry, op);
    forall t | t in s.parked
      ensures StillBlocked(Step(s.registry, op).0, s.parked[t])
    {
      StepLosesNone(s.registry, op, s.parked[t]);
    }
  }

  lemma AttemptLosesNone(s: System, task: nat, w: Waiter)
    requires NoneLost(s)
    ensures NoneLost(Attempt(s, task, w))
  {
    if w.ForLock? {
      StepKeepsTablesOk(s.registry, Ask(w.resource, w.id, w.name));
      OperationLosesNone(s, Ask(w.resource, w.id, w.name));
    }
  }

  lemma AdvanceLosesNone(s: System, e: Event)
    requires NoneLost(s)
    ensures NoneLost(Advance(s, e))
  {
    match e
    case Other(op) => OperationLosesNone(s, op);
    case ParkForLock(task, r, id, name) => AttemptLosesNone(s, task, ForLock(r, id, name, 0));
    case ParkForAccess(task, r, id) => AttemptLosesNone(s, task, ForAccess(r, id, 0));
    case Wake(task) => if task in s.parked { AttemptLosesNone(s, task, s.parked[task]); }
    case Expire(task) => if task in s.parked { AttemptLosesNone(s, task, s.parked[task]); }
    case Cancel(_) =>
  }

  /** In every run, no parked task sleeps through the release it was waiting for. */
  lemma {:induction false} NoLostWakeup(events: seq<Event>)
    ensures NoneLost(Execute(events))
  {
    if events != [] {
      NoLostWakeup(events[..|events| - 1]);
      AdvanceLosesNone(Execute(events[..|events| - 1]), events[|events| - 1]);
    }
  }

  /** So a parked lock request that could now be granted has been notified. */
  lemma GrantableMeansNotified(events: seq<Event>, task: nat)
    requires task in Execute(events).parked && Execute(events).parked[task].ForLock?
    requires var w := Execute(events).parked[task];
             !Conflicts(Execute(events).registry.tables, w.resource, w.id, w.name)
    ensures Execute(events).parked[task].captured < Execute(events).registry.generation
  {
    NoLostWakeup(events);
  }

  /**
   For an access wait the same claim is false: holder 2 waits on the sync channel while
   holder 1 shares "k", then holder 2's own request for "k" is granted, and nothing is
   notified although holder 2 may now do I/O.
   */
  lemma OwnGrantWakesNobody()
    ensures var s := Execute([Other(Ask("gpib23", 1, "k")), ParkForAccess(0, "gpib23", 2), Other(Ask("gpib23", 2, "k"))]);
            && 0 in s.parked
            && s.parked[0].captured == s.registry.generation
            && HasAccess(s.registry.tables, "gpib23", 2)
  {
    var a, b, c := Other(Ask("gpib23", 1, "k")), ParkForAccess(0, "gpib23", 2), Other(Ask("gpib23", 2, "k"));
    assert [a, b, c][..2] == [a, b];
    assert [a, b][..1] == [a];
    assert [a][..0] == [];
    assert Execute([]) == System(EMPTY, map[]);
    var s1 := Execute([a]);
    assert s1 == Advance(System(EMPTY, map[]), a);
    assert s1.registry.tables["gpib23"] == LockTable(Nobody, Some("k"), map[1 := 1]);
    var s2 := Execute([a, b]);
    assert s2 == Advance(s1, b);
    assert Execute([a, b, c]) == Advance(s2, c);
  }

  /** Exactly then: a current access wait is over unnoticed iff its holder holds a lock itself. */
  lemma AccessWakeupLostIff(events: seq<Event>, task: nat)
    requires task in Execute(events).parked && Execute(events).parked[task].ForAccess?
    requires Execute(events).parked[task].captured == Execute(events).registry.generation
    ensures var w := Execute(events).parked[task];
            (HasAccess(Execute(events).registry.tables, w.resource, w.id)
             <==> Holds(Execute(events).registry.tables, w.resource, w.id))
  {
    NoLostWakeup(events);
  }
}

/** The registry object: tables under one mutex, and the notification count. */
module LockRegistryObject {
  import opened Common
  import opened LockModel
  import opened LockRuns

  class LockRegistry {
    var tables: Tables
    var generation: nat

    function State(): Registry reads this { Registry(tables, generation) }

    constructor ()
      ensures State() == EMPTY
    {
      tables, generation := map[], 0;
    }

    method TryRequest(resource: string, id: HolderId, name: string) returns (granted: Option<LockResponse>)
      requires TablesOk(tables)
      modifies this
      ensures TablesOk(tables)
      ensures State() == Step(old(State()), Ask(resource, id, name)).0
      ensures granted.Some? <==> !Conflicts(old(tables), resource, id, name)
      ensures granted.Some? ==> granted.value == if name == "" then SuccessExclusive else SuccessShared
    {
      RequestKeepsTablesOk(tables, resource, id, name);
      var table := TableOf(tables, resource);
      granted := None;
      if name == "" {
        if table.exclusive.Held? {
          if table.exclusive.holder == id {
            table := table.(exclusive := Held(id, table.exclusive.depth + 1));
            granted := Some(SuccessExclusive);
          }
        } else if !(exists h :: h in table.shared && h != id) {
          table := table.(exclusive := Held(id, 1));
          granted := Some(SuccessExclusive);
        }
      } else {
        var exclusiveElsewhere := table.exclusive.Held? && table.exclusive.holder != id;
        var nameClash := table.sharedName.Some? && table.sharedName.value != name;
        if !exclusiveElsewhere && !nameClash {
          var depth := if id in table.shared then table.shared[id] else 0;
          table := table.(sharedName := Some(name), shared := table.shared[id := depth + 1]);
          granted := Some(SuccessShared);
        }
      }
      tables := if granted.None? && table.IsEmpty() then tables - {resource} else tables[resource := table];
    }

    method Release(resource: string, id: HolderId) returns (response: LockResponse)
      requires TablesOk(tables)
      modifies this
      ensures TablesOk(tables)
      ensures State() == Step(old(State()), Free(resource, id)).0
      ensures response == LockModel.Release(old(tables), resource, id).1
      ensures response.IsSuccess() <==> Holds(old(tables), resource, id)
    {
      ReleaseKeepsTablesOk(tables, resource, id);
      if resource !in tables {
        return Error;
      }
      var table := tables[resource];
      if table.exclusive.Held? && table.exclusive.holder == id {
        var depth := table.exclusive.depth - 1;
        table := table.(exclusive := if depth == 0 then Nobody else Held(id, depth));
        response := SuccessExclusive;
      } else if id in table.shared {
        var depth := table.shared[id] - 1;
        if depth == 0 {
          table := table.(shared := table.shared - {id});
          if table.shared == map[] {
            table := table.(sharedName := None);
          }
        } else {
          table := table.(shared := table.shared[id := depth]);
        }
        response := SuccessShared;
      } else {
        return Error;
      }
      if table.IsEmpty() {
        tables := tables - {resource};
      } else {
        tables := tables[resource := table];
      }
      generation := generation + 1;
    }

    /** The body of `retain`'s closure, on one table. */
    static method Forget(table: LockTable, id: HolderId) returns (rest: LockTable, freed: bool)
      ensures rest == table.Without(id)
      ensures freed <==> table.HeldBy(id)
    {
      rest, freed := table, false;
      if rest.exclusive.Held? && rest.exclusive.holder == id {
        rest := rest.(exclusive := Nobody);
        freed := true;
      }
      if id in rest.shared {
        rest := rest.(shared := rest.shared - {id});
        freed := true;
        if rest.shared == map[] {
          rest := rest.(sharedName := None);
        }
      } else {
        assert rest.shared - {id} == rest.shared;
      }
    }

    /** `retain` over the tables, in whatever order the hash map yields them. */
    static method Retain(all: Tables, id: HolderId) returns (kept: Tables, freed: bool)
      ensures kept == LockModel.ReleaseAll(all, id)
      ensures freed <==> HoldsAnywhere(all, id)
    {
      kept, freed := map[], false;
      var todo := all.Keys;
      while todo != {}
        invariant todo <= all.Keys
        invariant forall r :: r in kept <==> r in all && r !in todo && !all[r].Without(id).IsEmpty()
        invariant forall r :: r in kept ==> kept[r] == all[r].Without(id)
        invariant freed <==> exists r :: r in all && r !in todo && all[r].HeldBy(id)
        decreases todo
      {
        var r :| r in todo;
        var rest, wasHeld := Forget(all[r], id);
        if !rest.IsEmpty() {
          kept := kept[r := rest];
        }
        freed := freed || wasHeld;
        todo := todo - {r};
      }
    }

    method ReleaseAll(id: HolderId)
      requires TablesOk(tables)
      modifies this
      ensures TablesOk(tables)
      ensures State() == Step(old(State()), FreeAll(id)).0
    {
      ReleaseAllKeepsTablesOk(tables, id);
      var kept, freed := Retain(tables, id);
      tables := kept;
      if freed {
        generation := generation + 1;
      }
    }
  }
}
