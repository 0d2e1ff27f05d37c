/**
 Process-local shared HTTP clients: the registry counts the leases on each client and starts afresh in
 a forked child; a lease takes a client of its own process before its next request.

 A run follows one line of processes: each `Fork` continues in the child, which inherits everything.
 `os.getpid()` is the parameter `pid`; the process ids of such a line are taken to be distinct.
 */
module HttpPool {
  import opened Bytes

  datatype Target = Target(scheme: string, server: string, verifyTls: bool)

  /** A client is known by the process that created it and a serial number. */
  datatype Client = Client(createdBy: nat, serial: nat)

  datatype Entry = Entry(client: Client, references: nat)

  datatype Registry = Registry(pid: nat, entries: map<Target, Entry>)

  datatype Lease = Lease(target: Target, pid: nat, client: Client, closed: bool)

  function Reset(r: Registry, pid: nat): Registry {
    if r.pid == pid then r else Registry(pid, map[])
  }

  /** `created` is what creating a client would give; None when the environment forbids it. */
  function AcquireTarget(r: Registry, pid: nat, target: Target, created: Option<Client>): (Registry, Option<Client>) {
    var current := Reset(r, pid);
    if target in current.entries then
      var entry := current.entries[target];
      (current.(entries := current.entries[target := entry.(references := entry.references + 1)]), Some(entry.client))
    else if created.None? then (current, None)
    else (current.(entries := current.entries[target := Entry(created.value, 1)]), created)
  }

  function Release(r: Registry, pid: nat, target: Target, leasePid: nat): Registry {
    var current := Reset(r, pid);
    if leasePid != current.pid || target !in current.entries || current.entries[target].references == 0 then current
    else
      var entry := current.entries[target];
      current.(entries := current.entries[target := entry.(references := entry.references - 1)])
  }

  /** What a request gets: a client, an error because the lease is closed, or one from creating a client. */
  datatype Handed = Handed(client: Client) | ClosedError | CreateError

  function CurrentClient(r: Registry, lease: Lease, pid: nat, created: Option<Client>): (Registry, Lease, Handed) {
    if lease.closed then (r, lease, ClosedError)
    else if pid == lease.pid then (r, lease, Handed(lease.client))
    else
      var (after, client) := AcquireTarget(r, pid, lease.target, created);
      if client.None? then (after, lease, CreateError)
      else (after, lease.(pid := pid, client := client.value), Handed(client.value))
  }

  function Close(r: Registry, lease: Lease, pid: nat): (Registry, Lease) {
    if lease.closed then (r, lease)
    else (Release(r, pid, lease.target, lease.pid), lease.(closed := true))
  }

  // ---- runs

  datatype Process = Process(pid: nat, past: set<nat>, registry: Registry, leases: seq<Lease>, serial: nat)

  /** `creatable`: the environment allows creating a client.  `hook`: the child ran the fork handler. */
  datatype Event =
    | Acquire(target: Target, creatable: bool)
    | Request(lease: nat, creatable: bool)
    | CloseLease(lease: nat)
    | Fork(child: nat, hook: bool)

  function Start(pid: nat): Process {
    Process(pid, {}, Registry(pid, map[]), [], 0)
  }

  predicate Can(p: Process, event: Event) {
    match event
    case Acquire(_, _) => true
    case Request(lease, _) => lease < |p.leases|
    case CloseLease(lease) => lease < |p.leases|
    case Fork(child, _) => child != p.pid && child !in p.past
  }

  function Creation(p: Process, creatable: bool): Option<Client> {
    if creatable then Some(Client(p.pid, p.serial)) else None
  }

  function Do(p: Process, event: Event): Process
    requires Can(p, event)
  {
    match event
    case Acquire(target, creatable) =>
      var (registry, client) := AcquireTarget(p.registry, p.pid, target, Creation(p, creatable));
      var leases := if client.Some? then p.leases + [Lease(target, p.pid, client.value, false)] else p.leases;
      p.(registry := registry, leases := leases, serial := p.serial + 1)
    case Request(lease, creatable) =>
      var (registry, updated, _) := CurrentClient(p.registry, p.leases[lease], p.pid, Creation(p, creatable));
      p.(registry := registry, leases := p.leases[lease := updated], serial := p.serial + 1)
    case CloseLease(lease) =>
      var (registry, updated) := Close(p.registry, p.leases[lease], p.pid);
      p.(registry := registry, leases := p.leases[lease := updated])
    case Fork(child, hook) =>
      p.(pid := child, past := p.past + {p.pid}, registry := if hook then Registry(child, map[]) else p.registry)
  }

  function Exec(pid: nat, events: seq<Event>): Option<Process> {
    if events == [] then Some(Start(pid)) else
      var before := Exec(pid, events[..|events| - 1]);
      if before.Some? && Can(before.value, events[|events| - 1])
      then Some(Do(before.value, events[|events| - 1]))
      else None
  }

  /** One when the lease is open, on the target and of the process. */
  function Holds(lease: Lease, pid: nat, target: Target): nat {
    if !lease.closed && lease.pid == pid && lease.target == target then 1 else 0
  }

  function OpenLeases(leases: seq<Lease>, pid: nat, target: Target): nat {
    if leases == [] then 0 else Holds(leases[0], pid, target) + OpenLeases(leases[1..], pid, target)
  }

  lemma {:induction false} OpenAppend(leases: seq<Lease>, lease: Lease, pid: nat, target: Target)
    ensures OpenLeases(leases + [lease], pid, target) == OpenLeases(leases, pid, target) + Holds(lease, pid, target)
  {
    if leases != [] {
      assert (leases + [lease])[1..] == leases[1..] + [lease];
      OpenAppend(leases[1..], lease, pid, target);
    }
  }

  lemma {:induction false} OpenUpdate(leases: seq<Lease>, i: nat, lease: Lease, pid: nat, target: Target)
    requires i < |leases|
    ensures OpenLeases(leases[i := lease], pid, target)
         == OpenLeases(leases, pid, target) - Holds(leases[i], pid, target) + Holds(lease, pid, target)
    ensures OpenLeases(leases, pid, target) >= Holds(leases[i], pid, target)
  {
    if i == 0 {
      assert leases[0 := lease][1..] == leases[1..];
    } else {
      assert leases[i := lease][1..] == leases[1..][i - 1 := lease];
      OpenUpdate(leases[1..], i - 1, lease, pid, target);
    }
  }

  ghost predicate DistinctClients(r: Registry) {
    forall t, u :: t in r.entries && u in r.entries && t != u ==> r.entries[t].client != r.entries[u].client
  }

  /** The registry counts exactly the open leases of its process, and each target has one client of that process,
      its own, which all leases on the target have had. */
  ghost predicate Counted(r: Registry, leases: seq<Lease>) {
    && (forall t :: t in r.entries ==>
          r.entries[t].references == OpenLeases(leases, r.pid, t) && r.entries[t].client.createdBy == r.pid)
    && DistinctClients(r)
    && (forall i :: 0 <= i < |leases| && leases[i].pid == r.pid ==>
          leases[i].target in r.entries && r.entries[leases[i].target].client == leases[i].client)
  }

  ghost predicate Inv(p: Process) {
    && p.pid !in p.past
    && (p.registry.pid == p.pid || p.registry.pid in p.past)
    && (forall i :: 0 <= i < |p.leases| ==>
          && (p.leases[i].pid == p.pid || p.leases[i].pid in p.past)
          && p.leases[i].client.createdBy == p.leases[i].pid)
    && (p.registry.pid != p.pid ==> forall i :: 0 <= i < |p.leases| ==> p.leases[i].pid != p.pid)
    && (p.registry.pid == p.pid ==> Counted(p.registry, p.leases))
    && (forall t :: t in p.registry.entries && p.registry.pid == p.pid ==>
          p.registry.entries[t].client.serial < p.serial)
  }

  lemma {:induction false} NoneOpen(leases: seq<Lease>, pid: nat, target: Target)
    requires forall i :: 0 <= i < |leases| && !leases[i].closed && leases[i].pid == pid ==> leases[i].target != target
    ensures OpenLeases(leases, pid, target) == 0
  {
    if leases != [] { NoneOpen(leases[1..], pid, target); }
  }

  lemma ResetCounted(p: Process)
    requires Inv(p)
    ensures Counted(Reset(p.registry, p.pid), p.leases) && Reset(p.registry, p.pid).pid == p.pid
  {}

  ghost predicate NewClient(r: Registry, created: Option<Client>) {
    created.Some? ==> created.value.createdBy == r.pid
                      && forall t :: t in r.entries ==> r.entries[t].client != created.value
  }

  lemma AcquireKeepsDistinct(r: Registry, pid: nat, target: Target, created: Option<Client>)
    requires DistinctClients(Reset(r, pid)) && NewClient(Reset(r, pid), created)
    ensures DistinctClients(AcquireTarget(r, pid, target, created).0)
  {
    var current, after := Reset(r, pid), AcquireTarget(r, pid, target, created).0;
    forall t, u | t in after.entries && u in after.entries && t != u
      ensures after.entries[t].client != after.entries[u].client
    {
      assert t != target ==> t in current.entries && after.entries[t] == current.entries[t];
      assert u != target ==> u in current.entries && after.entries[u] == current.entries[u];
    }
  }

  /** Acquiring adds one to the count of the target, and nothing to the others. */
  lemma AcquireCounts(r: Registry, pid: nat, target: Target, created: Option<Client>, leases: seq<Lease>,
                      more: seq<Lease>)
    requires Counted(Reset(r, pid), leases) && NewClient(Reset(r, pid), created)
    requires var client := AcquireTarget(r, pid, target, created).1;
             && client.Some?
             && (forall t :: OpenLeases(more, pid, t) == OpenLeases(leases, pid, t) + (if t == target then 1 else 0))
             && (forall i :: 0 <= i < |more| && more[i].pid == pid ==>
                   || (more[i].target == target && more[i].client == client.value)
                   || (i < |leases| && more[i] == leases[i]))
    ensures Counted(AcquireTarget(r, pid, target, created).0, more)
  {
    var current := Reset(r, pid);
    var (after, client) := AcquireTarget(r, pid, target, created);
    if target !in current.entries { NoneOpen(leases, pid, target); }
    AcquireKeepsDistinct(r, pid, target, created);
    forall t | t in after.entries
      ensures after.entries[t].references == OpenLeases(more, pid, t) && after.entries[t].client.createdBy == pid
    {
      assert t != target ==> t in current.entries;
    }
    forall i | 0 <= i < |more| && more[i].pid == pid
      ensures more[i].target in after.entries && after.entries[more[i].target].client == more[i].client
    {
      if more[i].target == target {
        assert after.entries[target].client == client.value;
      } else {
        assert more[i] == leases[i];
      }
    }
  }

  lemma AcquireKeeps(p: Process, target: Target, creatable: bool)
    requires Inv(p)
    ensures Inv(Do(p, Acquire(target, creatable)))
  {
    ResetCounted(p);
    var client := AcquireTarget(p.registry, p.pid, target, Creation(p, creatable)).1;
    if client.Some? {
      var lease := Lease(target, p.pid, client.value, false);
      forall t ensures OpenLeases(p.leases + [lease], p.pid, t)
                    == OpenLeases(p.leases, p.pid, t) + (if t == target then 1 else 0)
      {
        OpenAppend(p.leases, lease, p.pid, t);
      }
      AcquireCounts(p.registry, p.pid, target, Creation(p, creatable), p.leases, p.leases + [lease]);
    }
  }

  lemma RequestKeeps(p: Process, i: nat, creatable: bool)
    requires Inv(p) && i < |p.leases|
    ensures Inv(Do(p, Request(i, creatable)))
  {
    var lease := p.leases[i];
    if lease.closed || lease.pid == p.pid {
      assert p.leases[i := lease] == p.leases;
    } else {
      ResetCounted(p);
      var client := AcquireTarget(p.registry, p.pid, lease.target, Creation(p, creatable)).1;
      if client.None? {
        assert p.leases[i := lease] == p.leases;
      } else {
        var moved := lease.(pid := p.pid, client := client.value);
        forall t ensures OpenLeases(p.leases[i := moved], p.pid, t)
                      == OpenLeases(p.leases, p.pid, t) + (if t == lease.target then 1 else 0)
        {
          OpenUpdate(p.leases, i, moved, p.pid, t);
        }
        AcquireCounts(p.registry, p.pid, lease.target, Creation(p, creatable), p.leases, p.leases[i := moved]);
      }
    }
  }

  lemma ReleaseKeepsClients(r: Registry, pid: nat, target: Target, leasePid: nat)
    ensures var current, after := Reset(r, pid), Release(r, pid, target, leasePid);
            && after.entries.Keys == current.entries.Keys
            && (forall t :: t in current.entries ==> after.entries[t].client == current.entries[t].client)
            && (DistinctClients(current) ==> DistinctClients(after))
  {}

  lemma CloseKeeps(p: Process, i: nat)
    requires Inv(p) && i < |p.leases|
    ensures Inv(Do(p, CloseLease(i)))
  {
    var lease := p.leases[i];
    if lease.closed {
      assert p.leases[i := lease] == p.leases;
    } else {
      ResetCounted(p);
      ReleaseKeepsClients(p.registry, p.pid, lease.target, lease.pid);
      forall t ensures OpenLeases(p.leases[i := lease.(closed := true)], p.pid, t)
                    == OpenLeases(p.leases, p.pid, t) - Holds(lease, p.pid, t)
                 && OpenLeases(p.leases, p.pid, t) >= Holds(lease, p.pid, t)
      {
        OpenUpdate(p.leases, i, lease.(closed := true), p.pid, t);
      }
    }
  }

  lemma {:induction false} RunKeeps(pid: nat, events: seq<Event>)
    ensures Exec(pid, events).Some? ==> Inv(Exec(pid, events).value)
  {
    if events != [] {
      var prefix := events[..|events| - 1];
      RunKeeps(pid, prefix);
      if Exec(pid, events).Some? {
        var p := Exec(pid, prefix).value;
        match events[|events| - 1] {
          case Acquire(target, creatable) => AcquireKeeps(p, target, creatable);
          case Request(lease, creatable) => RequestKeeps(p, lease, creatable);
          case CloseLease(lease) => CloseKeeps(p, lease);
          case Fork(_, _) =>
        }
      }
    }
  }

  /** After any run the current process's registry, as its next use will see it, counts exactly the open
      leases of the process on each target, and leases of the process, open or closed, share one client exactly
      when they are on one target. */
  lemma ReferencesAreOpenLeases(pid: nat, events: seq<Event>, target: Target)
    requires Exec(pid, events).Some?
    ensures var p := Exec(pid, events).value;
            var current := Reset(p.registry, p.pid);
            && (target in current.entries ==>
                  current.entries[target].references == OpenLeases(p.leases, p.pid, target))
            && (target !in current.entries ==> OpenLeases(p.leases, p.pid, target) == 0)
            && forall i, j :: 0 <= i < |p.leases| && 0 <= j < |p.leases|
                              && p.leases[i].pid == p.pid && p.leases[j].pid == p.pid
                              ==> (p.leases[i].target == p.leases[j].target
                                   <==> p.leases[i].client == p.leases[j].client)
  {
    RunKeeps(pid, events);
    var p := Exec(pid, events).value;
    ResetCounted(p);
    if target !in Reset(p.registry, p.pid).entries { NoneOpen(p.leases, p.pid, target); }
  }

  /** Whatever was forked, acquired and closed before, a request is only ever given the client that its own
      process created for the target; a closed lease gives an error, and so does one of another process when there
      is no client yet and none can be created. */
  lemma RequestsUseOwnClients(pid: nat, events: seq<Event>, lease: nat, creatable: bool)
    requires Exec(pid, events).Some? && lease < |Exec(pid, events).value.leases|
    ensures var p := Exec(pid, events).value;
            var (after, _, handed) := CurrentClient(p.registry, p.leases[lease], p.pid, Creation(p, creatable));
            var target := p.leases[lease].target;
            && (handed.Handed? ==> && handed.client.createdBy == p.pid
                                   && target in after.entries && after.entries[target].client == handed.client)
            && (handed.ClosedError? <==> p.leases[lease].closed)
            && (handed.CreateError? <==> && !p.leases[lease].closed && p.leases[lease].pid != p.pid && !creatable
                                         && target !in Reset(p.registry, p.pid).entries)
  {
    RunKeeps(pid, events);
    ResetCounted(Exec(pid, events).value);
  }

  /** Closing twice is closing once, and closing a lease that was inherited and not used since changes no
      count in the child. */
  lemma CloseCountsOnce(p: Process, i: nat)
    requires Inv(p) && i < |p.leases|
    ensures Do(Do(p, CloseLease(i)), CloseLease(i)) == Do(p, CloseLease(i))
    ensures p.leases[i].pid != p.pid ==>
              Reset(Do(p, CloseLease(i)).registry, p.pid) == Reset(p.registry, p.pid)
    ensures !p.leases[i].closed && p.leases[i].pid == p.pid ==>
              var target := p.leases[i].target;
              && target in p.registry.entries
              && Do(p, CloseLease(i)).registry.entries[target].references + 1 == p.registry.entries[target].references
  {
    var once := Do(p, CloseLease(i));
    assert once.leases[i := once.leases[i]] == once.leases;
    if !p.leases[i].closed && p.leases[i].pid == p.pid {
      OpenUpdate(p.leases, i, p.leases[i], p.pid, p.leases[i].target);
    }
  }

  // ---- the objects

  class SharedRegistry {
    var pid: nat
    var entries: map<Target, Entry>

    function View(): Registry
      reads this
    {
      Registry(pid, entries)
    }

    constructor (pid: nat)
      ensures View() == Registry(pid, map[])
    {
      this.pid, entries := pid, map[];
    }

    method ResetAfterFork(currentPid: nat)
      modifies this
      ensures View() == Reset(old(View()), currentPid)
    {
      if currentPid == pid { return; }
      pid, entries := currentPid, map[];
    }

    method Acquire(currentPid: nat, target: Target, created: Option<Client>) returns (client: Option<Client>)
      modifies this
      ensures (View(), client) == AcquireTarget(old(View()), currentPid, target, created)
    {
      ResetAfterFork(currentPid);
      ghost var current := entries;
      if target !in entries {
        if created.None? { return None; }
        entries := entries[target := Entry(created.value, 0)];
      }
      var entry := entries[target];
      entries := entries[target := Entry(entry.client, entry.references + 1)];
      assert entries == current[target := Entry(entry.client, entry.references + 1)];
      return Some(entry.client);
    }

    method ReleaseTarget(currentPid: nat, target: Target, leasePid: nat)
      modifies this
      ensures View() == Release(old(View()), currentPid, target, leasePid)
    {
      ResetAfterFork(currentPid);
      if leasePid != pid { return; }
      if target in entries && entries[target].references > 0 {
        entries := entries[target := entries[target].(references := entries[target].references - 1)];
      }
    }
  }

  class SharedLease {
    const registry: SharedRegistry
    const target: Target
    var pid: nat
    var client: Client
    var closed: bool

    function View(): Lease
      reads this
    {
      Lease(target, pid, client, closed)
    }

    constructor (registry: SharedRegistry, target: Target, pid: nat, client: Client)
      ensures this.registry == registry && View() == Lease(target, pid, client, false)
    {
      this.registry, this.target := registry, target;
      this.pid, this.client, closed := pid, client, false;
    }

    method ClientForRequest(currentPid: nat, created: Option<Client>) returns (handed: Handed)
      modifies this, registry
      ensures (registry.View(), View(), handed)
           == CurrentClient(old(registry.View()), old(View()), currentPid, created)
    {
      if closed { return ClosedError; }
      if currentPid != pid {
        var acquired := registry.Acquire(currentPid, target, created);
        if acquired.None? { return CreateError; }
        pid, client := currentPid, acquired.value;
      }
      return Handed(client);
    }

    method CloseOnce(currentPid: nat)
      modifies this, registry
      ensures (registry.View(), View()) == Close(old(registry.View()), old(View()), currentPid)
    {
      if closed { return; }
      closed := true;
      registry.ReleaseTarget(currentPid, target, pid);
    }
  }
}
