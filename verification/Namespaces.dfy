/** Namespace creation and deletion as a whole: the result of a success in any order of the loop, and the exact
    effect of a failure part-way. */
module Namespaces {
  import opened Names
  import opened Device
  import opened Bridge
  import opened Handlers
  import opened Runs
  import opened Shape
  import opened Effects
  import opened Backing
  import opened Sweep

  /** The device ids of the subsystem's controllers in the index. */
  function IdsUnder(c: Core, subsysId: string): set<int> {
    set k | k in ControllerKeys(c, subsysId) && StoresController(c, k) :: IdAt(c, k)
  }

  function Allocated(d: Device, nqn: string, id: int): Device
    requires nqn in d.units
  {
    WithUnit(d, nqn, d.units[nqn].(namespaces := d.units[nqn].namespaces + {id}))
  }

  /** The command that allocates was answered with a zero status. */
  predicate AllocAccepted(c: Core, parent: string, env: Env) {
    && Present(c, parent) && env.net != [] && env.net[0].Done?
    && env.net[0].id !in c.device.units[NqnAt(c, parent)].namespaces
  }

  function NewNamespace(req: CreateNamespaceRequest): Object {
    NamespaceObject(Namespace(NewNamespaceName(req), req.spec, true))
  }

  /** The state after a namespace was created: allocated, attached to every indexed controller of the subsystem,
      indexed and stored. No order occurs in it. */
  function Created(c: Core, req: CreateNamespaceRequest, allocId: int): Core
    requires Present(c, req.parent)
  {
    var n := NqnAt(c, req.parent);
    c.(index := c.index[NewNamespaceName(req) := false],
       store := c.store[NewNamespaceName(req) := NewNamespace(req)],
       device := Linked(Allocated(c.device, n, allocId), Attaching, n, IdsUnder(c, SubsystemIdOf(req.parent)),
           req.spec.hostNsid))
  }

  /** The state after a namespace was deleted. */
  function Deleted(c: Core, name: string): Core
    requires StoresNamespace(c, name) && HasParent(c, name)
  {
    var n, u, nsid := NqnAt(c, ParentName(name)), ParentUnit(c, name), NsidAt(c, name);
    var left :=
      if c.device.contract.dropsAttachments then Without(u, nsid)
          else u.attached - Pairs(IdsUnder(c, SubsystemIdOf(name)), nsid);
    c.(index := c.index - {name},
       store := c.store - {name},
       device := WithUnit(c.device, n, u.(namespaces := u.namespaces - {nsid}, attached := left)))
  }

  /** The device has the namespace, and lets go of it once it is detached from every controller the index knows. */
  predicate LetsGo(c: Core, name: string)
    requires StoresNamespace(c, name)
  {
    && HasParent(c, name) && NsidAt(c, name) in ParentUnit(c, name).namespaces
    && (c.device.contract.refusesAttached ==>
          Holders(ParentUnit(c, name), NsidAt(c, name)) <= IdsUnder(c, SubsystemIdOf(name)))
  }

  lemma TargetsOfOrder(c: Core, order: seq<string>, subsysKey: string)
    requires Shaped(c) && StoresSubsystem(c, subsysKey) && Enumerates(order, c.index.Keys)
    ensures var sid := SubsystemIdOf(subsysKey); var keys := Targets(order, subsysKey);
      Enumerates(keys, ControllerKeys(c, sid)) && AllTargets(keys, c.store[subsysKey].subsystem, sid)
      && IdSet(c, keys) == IdsUnder(c, sid)
  {
    assert StoredWell(subsysKey, c.store[subsysKey]);
    NameIsRebuilt(subsysKey);
    LoopReachesExactly(c, order, SubsystemIdOf(subsysKey));
    TargetsAre(order, subsysKey);
  }

  lemma ReadsOfIndexed(c: Core, keys: seq<string>, i: nat, sid: string)
    requires i <= |keys| && IdSet(c, keys) == IdsUnder(c, sid)
    ensures IdSet(c, keys[..i]) <= IdsUnder(c, sid)
  {
    assert forall k :: k in keys[..i] ==> k in keys;
  }

  /** What a loop that came to the end has done. */
  ghost predicate Complete(s: Session, s': Session, link: Link, keys: seq<string>, nqn: string, nsid: int) {
    && Stored(s.core, keys)
    && s'.core == s.core.(device := Linked(s.core.device, link, nqn, IdSet(s.core, keys), nsid))
    && s'.log == s.log + Commands(link, nqn, Ids(s.core, keys), nsid)
    && s'.env == Env(Drop(s.env.net, |keys|), Drop(s.env.loads, |keys|), s.env.saves)
  }

  lemma EndIsComplete(s: Session, s': Session, link: Link, keys: seq<string>, nqn: string, nsid: int)
    requires StoppedAt(s, s', link, keys, nqn, nsid, |keys|)
    ensures Complete(s, s', link, keys, nqn, nsid)
  {
    assert keys[..|keys|] == keys;
    var sent := Commands(link, nqn, Ids(s.core, keys), nsid);
    assert SentBy(s, link, keys, nqn, nsid, |keys|) == sent;
  }

  // ------------------------------------------------------------------ create

  /** The session of a create once its namespace is allocated. */
  function AfterAlloc(c: Core, req: CreateNamespaceRequest, env: Env): Session
    requires AllocAccepted(c, req.parent, env)
  {
    var n := NqnAt(c, req.parent);
    Session(c.(device := Allocated(c.device, n, env.net[0].id)),
            Env(Drop(env.net, 1), Drop(env.loads, 2), env.saves),
            [AllocCommand(n, req.spec)])
  }

  /** A create whose lookups and allocation went well is its loop, then the recording. */
  lemma CreateIsLoop(c: Core, op: Op, env: Env)
    requires op.CreateNamespaceOp? && NewKey(op) !in c.store && AcceptsCreateNamespace(op.cns) && LookupsWork(env)
    requires AllocAccepted(c, op.cns.parent, env)
    ensures var req := op.cns;
      var (s', stopped) :=
        Visit(AfterAlloc(c, req, env), Attaching, op.order, c.store[req.parent].subsystem, SubsystemIdOf(req.parent),
          req.spec.hostNsid);
      Result(c, op, env) == (if stopped.Some? then (s', Rejected(stopped.value))
          else SaveNew(s', NewKey(op), NewNamespace(req)))
  {
    var req, s0 := op.cns, Begin(c, env);
    var (s1, found) := GetNamespace(s0, NewNamespaceName(req));
    var (s2, parent) := GetSubsystem(s1, req.parent);
    assert s2 == Session(c, Env(env.net, Drop(env.loads, 2), env.saves), []);
    AllocAnswered(s2, parent.value.spec.nqn, req.spec);
    assert Call(s2, AllocCommand(parent.value.spec.nqn, req.spec)).0 == AfterAlloc(c, req, env);
  }

  lemma AllocAnswered(s: Session, nqn: string, spec: NamespaceSpec)
    ensures var (s', reply) := Call(s, AllocCommand(nqn, spec));
      && (reply.Good? <==> s.env.net != [] && s.env.net[0].Done? && nqn in s.core.device.units
                           && s.env.net[0].id !in s.core.device.units[nqn].namespaces)
      && (reply.Good? ==> s'.core == s.core.(device := Allocated(s.core.device, nqn, s.env.net[0].id)))
      && (!reply.Good? && NoHiddenEffects(s.env) ==> s'.core == s.core)
      && s'.env == s.env.(net := Drop(s.env.net, 1))
  {
    if s.env.net != [] { assert s.env.net[0] in s.env.net; }
  }

  /** A create that sent anything was accepted, and its lookups worked. */
  lemma CreateGotThere(c: Core, op: Op, env: Env)
    requires op.CreateNamespaceOp? && NewKey(op) !in c.store
    requires (Result(c, op, env).0.log != [] || Ok(Result(c, op, env).1))
    ensures AcceptsCreateNamespace(op.cns) && LookupsWork(env) && StoresSubsystem(c, op.cns.parent)
  {
    var (s1, found) := GetNamespace(Begin(c, env), NewNamespaceName(op.cns));
    var (s2, parent) := GetSubsystem(s1, op.cns.parent);
  }

  /** The loop of a create stops at the first key that does not go well; if there is none, the namespace is recorded. */
  lemma CreateOutcome(c: Core, op: Op, env: Env) returns (n: nat)
    requires Shaped(c) && op.CreateNamespaceOp? && OrderOk(c, op) && NewKey(op) !in c.store
    requires AcceptsCreateNamespace(op.cns) && LookupsWork(env) && AllocAccepted(c, op.cns.parent, env)
    ensures var req := op.cns; var s := AfterAlloc(c, req, env);
      var nqn := NqnAt(c, req.parent); var keys := Targets(op.order, req.parent);
      var (s', stopped) :=
        Visit(s, Attaching, op.order, c.store[req.parent].subsystem, SubsystemIdOf(req.parent), req.spec.hostNsid);
      && Progress(s, s', stopped, Attaching, keys, nqn, req.spec.hostNsid, n)
      && Result(c, op, env) == (if stopped.Some? then (s', Rejected(stopped.value))
          else SaveNew(s', NewKey(op), NewNamespace(req)))
  {
    var parent, subsys, nsid := op.cns.parent, c.store[op.cns.parent].subsystem, op.cns.spec.hostNsid;
    CreateIsLoop(c, op, env);
    TargetsOfOrder(c, op.order, parent);
    ParentIsNamed(c, parent);
    AllocatedStaysShaped(c, op.cns, env);
    VisitOnlyTargets(AfterAlloc(c, op.cns, env), Attaching, op.order, subsys, SubsystemIdOf(parent), nsid);
    n := VisitProgress(AfterAlloc(c, op.cns, env), Attaching, Targets(op.order, parent), subsys,
        SubsystemIdOf(parent), nsid);
  }

  lemma ParentIsNamed(c: Core, parent: string)
    requires Shaped(c) && StoresSubsystem(c, parent)
    ensures c.store[parent].subsystem.name == parent && IsSubsystemName(parent)
  {
    assert StoredWell(parent, c.store[parent]);
  }

  lemma AllocatedStaysShaped(c: Core, req: CreateNamespaceRequest, env: Env)
    requires Shaped(c) && AllocAccepted(c, req.parent, env)
    ensures Shaped(AfterAlloc(c, req, env).core)
  {
  }

  lemma AllocDecides(c: Core, op: Op, env: Env)
    requires op.CreateNamespaceOp? && NewKey(op) !in c.store && !AllocAccepted(c, op.cns.parent, env)
    ensures var (s', r) := Result(c, op, env);
      && !Ok(r) && |s'.log| <= 1 && s'.core.store == c.store && s'.core.index == c.index
      && (NoHiddenEffects(env) ==> s'.core == c)
  {
    var s0 := Begin(c, env);
    var (s1, found) := GetNamespace(s0, NewNamespaceName(op.cns));
    var (s2, parent) := GetSubsystem(s1, op.cns.parent);
    if !parent.Found? { return; }
    AllocAnswered(s2, parent.value.spec.nqn, op.cns.spec);
  }

  lemma SameUnderAlloc(c: Core, req: CreateNamespaceRequest, env: Env, keys: seq<string>)
    requires AllocAccepted(c, req.parent, env)
    ensures var c' := AfterAlloc(c, req, env).core;
      && (Stored(c', keys) <==> Stored(c, keys)) && IdSet(c', keys) == IdSet(c, keys)
      && (Stored(c, keys) ==> Ids(c', keys) == Ids(c, keys))
  {
    var c' := AfterAlloc(c, req, env).core;
    assert forall k :: StoresController(c', k) <==> StoresController(c, k);
    assert forall k :: StoresController(c, k) ==> IdAt(c', k) == IdAt(c, k);
  }

  /** Every successful create leaves the same state and answer whatever the order of the loop, and has sent the
      allocation and then exactly one attach for each controller of the subsystem in the index. */
  lemma CreateInAnyOrder(c: Core, op: Op, env: Env)
    requires Shaped(c) && op.CreateNamespaceOp? && OrderOk(c, op) && NewKey(op) !in c.store
    requires Ok(Result(c, op, env).1)
    ensures AllocAccepted(c, op.cns.parent, env)
    ensures var (s', r) := Result(c, op, env); var keys := Targets(op.order, op.cns.parent);
      var n := NqnAt(c, op.cns.parent);
      && r == Returned(NewNamespace(op.cns))
      && s'.core == Created(c, op.cns, env.net[0].id)
      && Enumerates(keys, ControllerKeys(c, SubsystemIdOf(op.cns.parent))) && Stored(c, keys)
      && s'.log == [AllocCommand(n, op.cns.spec)] + Commands(Attaching, n, Ids(c, keys), op.cns.spec.hostNsid)
  {
    hide Handle;
    if !AllocAccepted(c, op.cns.parent, env) { AllocDecides(c, op, env); }
    CreateGotThere(c, op, env);
    var n := CreateOutcome(c, op, env);
    var req, keys, s := op.cns, Targets(op.order, op.cns.parent), AfterAlloc(c, op.cns, env);
    TargetsOfOrder(c, op.order, req.parent);
    var (s', stopped) :=
      Visit(s, Attaching, op.order, c.store[req.parent].subsystem, SubsystemIdOf(req.parent), req.spec.hostNsid);
    CreateCompleted(c, req, env, s', keys);
  }

  lemma CreateCompleted(c: Core, req: CreateNamespaceRequest, env: Env, s': Session, keys: seq<string>)
    requires AllocAccepted(c, req.parent, env) && IdSet(c, keys) == IdsUnder(c, SubsystemIdOf(req.parent))
    requires StoppedAt(AfterAlloc(c, req, env), s', Attaching, keys, NqnAt(c, req.parent), req.spec.hostNsid, |keys|)
    ensures Stored(c, keys)
    ensures var s'' := SaveNew(s', NewNamespaceName(req), NewNamespace(req)).0; var n := NqnAt(c, req.parent);
      && (WriteWorks(s') ==> s''.core == Created(c, req, env.net[0].id))
      && s''.log == [AllocCommand(n, req.spec)] + Commands(Attaching, n, Ids(c, keys), req.spec.hostNsid)
  {
    EndIsComplete(AfterAlloc(c, req, env), s', Attaching, keys, NqnAt(c, req.parent), req.spec.hostNsid);
    SameUnderAlloc(c, req, env, keys);
  }

  /** Store and index untouched. The first `n` of the subsystem's controllers went well and the next did not: its
      record could not be read, or its attach was not answered with a zero status or not taken. On the device are the
      allocation and the attachments to those `n`, and to the next one only if its attach ran with the answer lost;
      on the wire the allocation, those attaches, and the next one if it was sent. */
  ghost predicate PartlyCreated(c: Core, s': Session, req: CreateNamespaceRequest, env: Env, keys: seq<string>, n: nat)
    requires AllocAccepted(c, req.parent, env)
  {
    var s, nqn, nsid := AfterAlloc(c, req, env), NqnAt(c, req.parent), req.spec.hostNsid;
    && n < |keys| && Stored(s.core, keys[..n])
    && (forall i :: 0 <= i < n ==> GoesWell(s, Attaching, keys, nqn, nsid, i))
    && !GoesWell(s, Attaching, keys, nqn, nsid, n)
    && s'.core == c.(device := DeviceAt(s, Attaching, keys, nqn, nsid, LinkedKeys(s, Attaching, keys, nqn, nsid, n)))
    && s'.log == [AllocCommand(nqn, req.spec)] + SentBy(s, Attaching, keys, nqn, nsid, n)
  }

  /** A create that is allocated but does not get through its loop leaves exactly that; one that does is recorded. */
  lemma FailedCreateLeavesExactly(c: Core, op: Op, env: Env) returns (n: nat)
    requires Shaped(c) && op.CreateNamespaceOp? && OrderOk(c, op) && NewKey(op) !in c.store
    requires AcceptsCreateNamespace(op.cns) && LookupsWork(env) && AllocAccepted(c, op.cns.parent, env)
    ensures var (s', r) := Result(c, op, env); var keys := Targets(op.order, op.cns.parent);
      if n < |keys| then
        r == Rejected(Obstacle(AfterAlloc(c, op.cns, env), keys, n)) && PartlyCreated(c, s', op.cns, env, keys, n)
      else
        && (forall i :: 0 <= i < |keys| ==>
            GoesWell(AfterAlloc(c, op.cns, env), Attaching, keys, NqnAt(c, op.cns.parent), op.cns.spec.hostNsid, i))
        && (!SavesWork(env) ==> r == Rejected(WriteFailed))
        && (Ok(r) <==> SavesWork(env))
        && (Ok(r) ==> s'.core == Created(c, op.cns, env.net[0].id))
  {
    hide Handle;
    n := CreateOutcome(c, op, env);
    var req, keys, s := op.cns, Targets(op.order, op.cns.parent), AfterAlloc(c, op.cns, env);
    var (s', stopped) :=
      Visit(s, Attaching, op.order, c.store[req.parent].subsystem, SubsystemIdOf(req.parent), req.spec.hostNsid);
    if n < |keys| { return; }
    TargetsOfOrder(c, op.order, req.parent);
    CreateCompleted(c, req, env, s', keys);
  }

  // ------------------------------------------------------------------ delete

  /** The session of a delete once its lookups are done. */
  function AfterLookups(c: Core, env: Env): Session {
    Begin(c, env.(loads := Drop(env.loads, 2)))
  }

  /** A delete whose lookups went well is its loop, then the unallocation, then the erasure. */
  lemma DeleteIsLoop(c: Core, op: Op, env: Env)
    requires Shaped(c) && op.DeleteNamespaceOp? && op.del.accepted && LookupsWork(env)
    requires StoresNamespace(c, op.del.name) && StoresSubsystem(c, ParentName(op.del.name))
    ensures var name := op.del.name; var subsys := c.store[ParentName(name)].subsystem; var nsid := NsidAt(c, name);
      var (s', stopped) := Visit(AfterLookups(c, env), Detaching, op.order, subsys, SubsystemIdOf(name), nsid);
      var (s'', reply) := Call(s', NamespaceUnalloc(subsys.spec.nqn, nsid));
      Result(c, op, env) == (if stopped.Some? then (s', Rejected(stopped.value))
                             else if !reply.Good? then (s'', Rejected(Refusal(reply)))
                             else Forget(s'', name))
  {
    var name := op.del.name;
    assert StoredWell(name, c.store[name]);
    var (s1, found) := GetNamespace(Begin(c, env), name);
    var (s2, parent) := GetSubsystem(s1, ParentName(name));
    assert s2 == AfterLookups(c, env);
  }

  lemma DeleteTurnedAway(c: Core, op: Op, env: Env)
    requires op.DeleteNamespaceOp? && StoresNamespace(c, op.del.name)
    requires !op.del.accepted || !LookupsWork(env) || !StoresSubsystem(c, ParentName(op.del.name))
    ensures var (s', r) := Result(c, op, env); !Ok(r) && s'.core == c && s'.log == []
  {
    var (s1, found) := GetNamespace(Begin(c, env), op.del.name);
    var (s2, parent) := GetSubsystem(s1, ParentName(op.del.name));
  }

  /** The loop of a delete stops at the first key that does not go well. */
  lemma DeleteOutcome(c: Core, op: Op, env: Env) returns (n: nat)
    requires Shaped(c) && op.DeleteNamespaceOp? && op.del.accepted && LookupsWork(env) && OrderOk(c, op)
    requires StoresNamespace(c, op.del.name) && StoresSubsystem(c, ParentName(op.del.name))
    ensures var name := op.del.name; var s := AfterLookups(c, env); var keys := Targets(op.order, ParentName(name));
      var (s', stopped) :=
        Visit(s, Detaching, op.order, c.store[ParentName(name)].subsystem, SubsystemIdOf(name), NsidAt(c, name));
      && Progress(s, s', stopped, Detaching, keys, NqnAt(c, ParentName(name)), NsidAt(c, name), n)
      && IdSet(c, keys) == IdsUnder(c, SubsystemIdOf(name)) && Enumerates(keys, ControllerKeys(c, SubsystemIdOf(name)))
  {
    var name, parent := op.del.name, ParentName(op.del.name);
    ParentIsNamed(c, parent);
    assert StoredWell(name, c.store[name]);
    ParentNameParses(name);
    TargetsOfOrder(c, op.order, parent);
    VisitOnlyTargets(AfterLookups(c, env), Detaching, op.order, c.store[parent].subsystem, SubsystemIdOf(name),
      NsidAt(c, name));
    n := VisitProgress(AfterLookups(c, env), Detaching, Targets(op.order, parent), c.store[parent].subsystem,
        SubsystemIdOf(name), NsidAt(c, name));
  }

  lemma DetachedHolders(u: Unit, v: Unit, ids: set<int>, nsid: int)
    requires v == u.(attached := u.attached - Pairs(ids, nsid))
    ensures Without(v, nsid) == Without(u, nsid) && Holders(v, nsid) == Holders(u, nsid) - ids
  {
    forall i ensures i in Holders(v, nsid) <==> i in Holders(u, nsid) && i !in ids {
      assert i in Holders(v, nsid) <==> (i, nsid) in v.attached;
      assert i in Holders(u, nsid) <==> (i, nsid) in u.attached;
      assert (i, nsid) in Pairs(ids, nsid) <==> i in ids;
    }
  }

  /** The unallocation after a complete loop is taken exactly when the device lets go. */
  lemma UnallocTaken(c: Core, s: Session, name: string)
    requires StoresNamespace(c, name) && StoresSubsystem(c, ParentName(name))
    requires s.core == c.(device :=
        Linked(c.device, Detaching, NqnAt(c, ParentName(name)), IdsUnder(c, SubsystemIdOf(name)), NsidAt(c, name)))
    ensures var (s', reply) := Call(s, NamespaceUnalloc(NqnAt(c, ParentName(name)), NsidAt(c, name)));
      && (reply.Good? <==> s.env.net != [] && s.env.net[0].Done? && LetsGo(c, name))
      && s'.core.device == (if TakesEffect(s.env.net) && LetsGo(c, name) then Deleted(c, name).device
          else s.core.device)
      && s'.env.saves == s.env.saves && s'.core == s.core.(device := s'.core.device)
      && (!reply.Good? ==> Refusal(reply) == if s.env.net != [] && !s.env.net[0].Lost? then DeviceRefused
                                             else TransportFailed)
  {
    var nqn, nsid, ids, d :=
      NqnAt(c, ParentName(name)), NsidAt(c, name), IdsUnder(c, SubsystemIdOf(name)), s.core.device;
    if nqn !in c.device.units { return; }
    DetachedHolders(c.device.units[nqn], d.units[nqn], ids, nsid);
    var held := Holders(c.device.units[nqn], nsid);
    assert held - ids == {} <==> held <= ids by {
      if held - ids == {} { forall i | i in held ensures i in ids { assert i !in held - ids; } }
    }
    var ran := Execute(d, NamespaceUnalloc(nqn, nsid), 0);
    assert ran.Some? <==> LetsGo(c, name);
    if ran.Some? { SameUnits(c.device, d, ran.value, Deleted(c, name).device, nqn); }
  }

  lemma SameUnits(c: Device, d: Device, x: Device, y: Device, nqn: string)
    requires nqn in c.units && nqn in d.units && d == c.(units := c.units[nqn := d.units[nqn]])
    requires nqn in x.units && x == WithUnit(d, nqn, x.units[nqn])
    requires nqn in y.units && y == WithUnit(c, nqn, y.units[nqn])
    requires x.units[nqn] == y.units[nqn]
    ensures x == y
  {
    assert x.units == y.units;
  }

  lemma ForgetSucceeds(s: Session, env: Env, name: string)
    requires s.env.saves == env.saves && WritesSucceed(env)
    ensures Ok(Forget(s, name).1) && WriteWorks(s)
  {
    if s.env.saves != [] { assert s.env.saves[0] in env.saves; }
  }

  /** What a successful delete has sent. */
  ghost predicate DeleteSent(c: Core, log: seq<Command>, name: string, keys: seq<string>)
    requires StoresNamespace(c, name) && HasParent(c, name)
  {
    var n, nsid := NqnAt(c, ParentName(name)), NsidAt(c, name);
    Stored(c, keys) && log == Commands(Detaching, n, Ids(c, keys), nsid) + [NamespaceUnalloc(n, nsid)]
  }

  /** Store and index untouched. The first `n` of the subsystem's controllers went well and the next did not. The
      device has lost the attachments to those `n`, and to the next one only if its detach ran with the answer lost;
      on the wire are those detaches, and the next one if it was sent. */
  ghost predicate PartlyDeleted(c: Core, s': Session, name: string, env: Env, keys: seq<string>, n: nat)
    requires StoresNamespace(c, name) && StoresSubsystem(c, ParentName(name))
  {
    var s, nqn, nsid := AfterLookups(c, env), NqnAt(c, ParentName(name)), NsidAt(c, name);
    && n < |keys| && Stored(c, keys[..n])
    && (forall i :: 0 <= i < n ==> GoesWell(s, Detaching, keys, nqn, nsid, i))
    && !GoesWell(s, Detaching, keys, nqn, nsid, n)
    && s'.core == c.(device := DeviceAt(s, Detaching, keys, nqn, nsid, LinkedKeys(s, Detaching, keys, nqn, nsid, n)))
    && s'.log == SentBy(s, Detaching, keys, nqn, nsid, n)
  }

  /** Every controller of the subsystem was detached and the unallocation sent. The device has let the namespace go
      exactly if it lets go and the command ran. */
  ghost predicate AllDetached(c: Core, s': Session, name: string, env: Env, keys: seq<string>)
    requires StoresNamespace(c, name) && StoresSubsystem(c, ParentName(name))
  {
    var s, nqn, nsid := AfterLookups(c, env), NqnAt(c, ParentName(name)), NsidAt(c, name);
    && Stored(c, keys) && (forall i :: 0 <= i < |keys| ==> GoesWell(s, Detaching, keys, nqn, nsid, i))
    && s'.log == Commands(Detaching, nqn, Ids(c, keys), nsid) + [NamespaceUnalloc(nqn, nsid)]
    && s'.core.device == (if TakesEffect(Drop(env.net, |keys|)) && LetsGo(c, name) then Deleted(c, name).device
                          else Linked(c.device, Detaching, nqn, IdsUnder(c, SubsystemIdOf(name)), nsid))
  }

  /** The unallocation is answered with a zero status. */
  predicate Unallocated(c: Core, name: string, env: Env, keys: seq<string>)
    requires StoresNamespace(c, name)
  {
    var net := Drop(env.net, |keys|);
    net != [] && net[0].Done? && LetsGo(c, name)
  }

  /** What is wrong where the loop went well and the delete did not: the store erase, or the answer to the
      unallocation. */
  function LastObstacle(c: Core, name: string, env: Env, keys: seq<string>): Error
    requires StoresNamespace(c, name)
  {
    var net := Drop(env.net, |keys|);
    if Unallocated(c, name, env, keys) then WriteFailed
    else if net != [] && !net[0].Lost? then DeviceRefused
    else TransportFailed
  }

  /** The unallocation after a complete loop, and what follows it. */
  lemma UnallocEnds(c: Core, s: Session, name: string, env: Env, keys: seq<string>)
    requires StoresNamespace(c, name) && StoresSubsystem(c, ParentName(name))
    requires s.core == c.(device :=
        Linked(c.device, Detaching, NqnAt(c, ParentName(name)), IdsUnder(c, SubsystemIdOf(name)), NsidAt(c, name)))
    requires s.env.net == Drop(env.net, |keys|) && s.env.saves == env.saves
    ensures var command := NamespaceUnalloc(NqnAt(c, ParentName(name)), NsidAt(c, name));
      var (s1, reply) := Call(s, command);
      var (s2, r) := if reply.Good? then Forget(s1, name) else (s1, Rejected(Refusal(reply)));
      && s2.log == s.log + [command]
      && s2.core.device == (if TakesEffect(s.env.net) && LetsGo(c, name) then Deleted(c, name).device
          else s.core.device)
      && (Ok(r) <==> Unallocated(c, name, env, keys) && SavesWork(env))
      && (!Ok(r) ==> r == Rejected(LastObstacle(c, name, env, keys)))
      && s2.core == (if !Unallocated(c, name, env, keys) then c.(device := s2.core.device)
                     else if !Ok(r) then c.(device := s2.core.device, index := c.index - {name})
                     else Deleted(c, name))
  {
    UnallocTaken(c, s, name);
    hide Refusal, LetsGo, IdsUnder, Linked, Execute;
  }

  lemma DeleteStops(c: Core, s': Session, stopped: Option<Error>, name: string, env: Env, keys: seq<string>, n: nat)
    requires StoresNamespace(c, name) && StoresSubsystem(c, ParentName(name)) && n < |keys|
    requires var nqn, nsid := NqnAt(c, ParentName(name)), NsidAt(c, name);
      Progress(AfterLookups(c, env), s', stopped, Detaching, keys, nqn, nsid, n)
    ensures stopped == Some(Obstacle(AfterLookups(c, env), keys, n)) && PartlyDeleted(c, s', name, env, keys, n)
  {
  }

  lemma DeleteGetsThrough(
      c: Core, s': Session, stopped: Option<Error>, name: string, env: Env, keys: seq<string>)
    requires StoresNamespace(c, name) && StoresSubsystem(c, ParentName(name))
    requires IdSet(c, keys) == IdsUnder(c, SubsystemIdOf(name))
    requires var nqn, nsid := NqnAt(c, ParentName(name)), NsidAt(c, name);
      Progress(AfterLookups(c, env), s', stopped, Detaching, keys, nqn, nsid, |keys|)
    ensures stopped.None?
    ensures var (s1, reply) := Call(s', NamespaceUnalloc(NqnAt(c, ParentName(name)), NsidAt(c, name)));
      var (s2, r) := if reply.Good? then Forget(s1, name) else (s1, Rejected(Refusal(reply)));
      && AllDetached(c, s2, name, env, keys)
      && (!Ok(r) ==> r == Rejected(LastObstacle(c, name, env, keys)))
      && (Ok(r) <==> Unallocated(c, name, env, keys) && SavesWork(env))
      && s2.core == (if !Unallocated(c, name, env, keys) then c.(device := s2.core.device)
                     else if !Ok(r) then c.(device := s2.core.device, index := c.index - {name})
                     else Deleted(c, name))
  {
    EndIsComplete(AfterLookups(c, env), s', Detaching, keys, NqnAt(c, ParentName(name)), NsidAt(c, name));
    UnallocEnds(c, s', name, env, keys);
    hide Call, Refusal, Forget, LetsGo, Unallocated, LastObstacle, GoesWell, Deleted, StoppedAt;
  }

  /** A delete that does not get through its loop leaves exactly what it had undone by then; one that does, but is not
      told that the namespace is unallocated, leaves store and index alone; any other erases the name from the index and
      then from the store. */
  lemma FailedDeleteLeavesExactly(c: Core, op: Op, env: Env) returns (n: nat)
    requires Shaped(c) && op.DeleteNamespaceOp? && op.del.accepted && LookupsWork(env) && OrderOk(c, op)
    requires StoresNamespace(c, op.del.name) && StoresSubsystem(c, ParentName(op.del.name))
    ensures var (s', r) := Result(c, op, env); var name := op.del.name; var keys := Targets(op.order, ParentName(name));
      if n < |keys| then
        r == Rejected(Obstacle(AfterLookups(c, env), keys, n)) && PartlyDeleted(c, s', name, env, keys, n)
      else
        && AllDetached(c, s', name, env, keys)
        && (!Ok(r) ==> r == Rejected(LastObstacle(c, name, env, keys)))
        && (Ok(r) <==> Unallocated(c, name, env, keys) && SavesWork(env))
        && s'.core == (if !Unallocated(c, name, env, keys) then c.(device := s'.core.device)
                       else if !Ok(r) then c.(device := s'.core.device, index := c.index - {name})
                       else Deleted(c, name))
  {
    hide Handle, Visit, Call, Forget, Refusal, Shaped, OrderOk;
    hide Unallocated, LetsGo, Deleted, AllDetached, PartlyDeleted;
    n := DeleteOutcome(c, op, env);
    DeleteIsLoop(c, op, env);
    var name := op.del.name;
    var keys, s := Targets(op.order, ParentName(name)), AfterLookups(c, env);
    var (s', stopped) := Visit(s, Detaching, op.order, c.store[ParentName(name)].subsystem, SubsystemIdOf(name),
        NsidAt(c, name));
    if n < |keys| {
      DeleteStops(c, s', stopped, name, env, keys, n);
      return;
    }
    assert n == |keys|;
    DeleteGetsThrough(c, s', stopped, name, env, keys);
  }

  /** Every successful delete leaves the same state whatever the order of the loop, and has sent exactly one detach for
      each controller of the subsystem in the index and then the unallocation. Where the device does not let go of an
      attached namespace, it succeeded only because the index knew every controller that held it. */
  lemma DeleteInAnyOrder(c: Core, op: Op, env: Env)
    requires Shaped(c) && op.DeleteNamespaceOp? && OrderOk(c, op) && StoresNamespace(c, op.del.name)
    requires Ok(Result(c, op, env).1)
    ensures HasParent(c, op.del.name) && LetsGo(c, op.del.name)
    ensures Result(c, op, env).1 == Acknowledged && Result(c, op, env).0.core == Deleted(c, op.del.name)
    ensures var keys := Targets(op.order, ParentName(op.del.name));
      Enumerates(keys, ControllerKeys(c, SubsystemIdOf(op.del.name)))
          && DeleteSent(c, Result(c, op, env).0.log, op.del.name, keys)
  {
    hide Handle;
    if !op.del.accepted || !LookupsWork(env) || !StoresSubsystem(c, ParentName(op.del.name)) {
      DeleteTurnedAway(c, op, env);
    }
    var n := FailedDeleteLeavesExactly(c, op, env);
    var m := DeleteOutcome(c, op, env);
    DeleteAnswers(c, op, env);
  }

  lemma DeleteAnswers(c: Core, op: Op, env: Env)
    requires op.DeleteNamespaceOp? && Ok(Result(c, op, env).1)
    ensures Result(c, op, env).1 == Acknowledged
  {
  }
}
