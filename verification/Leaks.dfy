/** Children that a failed create leaves on the device, which no stored object accounts for: when that happens, and
    what it blocks for good. */
module Leaks {
  import opened Names
  import opened Device
  import opened Bridge
  import opened Handlers
  import opened Runs
  import opened Shape
  import opened Effects
  import opened Backing
  import opened Orphans
  import opened Counts
  import opened Namespaces
  import opened Limits

  // ------------------------------------------------------------------ a subsystem that can not be deleted any more

  lemma SpareKeepsSubsystem(c: Core, op: Op, env: Env, k: string, i: int, j: int)
    requires Shaped(c) && Room(c, k, i, j) && (i > 0 || j > 0) && c.device.contract.refusesNonEmpty
    requires op.DeleteSubsystemOp? && op.del.name == k
    ensures !Ok(Result(c, op, env).1)
  {
    RoomIsNotEmpty(c, k, i, j);
    var (s1, found) := GetSubsystem(Begin(c, env), k);
    var (s2, reply) := Call(s1, SubsystemDelete(NqnAt(c, k)));
  }

  lemma SpareStep(c: Core, e: Event, k: string, i: int, j: int)
    requires Shaped(c) && Plausible(e) && Room(c, k, i, j) && (i > 0 || j > 0) && Sole(c, k)
    requires Reliable(c.device.contract) && TellsOfChildren(e, k)
    ensures Room(Step(c, e), k, i, j) && Sole(Step(c, e), k)
  {
    hide Handle;
    RoomIsNotEmpty(c, k, i, j);
    if e.Serve? { OnlyItsDelete(c, e.op, e.env, k); }
    RoomStep(c, e, k, i, j);
  }

  /** Once a unit has a controller or namespace more than the store, it always has: no run of requests and restarts in
      which the deletes of its stored children are told changes that, and its subsystem is never deleted from a device
      that refuses to delete what is not empty. */
  lemma {:induction false} LeakedChildIsPermanent(
      c: Core, events: seq<Event>, k: string, i: int, j: int, op: Op, env: Env)
    requires Shaped(c) && Room(c, k, i, j) && (i > 0 || j > 0) && Sole(c, k) && Reliable(c.device.contract)
    requires forall e :: e in events ==> Plausible(e) && TellsOfChildren(e, k)
    requires op.DeleteSubsystemOp? && op.del.name == k
    ensures var c' := Run(c, events);
      Room(c', k, i, j) && Sole(c', k) && !Ok(Result(c', op, env).1)
    decreases |events|
  {
    if events == [] {
      SpareKeepsSubsystem(c, op, env, k, i, j);
    } else {
      var e := events[0];
      assert e in events;
      SpareStep(c, e, k, i, j);
      ShapeStep(c, e);
      ContractStep(c, e);
      LeakedChildIsPermanent(Step(c, e), events[1..], k, i, j, op, env);
    }
  }

  // ------------------------------------------------------------------ when a create leaves a child behind

  /** The command that creates the controller runs on the device. */
  predicate CreationRuns(c: Core, req: CreateControllerRequest, env: Env)
    requires Present(c, req.parent)
  {
    && AcceptsCreateController(req) && LookupsWork(env) && TakesEffect(env.net)
    && var n := NqnAt(c, req.parent);
       var id := AnsweredId(c.device, ControllerCreate(n, ParamsOf(req.spec)), env.net[0].id);
       InRange(id) && id !in c.device.units[n].controllers
  }

  lemma CreationTaken(s: Session, params: ControllerParams, k: string)
    requires DeviceShaped(s.core.device) && Present(s.core, k)
    ensures var n := NqnAt(s.core, k); var u := s.core.device.units[n];
      var (s', reply) := Call(s, ControllerCreate(n, params)); var net := s.env.net;
      var runs := TakesEffect(net) && var id := AnsweredId(s.core.device, ControllerCreate(n, params), net[0].id);
                                      InRange(id) && id !in u.controllers;
      && s'.core == s.core.(device := s'.core.device) && s'.env.saves == s.env.saves
      && (reply.Good? <==> runs && net[0].Done?)
      && n in s'.core.device.units && s'.core.device.units[n].namespaces == u.namespaces
      && |s'.core.device.units[n].controllers| == |u.controllers| + One(runs)
  {
    var u := s.core.device.units[NqnAt(s.core, k)];
    assert u.minId == 0 && u.maxId == 256;
  }

  lemma SparesByUnit(c: Core, c': Core, k: string)
    requires Present(c, k) && c'.store == c.store && NqnAt(c, k) in c'.device.units
    ensures Present(c', k)
    ensures var u, u' := c.device.units[NqnAt(c, k)], c'.device.units[NqnAt(c, k)];
      && SpareControllers(c', k) == SpareControllers(c, k) + |u'.controllers| - |u.controllers|
      && SpareNamespaces(c', k) == SpareNamespaces(c, k) + |u'.namespaces| - |u.namespaces|
  {
    UnderSame(c, c', k);
  }

  lemma SavedSpares(s: Session, name: string, o: Object, k: string)
    requires Present(s.core, k) && name !in s.core.store && ParentName(name) == k && !o.SubsystemObject?
    ensures var c' := SaveNew(s, name, o).0.core;
      && Present(c', k)
      && SpareControllers(c', k) == SpareControllers(s.core, k) - One(o.ControllerObject? && WriteWorks(s))
      && SpareNamespaces(c', k) == SpareNamespaces(s.core, k) - One(o.NamespaceObject? && WriteWorks(s))
  {
    var c' := SaveNew(s, name, o).0.core;
    if WriteWorks(s) { UnderSaved(s.core, c', name, o, k); } else { UnderSame(s.core, c', k); }
  }

  /** A create of a controller leaves its subsystem's unit with one controller more than the store exactly when the
      creating command runs and its answer is lost or the store write fails. */
  lemma ControllerCreateLeaksExactly(c: Core, op: Op, env: Env)
    requires Shaped(c) && FreshIdOk(op) && op.CreateControllerOp? && NewKey(op) !in c.store
    requires Present(c, op.cctrl.parent)
    ensures var k, c' := op.cctrl.parent, Step(c, Serve(op, env));
      && Present(c', k) && SpareNamespaces(c', k) == SpareNamespaces(c, k)
      && SpareControllers(c', k) == SpareControllers(c, k) +
           One(CreationRuns(c, op.cctrl, env) && !(env.net[0].Done? && SavesWork(env)))
  {
    hide ControllersUnder, NamespacesUnder, Execute;
    var req, k, name := op.cctrl, op.cctrl.parent, NewControllerName(op.cctrl);
    var (s1, found) := GetController(Begin(c, env), name);
    var (s2, parent) := GetSubsystem(s1, k);
    if !AcceptsCreateController(req) || !found.Missing? || !parent.Found? { return; }
    ParentOfNewChild(c, k, name, ChosenId(req.userId, req.freshId));
    CreationTaken(s2, ParamsOf(req.spec), k);
    var (s3, reply) := Call(s2, ControllerCreate(NqnAt(c, k), ParamsOf(req.spec)));
    SparesByUnit(c, s3.core, k);
    if !reply.Good? { return; }
    SavedSpares(s3, name, ControllerObject(Controller(name, req.spec.(ctrlrId := Some(Int32(reply.id))), true)), k);
  }

  /** The allocation runs on the device. */
  predicate AllocRuns(c: Core, req: CreateNamespaceRequest, env: Env)
    requires Present(c, req.parent)
  {
    && AcceptsCreateNamespace(req) && LookupsWork(env) && TakesEffect(env.net)
    && env.net[0].id !in c.device.units[NqnAt(c, req.parent)].namespaces
  }

  lemma AllocTaken(s: Session, spec: NamespaceSpec, k: string)
    requires Present(s.core, k)
    ensures var n := NqnAt(s.core, k); var u := s.core.device.units[n];
      var (s', reply) := Call(s, AllocCommand(n, spec));
      var runs := TakesEffect(s.env.net) && s.env.net[0].id !in u.namespaces;
      && (reply.Good? <==> runs && s.env.net[0].Done?)
      && n in s'.core.device.units && s'.core.device.units[n].controllers == u.controllers
      && s'.core.device.units[n].namespaces == (if runs then u.namespaces + {s.env.net[0].id} else u.namespaces)
  {
  }

  lemma RestOfCreateSpares(
      s: Session, req: CreateNamespaceRequest, order: seq<string>, subsys: Subsystem, name: string)
    requires Present(s.core, req.parent) && name !in s.core.store && ParentName(name) == req.parent
    ensures var (s', stopped) := Visit(s, Attaching, order, subsys, SubsystemIdOf(req.parent), req.spec.hostNsid);
      var (s'', r) :=
        if stopped.Some? then (s', Rejected(stopped.value))
        else SaveNew(s', name, NamespaceObject(Namespace(name, req.spec, true)));
      && Present(s''.core, req.parent) && SpareControllers(s''.core, req.parent) == SpareControllers(s.core, req.parent)
      && SpareNamespaces(s''.core, req.parent) == SpareNamespaces(s.core, req.parent) - One(Ok(r))
  {
    hide ControllersUnder, NamespacesUnder, Execute;
    var sid, nsid := SubsystemIdOf(req.parent), req.spec.hostNsid;
    var (s', stopped) := Visit(s, Attaching, order, subsys, sid, nsid);
    VisitKeepsUnit(s, Attaching, order, subsys, sid, nsid, NqnAt(s.core, req.parent));
    SparesByUnit(s.core, s'.core, req.parent);
    if stopped.Some? { return; }
    SavedSpares(s', name, NamespaceObject(Namespace(name, req.spec, true)), req.parent);
  }

  /** A create of a namespace leaves its subsystem's unit with one namespace more than the store exactly when the
      allocation runs and the create does not succeed all the same. */
  lemma NamespaceCreateLeaksExactly(c: Core, op: Op, env: Env)
    requires Shaped(c) && FreshIdOk(op) && op.CreateNamespaceOp? && NewKey(op) !in c.store
    requires Present(c, op.cns.parent)
    ensures var k, (s', r) := op.cns.parent, Result(c, op, env);
      && Present(s'.core, k) && SpareControllers(s'.core, k) == SpareControllers(c, k)
      && SpareNamespaces(s'.core, k) == SpareNamespaces(c, k) + One(AllocRuns(c, op.cns, env) && !Ok(r))
  {
    hide ControllersUnder, NamespacesUnder, Execute;
    var req, k, name := op.cns, op.cns.parent, NewNamespaceName(op.cns);
    var (s1, found) := GetNamespace(Begin(c, env), name);
    var (s2, parent) := GetSubsystem(s1, k);
    if !AcceptsCreateNamespace(req) || !found.Missing? || !parent.Found? { return; }
    ParentOfNewChild(c, k, name, ChosenId(req.userId, req.freshId));
    AllocTaken(s2, req.spec, k);
    var (s3, reply) := Call(s2, AllocCommand(NqnAt(c, k), req.spec));
    SparesByUnit(c, s3.core, k);
    if !reply.Good? { return; }
    RestOfCreateSpares(s3, req, op.order, parent.value, name);
  }

  // ------------------------------------------------------------------ an id that can not be used any more

  /** The device has a namespace under the subsystem's NQN, and no stored namespace of the subsystem is it. */
  ghost predicate Stuck(c: Core, k: string, nsid: int) {
    && Present(c, k) && Sole(c, k) && nsid in c.device.units[NqnAt(c, k)].namespaces
    && forall l :: StoresNamespace(c, l) && ParentName(l) == k ==> NsidAt(c, l) != nsid
  }

  /** Such a namespace is what a failed create leaves behind on a device that allocates under HostNsid. */
  lemma FailedCreateSticks(c: Core, op: Op, env: Env)
    requires Shaped(c) && FreshIdOk(op) && op.CreateNamespaceOp? && NewKey(op) !in c.store
    requires SubsystemsBacked(c) && NamespacesBacked(c) && StoresSubsystem(c, op.cns.parent)
    requires AllocRuns(c, op.cns, env) && env.net[0].id == op.cns.spec.hostNsid && !Ok(Result(c, op, env).1)
    ensures Stuck(Step(c, Serve(op, env)), op.cns.parent, op.cns.spec.hostNsid)
  {
    var k, nsid, c' := op.cns.parent, op.cns.spec.hostNsid, Step(c, Serve(op, env));
    AllocStays(c, op, env);
    hide Handle;
    CreateEffects(c, op, env);
    assert forall l :: StoresSubsystem(c', l) ==> StoresSubsystem(c, l) && NqnAt(c', l) == NqnAt(c, l);
    forall l | StoresNamespace(c', l) && ParentName(l) == k ensures NsidAt(c', l) != nsid {
      assert StoresNamespace(c, l) && NsidAt(c', l) == NsidAt(c, l);
    }
  }

  lemma AllocStays(c: Core, op: Op, env: Env)
    requires op.CreateNamespaceOp? && NewKey(op) !in c.store && Present(c, op.cns.parent)
    requires AllocRuns(c, op.cns, env)
    ensures var d, n := Step(c, Serve(op, env)).device, NqnAt(c, op.cns.parent);
      n in d.units && env.net[0].id in d.units[n].namespaces
  {
    var req, k := op.cns, op.cns.parent;
    var (s1, found) := GetNamespace(Begin(c, env), NewNamespaceName(req));
    var (s2, parent) := GetSubsystem(s1, k);
    AllocTaken(s2, req.spec, k);
    var (s3, reply) := Call(s2, AllocCommand(NqnAt(c, k), req.spec));
    if !reply.Good? { return; }
    VisitKeepsUnit(s3, Attaching, op.order, parent.value, SubsystemIdOf(k), req.spec.hostNsid, NqnAt(c, k));
  }

  /** If the device allocates for the request, it does so under the HostNsid in question. */
  predicate AsksInVain(e: Event, k: string, nsid: int) {
    e.Serve? && e.op.CreateNamespaceOp? && e.op.cns.parent == k && e.op.cns.spec.hostNsid == nsid ==>
      AllocHonoursNsid(e.op.cns, e.env)
  }

  lemma StuckRefuses(c: Core, op: Op, env: Env, k: string, nsid: int)
    requires Stuck(c, k, nsid) && op.CreateNamespaceOp? && NewKey(op) !in c.store
    requires op.cns.parent == k && op.cns.spec.hostNsid == nsid && AllocHonoursNsid(op.cns, env)
    ensures !Ok(Result(c, op, env).1)
  {
    hide Handle;
    AllocDecides(c, op, env);
  }

  lemma CreatedUnderItsParent(c: Core, op: Op, env: Env)
    requires Shaped(c) && FreshIdOk(op) && op.CreateNamespaceOp? && NewKey(op) !in c.store && Ok(Result(c, op, env).1)
    ensures ParentName(NewKey(op)) == op.cns.parent
    ensures Result(c, op, env).1 == Returned(NamespaceObject(Namespace(NewKey(op), op.cns.spec, true)))
  {
    var (s1, found) := GetNamespace(Begin(c, env), NewKey(op));
    var (s2, parent) := GetSubsystem(s1, op.cns.parent);
    ParentOfNewChild(c, op.cns.parent, NewKey(op), ChosenId(op.cns.userId, op.cns.freshId));
  }

  lemma NamespacesFrom(c: Core, e: Event, l: string)
    requires Shaped(c) && Plausible(e) && StoresNamespace(Step(c, e), l)
    ensures || (StoresNamespace(c, l) && NsidAt(c, l) == NsidAt(Step(c, e), l))
            || (&& e.Serve? && e.op.CreateNamespaceOp? && NewKey(e.op) == l && l !in c.store
                && Ok(Result(c, e.op, e.env).1) && ParentName(l) == e.op.cns.parent
                && NsidAt(Step(c, e), l) == e.op.cns.spec.hostNsid)
  {
    hide Handle;
    if e.Restart? { return; }
    if IsCreate(e.op) {
      CreateEffects(c, e.op, e.env);
      if NewKey(e.op) !in c.store && Ok(Result(c, e.op, e.env).1) {
        CreatedIsOfItsKind(c, e.op, e.env);
        if e.op.CreateNamespaceOp? { CreatedUnderItsParent(c, e.op, e.env); }
      }
    }
    else if IsDelete(e.op) { DeleteEffects(c, e.op, e.env); }
    else if e.op.UpdateControllerOp? { UpdatesOnlyControllers(c, e.op, e.env); }
    else { QueryEffects(c, e.op, e.env); }
  }

  lemma StuckStep(c: Core, e: Event, k: string, nsid: int)
    requires Shaped(c) && Plausible(e) && Stuck(c, k, nsid) && Reliable(c.device.contract) && AsksInVain(e, k, nsid)
    ensures Stuck(Step(c, e), k, nsid)
  {
    hide Handle;
    var c' := Step(c, e);
    if e.Serve? {
      OnlyItsDelete(c, e.op, e.env, k);
      StepKeepsFact(c, e.op, e.env, Holds(NqnAt(c, k), nsid));
    }
    SoleStep(c, e, k);
    forall l | StoresNamespace(c', l) && ParentName(l) == k ensures NsidAt(c', l) != nsid {
      NamespacesFrom(c, e, l);
      if l !in c.store && e.op.cns.spec.hostNsid == nsid { StuckRefuses(c, e.op, e.env, k, nsid); }
    }
  }

  /** No run of requests and restarts, whatever fails, frees it, and every create under the same HostNsid fails, as
      long as the device, when it allocates for that HostNsid, does so under it. */
  lemma {:induction false} StuckIsPermanent(c: Core, events: seq<Event>, k: string, nsid: int, op: Op, env: Env)
    requires Shaped(c) && Stuck(c, k, nsid) && Reliable(c.device.contract)
    requires forall e :: e in events ==> Plausible(e) && AsksInVain(e, k, nsid)
    requires op.CreateNamespaceOp? && op.cns.parent == k && op.cns.spec.hostNsid == nsid
    requires AllocHonoursNsid(op.cns, env)
    ensures var c' := Run(c, events);
      Stuck(c', k, nsid) && (NewKey(op) !in c'.store ==> !Ok(Result(c', op, env).1))
    decreases |events|
  {
    if events == [] {
      if NewKey(op) !in c.store { StuckRefuses(c, op, env, k, nsid); }
    } else {
      var e := events[0];
      assert e in events;
      StuckStep(c, e, k, nsid);
      ShapeStep(c, e);
      ContractStep(c, e);
      StuckIsPermanent(Step(c, e), events[1..], k, nsid, op, env);
    }
  }
}
