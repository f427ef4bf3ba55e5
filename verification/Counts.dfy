/** Orphans by counting. A subsystem's unit on the device has at least as many controllers as the store has for it, and
    at least as many namespaces, whatever ids are recorded. So a unit that is empty has no stored children. */
module Counts {
  import opened Names
  import opened Device
  import opened Bridge
  import opened Handlers
  import opened Runs
  import opened Shape
  import opened Effects
  import opened Backing
  import opened Orphans
  import opened Scan

  function ControllersUnder(c: Core, k: string): set<string> {
    set l | l in c.store && c.store[l].ControllerObject? && ParentName(l) == k
  }

  function NamespacesUnder(c: Core, k: string): set<string> {
    set l | l in c.store && c.store[l].NamespaceObject? && ParentName(l) == k
  }

  /** How many more controllers the unit has than the store. */
  function SpareControllers(c: Core, k: string): int
    requires Present(c, k)
  {
    |c.device.units[NqnAt(c, k)].controllers| - |ControllersUnder(c, k)|
  }

  function SpareNamespaces(c: Core, k: string): int
    requires Present(c, k)
  {
    |c.device.units[NqnAt(c, k)].namespaces| - |NamespacesUnder(c, k)|
  }

  /** At least `i` more controllers than the store, and `j` more namespaces. */
  predicate Room(c: Core, k: string, i: int, j: int) {
    Present(c, k) && SpareControllers(c, k) >= i && SpareNamespaces(c, k) >= j
  }

  /** No other stored subsystem has its NQN. */
  ghost predicate Sole(c: Core, k: string) {
    StoresSubsystem(c, k) && forall l :: StoresSubsystem(c, l) && NqnAt(c, l) == NqnAt(c, k) ==> l == k
  }

  function One(b: bool): int {
    if b then 1 else 0
  }

  // ------------------------------------------------------------------ counting

  lemma SubsetSize<T>(a: set<T>, b: set<T>)
    requires a <= b
    ensures |a| <= |b|
  {
    assert b == a + (b - a);
  }

  lemma UnderSame(c: Core, c': Core, k: string)
    requires c'.store == c.store
    ensures ControllersUnder(c', k) == ControllersUnder(c, k) && NamespacesUnder(c', k) == NamespacesUnder(c, k)
  {
  }

  lemma UnderErased(c: Core, c': Core, name: string, k: string)
    requires name in c.store && c'.store == c.store - {name}
    ensures var o := c.store[name];
      && |ControllersUnder(c', k)| == |ControllersUnder(c, k)| - One(o.ControllerObject? && ParentName(name) == k)
      && |NamespacesUnder(c', k)| == |NamespacesUnder(c, k)| - One(o.NamespaceObject? && ParentName(name) == k)
  {
    assert ControllersUnder(c, k) - {name} == ControllersUnder(c', k);
    assert NamespacesUnder(c, k) - {name} == NamespacesUnder(c', k);
  }

  lemma UnderSaved(c: Core, c': Core, name: string, o: Object, k: string)
    requires name !in c.store && c'.store == c.store[name := o]
    ensures |ControllersUnder(c', k)| == |ControllersUnder(c, k)| + One(o.ControllerObject? && ParentName(name) == k)
    ensures |NamespacesUnder(c', k)| == |NamespacesUnder(c, k)| + One(o.NamespaceObject? && ParentName(name) == k)
  {
    assert c'.store - {name} == c.store;
    UnderErased(c', c, name, k);
  }

  lemma RoomGrows(c: Core, c': Core, k: string, i: int, j: int)
    requires Room(c, k, i, j) && c'.store == c.store && Grows(c.device, c'.device)
    ensures Room(c', k, i, j)
  {
    UnderSame(c, c', k);
    var u, u' := c.device.units[NqnAt(c, k)], c'.device.units[NqnAt(c, k)];
    SubsetSize(u.controllers, u'.controllers);
    SubsetSize(u.namespaces, u'.namespaces);
  }

  /** A command with another NQN does not touch the unit. */
  lemma RoomElsewhere(s: Session, c: Command, k: string, i: int, j: int)
    requires Room(s.core, k, i, j) && !Concerns(c, NqnAt(s.core, k))
    ensures Room(Call(s, c).0.core, k, i, j)
  {
    UnderSame(s.core, Call(s, c).0.core, k);
  }

  lemma SavedRoom(s: Session, name: string, o: Object, k: string, i: int, j: int)
    requires Room(s.core, k, i, j) && name !in s.core.store
    ensures var c' := SaveNew(s, name, o).0.core; var saved := WriteWorks(s) && ParentName(name) == k;
      Room(c', k, i - One(saved && o.ControllerObject?), j - One(saved && o.NamespaceObject?))
  {
    var c' := SaveNew(s, name, o).0.core;
    if WriteWorks(s) { UnderSaved(s.core, c', name, o, k); } else { UnderSame(s.core, c', k); }
  }

  lemma ForgottenRoom(s: Session, name: string, k: string, i: int, j: int)
    requires Room(s.core, k, i, j) && name in s.core.store && name != k
    ensures var c' := Forget(s, name).0.core; var erased := WriteWorks(s) && ParentName(name) == k;
      && Room(c', k, i + One(erased && s.core.store[name].ControllerObject?),
          j + One(erased && s.core.store[name].NamespaceObject?))
  {
    var c' := Forget(s, name).0.core;
    if WriteWorks(s) { UnderErased(s.core, c', name, k); } else { UnderSame(s.core, c', k); }
  }

  // ------------------------------------------------------------------ single calls

  /** One controller more on the unit. */
  lemma CreatedRoom(s: Session, params: ControllerParams, k: string, i: int, j: int)
    requires Room(s.core, k, i, j)
    ensures var (s', reply) := Call(s, ControllerCreate(NqnAt(s.core, k), params));
      Room(s'.core, k, i + One(reply.Good?), j)
  {
    UnderSame(s.core, Call(s, ControllerCreate(NqnAt(s.core, k), params)).0.core, k);
  }

  lemma RemovedRoom(s: Session, id: int, k: string, i: int, j: int)
    requires Room(s.core, k, i, j)
    ensures var (s', reply) := Call(s, ControllerRemove(NqnAt(s.core, k), id, 1));
      Room(s'.core, k, i - One(reply.Good? || !NoHiddenEffects(s.env)), j)
  {
    if s.env.net != [] { assert s.env.net[0] in s.env.net; }
    UnderSame(s.core, Call(s, ControllerRemove(NqnAt(s.core, k), id, 1)).0.core, k);
  }

  lemma AllocatedRoom(s: Session, spec: NamespaceSpec, k: string, i: int, j: int)
    requires Room(s.core, k, i, j)
    ensures var (s', reply) := Call(s, AllocCommand(NqnAt(s.core, k), spec));
      Room(s'.core, k, i, j + One(reply.Good?))
  {
    UnderSame(s.core, Call(s, AllocCommand(NqnAt(s.core, k), spec)).0.core, k);
  }

  lemma UnallocatedRoom(s: Session, nsid: int, k: string, i: int, j: int)
    requires Room(s.core, k, i, j)
    ensures var (s', reply) := Call(s, NamespaceUnalloc(NqnAt(s.core, k), nsid));
      Room(s'.core, k, i, j - One(reply.Good? || !NoHiddenEffects(s.env)))
  {
    if s.env.net != [] { assert s.env.net[0] in s.env.net; }
    UnderSame(s.core, Call(s, NamespaceUnalloc(NqnAt(s.core, k), nsid)).0.core, k);
  }

  // ------------------------------------------------------------------ each handler

  lemma CreateSubsystemRoom(s: Session, req: CreateSubsystemRequest, order: seq<string>, k: string, i: int, j: int)
    requires Room(s.core, k, i, j) && s.core.device.contract.refusesDuplicate
    ensures Room(CreateSubsystem(s, req, order).0.core, k, i, j)
  {
    var name := NewSubsystemName(req);
    var (s1, found) := GetSubsystem(s, name);
    if !AcceptsCreateSubsystem(req) || !found.Missing? { return; }
    var (s2, objection) := ScanForNqn(s1, order, req.spec.nqn);
    if objection.Some? { return; }
    CallGrows(s2, CreationCommand(req.spec));
    var (s3, reply) := Call(s2, CreationCommand(req.spec));
    RoomGrows(s.core, s3.core, k, i, j);
    if !reply.Good? { return; }
    var (s4, version) := Call(s3, GetVersion);
    assert s4.core == s3.core;
    SavedRoom(s4, name, SubsystemObject(Subsystem(name, req.spec, FirstText(version))), k, i, j);
  }

  lemma DeleteSubsystemRoom(s: Session, req: DeleteRequest, k: string, i: int, j: int)
    requires Shaped(s.core) && Room(s.core, k, i, j) && Sole(s.core, k)
    requires req.name == k ==> Told(s.env) || (s.core.device.contract.refusesNonEmpty && (i > 0 || j > 0))
    ensures var c' := DeleteSubsystem(s, req).0.core; StoresSubsystem(c', k) ==> Room(c', k, i, j)
  {
    var (s1, found) := GetSubsystem(s, req.name);
    if !req.accepted || !found.Found? { return; }
    assert StoresSubsystem(s.core, req.name) && StoredWell(req.name, s.core.store[req.name]);
    var command := SubsystemDelete(found.value.spec.nqn);
    if req.name == k {
      if i > 0 || j > 0 { RoomIsNotEmpty(s.core, k, i, j); }
      if Told(s.env) {
        FailedCallHasNoEffect(s1, command);
        WriteSucceeds(Call(s1, command).0);
      }
      return;
    }
    RoomElsewhere(s1, command, k, i, j);
    ForgottenRoom(Call(s1, command).0, req.name, k, i, j);
  }

  lemma RoomIsNotEmpty(c: Core, k: string, i: int, j: int)
    requires Room(c, k, i, j) && (i > 0 || j > 0)
    ensures !Empty(c.device.units[NqnAt(c, k)])
  {
  }

  /** A command under another subsystem carries another NQN. */
  lemma OtherNqn(c: Core, k: string, l: string)
    requires Sole(c, k) && StoresSubsystem(c, l) && l != k
    ensures NqnAt(c, l) != NqnAt(c, k)
  {
  }

  lemma CreateControllerRoom(s: Session, req: CreateControllerRequest, k: string, i: int, j: int)
    requires Shaped(s.core) && Room(s.core, k, i, j) && Sole(s.core, k) && ValidId(req.freshId)
    ensures Room(CreateController(s, req).0.core, k, i, j)
  {
    var name := NewControllerName(req);
    var (s1, found) := GetController(s, name);
    if !AcceptsCreateController(req) || !found.Missing? { return; }
    var (s2, parent) := GetSubsystem(s1, req.parent);
    if !parent.Found? { return; }
    ParentOfNewChild(s.core, req.parent, name, ChosenId(req.userId, req.freshId));
    var command := ControllerCreate(parent.value.spec.nqn, ParamsOf(req.spec));
    var (s3, reply) := Call(s2, command);
    var id := if reply.Good? then Some(Int32(reply.id)) else None;
    var o := ControllerObject(Controller(name, req.spec.(ctrlrId := id), true));
    if req.parent == k {
      CreatedRoom(s2, ParamsOf(req.spec), k, i, j);
      if reply.Good? { SavedRoom(s3, name, o, k, i + 1, j); }
    } else {
      OtherNqn(s.core, k, req.parent);
      RoomElsewhere(s2, command, k, i, j);
      SavedRoom(s3, name, o, k, i, j);
    }
  }

  lemma DeleteControllerRoom(s: Session, req: DeleteRequest, k: string, i: int, j: int)
    requires Shaped(s.core) && Room(s.core, k, i, j) && Sole(s.core, k)
    requires ParentName(req.name) == k ==> Told(s.env)
    ensures Room(DeleteController(s, req).0.core, k, i, j)
  {
    var (s1, found) := GetController(s, req.name);
    if !req.accepted || !found.Found? { return; }
    assert StoredWell(req.name, s.core.store[req.name]);
    var (s2, parent) := GetSubsystem(s1, ParentName(req.name));
    if !parent.Found? { return; }
    var command := ControllerRemove(parent.value.spec.nqn, found.value.spec.ctrlrId.value, 1);
    var (s3, reply) := Call(s2, command);
    if ParentName(req.name) == k {
      RemovedRoom(s2, found.value.spec.ctrlrId.value, k, i, j);
      WriteSucceeds(s3);
      if reply.Good? { ForgottenRoom(s3, req.name, k, i - 1, j); }
    } else {
      OtherNqn(s.core, k, ParentName(req.name));
      RoomElsewhere(s2, command, k, i, j);
      ForgottenRoom(s3, req.name, k, i, j);
    }
  }

  lemma UpdateControllerRoom(s: Session, req: UpdateControllerRequest, k: string, i: int, j: int)
    requires Room(s.core, k, i, j)
    ensures Room(UpdateNvmeController(s, req).0.core, k, i, j)
  {
    var (s1, found) := GetController(s, req.name);
    if !req.accepted || !AcceptsControllerSpec(req.spec) || !found.Found? || !req.maskAccepted { return; }
    var (s2, parent) := GetSubsystem(s1, ParentName(req.name));
    if !parent.Found? { return; }
    var (s3, reply) := Call(s2, ControllerUpdate(parent.value.spec.nqn, ParamsOf(req.spec)));
    assert s3.core == s.core;
    if !reply.Good? { return; }
    RenewedRoom(s3, req.name, Controller(req.name, req.spec.(ctrlrId := Some(Int32(reply.id))), true), k, i, j);
  }

  lemma RenewedRoom(s: Session, name: string, x: Controller, k: string, i: int, j: int)
    requires Room(s.core, k, i, j) && StoresController(s.core, name)
    ensures Room(Put(s, name, ControllerObject(x)).0.core, k, i, j)
  {
    var c' := Put(s, name, ControllerObject(x)).0.core;
    assert ControllersUnder(c', k) == ControllersUnder(s.core, k)
        && NamespacesUnder(c', k) == NamespacesUnder(s.core, k);
  }

  lemma CreateNamespaceRoom(s: Session, req: CreateNamespaceRequest, order: seq<string>, k: string, i: int, j: int)
    requires Shaped(s.core) && Room(s.core, k, i, j) && Sole(s.core, k) && ValidId(req.freshId)
    requires s.core.device.contract.refusesDuplicate
    ensures Room(CreateNamespace(s, req, order).0.core, k, i, j)
  {
    var name, sid, nsid := NewNamespaceName(req), SubsystemIdOf(req.parent), req.spec.hostNsid;
    var (s1, found) := GetNamespace(s, name);
    if !AcceptsCreateNamespace(req) || !found.Missing? { return; }
    var (s2, parent) := GetSubsystem(s1, req.parent);
    if !parent.Found? { return; }
    ParentOfNewChild(s.core, req.parent, name, ChosenId(req.userId, req.freshId));
    var command := AllocCommand(parent.value.spec.nqn, req.spec);
    var (s3, reply) := Call(s2, command);
    var more := One(req.parent == k);
    if req.parent == k {
      AllocatedRoom(s2, req.spec, k, i, j);
    } else {
      OtherNqn(s.core, k, req.parent);
      RoomElsewhere(s2, command, k, i, j);
    }
    if !reply.Good? { return; }
    var (s4, stopped) := Visit(s3, Attaching, order, parent.value, sid, nsid);
    VisitGrows(s3, Attaching, order, parent.value, sid, nsid);
    RoomGrows(s3.core, s4.core, k, i, j + more);
    if stopped.Some? { return; }
    SavedRoom(s4, name, NamespaceObject(Namespace(name, req.spec, true)), k, i, j + more);
  }

  lemma DeleteNamespaceRoom(s: Session, req: DeleteRequest, order: seq<string>, k: string, i: int, j: int)
    requires Shaped(s.core) && Room(s.core, k, i, j) && Sole(s.core, k)
    requires s.core.device.contract.refusesDuplicate && (ParentName(req.name) == k ==> Told(s.env))
    ensures Room(DeleteNamespace(s, req, order).0.core, k, i, j)
  {
    var (s1, found) := GetNamespace(s, req.name);
    if !req.accepted || !found.Found? { return; }
    assert StoredWell(req.name, s.core.store[req.name]);
    var (s2, parent) := GetSubsystem(s1, ParentName(req.name));
    if !parent.Found? { return; }
    var nsid, sid := found.value.spec.hostNsid, SubsystemIdOf(req.name);
    var (s3, stopped) := Visit(s2, Detaching, order, parent.value, sid, nsid);
    VisitGrows(s2, Detaching, order, parent.value, sid, nsid);
    RoomGrows(s.core, s3.core, k, i, j);
    if stopped.Some? { return; }
    var command := NamespaceUnalloc(parent.value.spec.nqn, nsid);
    var (s4, reply) := Call(s3, command);
    if ParentName(req.name) == k {
      VisitKeepsNoHiddenEffects(s2, Detaching, order, parent.value, sid, nsid);
      UnallocatedRoom(s3, nsid, k, i, j);
      WriteSucceeds(s4);
      if reply.Good? { ForgottenRoom(s4, req.name, k, i, j - 1); }
    } else {
      OtherNqn(s.core, k, ParentName(req.name));
      RoomElsewhere(s3, command, k, i, j);
      ForgottenRoom(s4, req.name, k, i, j);
    }
  }

  // ------------------------------------------------------------------ one step

  /** A new subsystem is not created under an NQN the device has, if it refuses that. */
  lemma CreatedElsewhere(c: Core, op: Op, env: Env, n: string)
    requires op.CreateSubsystemOp? && NewKey(op) !in c.store && Ok(Result(c, op, env).1)
    requires n in c.device.units && c.device.contract.refusesDuplicate
    ensures op.csub.spec.nqn != n
  {
    var (s1, found) := GetSubsystem(Begin(c, env), NewKey(op));
    var (s2, objection) := ScanForNqn(s1, op.order, op.csub.spec.nqn);
    var (s3, reply) := Call(s2, CreationCommand(op.csub.spec));
  }

  lemma SoleStep(c: Core, e: Event, k: string)
    requires Shaped(c) && Plausible(e) && Sole(c, k) && Present(c, k) && c.device.contract.refusesDuplicate
    requires StoresSubsystem(Step(c, e), k)
    ensures Sole(Step(c, e), k) && NqnAt(Step(c, e), k) == NqnAt(c, k)
  {
    hide Handle;
    var c' := Step(c, e);
    if e.Restart? {
      assert forall l :: StoresSubsystem(c', l) ==> StoresSubsystem(c, l) && NqnAt(c', l) == NqnAt(c, l);
    } else if e.op.CreateSubsystemOp? {
      CreateEffects(c, e.op, e.env);
      if NewKey(e.op) !in c.store && Ok(Result(c, e.op, e.env).1) {
        CreatedElsewhere(c, e.op, e.env, NqnAt(c, k));
        CreatedSubsystemCarriesItsNqn(c, e.op, e.env);
      }
      assert forall l :: StoresSubsystem(c', l) && l in c.store ==>
          StoresSubsystem(c, l) && NqnAt(c', l) == NqnAt(c, l);
    } else {
      NoNewSubsystem(c, e.op, e.env);
    }
  }

  /** What a delete of a child of the subsystem does is told. */
  predicate TellsOfChildren(e: Event, k: string) {
    e.Serve? && (e.op.DeleteControllerOp? || e.op.DeleteNamespaceOp?) && ParentName(e.op.del.name) == k ==> Told(e.env)
  }

  /** What a delete of the subsystem does is told, or it can do nothing: there is something on the unit. */
  predicate TellsOfItself(c: Core, e: Event, k: string, i: int, j: int) {
    e.Serve? && e.op.DeleteSubsystemOp? && e.op.del.name == k ==>
      Told(e.env) || (c.device.contract.refusesNonEmpty && (i > 0 || j > 0))
  }

  lemma ServedRoom(c: Core, op: Op, env: Env, k: string, i: int, j: int)
    requires Shaped(c) && FreshIdOk(op) && Room(c, k, i, j) && Sole(c, k) && c.device.contract.refusesDuplicate
    requires TellsOfChildren(Serve(op, env), k) && TellsOfItself(c, Serve(op, env), k, i, j)
    ensures var c' := Step(c, Serve(op, env)); StoresSubsystem(c', k) ==> Room(c', k, i, j)
  {
    hide CreateSubsystem, DeleteSubsystem, CreateController, DeleteController, UpdateNvmeController, CreateNamespace,
        DeleteNamespace;
    hide Shaped, Sole, Told, Room;
    var s := Begin(c, env);
    match op
    case CreateSubsystemOp(req, order) => CreateSubsystemRoom(s, req, order, k, i, j);
    case DeleteSubsystemOp(req) => DeleteSubsystemRoom(s, req, k, i, j);
    case CreateControllerOp(req) => CreateControllerRoom(s, req, k, i, j);
    case DeleteControllerOp(req) => DeleteControllerRoom(s, req, k, i, j);
    case UpdateControllerOp(req) => UpdateControllerRoom(s, req, k, i, j);
    case CreateNamespaceOp(req, order) => CreateNamespaceRoom(s, req, order, k, i, j);
    case DeleteNamespaceOp(req, order) => DeleteNamespaceRoom(s, req, order, k, i, j);
    case _ =>
      QueryEffects(c, op, env);
      RoomGrows(c, Step(c, Serve(op, env)), k, i, j);
  }

  /** No step takes from what a unit has more than the store. */
  lemma RoomStep(c: Core, e: Event, k: string, i: int, j: int)
    requires Shaped(c) && Plausible(e) && Room(c, k, i, j) && Sole(c, k) && c.device.contract.refusesDuplicate
    requires TellsOfChildren(e, k) && TellsOfItself(c, e, k, i, j)
    ensures StoresSubsystem(Step(c, e), k) ==> Room(Step(c, e), k, i, j) && Sole(Step(c, e), k)
  {
    hide Handle;
    if StoresSubsystem(Step(c, e), k) { SoleStep(c, e, k); }
    if e.Restart? {
      RoomGrows(c, Step(c, e), k, i, j);
      return;
    }
    ServedRoom(c, e.op, e.env, k, i, j);
  }

  /** A stored subsystem goes only by its own delete, and from a device that refuses to delete what is not empty only
      when its unit is. */
  lemma OnlyItsDelete(c: Core, op: Op, env: Env, k: string)
    requires Shaped(c) && FreshIdOk(op) && StoresSubsystem(c, k)
    ensures StoresSubsystem(Step(c, Serve(op, env)), k)
            || (&& op.DeleteSubsystemOp? && op.del.name == k && Present(c, k)
                && (c.device.contract.refusesNonEmpty ==> Empty(c.device.units[NqnAt(c, k)])))
  {
    if op.DeleteSubsystemOp? {
      SubsystemDeleteTakesEmpty(c, op, env, k);
      return;
    }
    if IsDelete(op) {
      if op.del.name == k { DeletesOnlyItsKind(c, op, env); }
      DeleteEffects(c, op, env);
      return;
    }
    hide Handle;
    ShapeStep(c, Serve(op, env));
    var c' := Step(c, Serve(op, env));
    if IsCreate(op) { CreateEffects(c, op, env); }
    else if op.UpdateControllerOp? { UpdateEffects(c, op, env); }
    else { QueryEffects(c, op, env); }
    assert StoredWell(k, c.store[k]) && StoredWell(k, c'.store[k]);
  }

  lemma SubsystemDeleteTakesEmpty(c: Core, op: Op, env: Env, k: string)
    requires Shaped(c) && op.DeleteSubsystemOp? && StoresSubsystem(c, k)
    ensures StoresSubsystem(Step(c, Serve(op, env)), k)
            || (&& op.del.name == k && Present(c, k)
                && (c.device.contract.refusesNonEmpty ==> Empty(c.device.units[NqnAt(c, k)])))
  {
    DeleteEffects(c, op, env);
    if op.del.name == k {
      var (s1, found) := GetSubsystem(Begin(c, env), k);
      var (s2, reply) := Call(s1, SubsystemDelete(NqnAt(c, k)));
    }
  }

  // ------------------------------------------------------------------ no orphans

  ghost predicate NoOrphans(c: Core) {
    forall k :: StoresController(c, k) || StoresNamespace(c, k) ==> StoresSubsystem(c, ParentName(k))
  }

  /** Every stored subsystem exists on the device, under an NQN of its own, with at least as many controllers and
      namespaces as the store has for it. */
  ghost predicate Accounted(c: Core) {
    SubsystemsBacked(c) && NoOrphans(c) && forall k :: StoresSubsystem(c, k) ==> Room(c, k, 0, 0)
  }

  lemma SoleAmongUnique(c: Core, k: string)
    requires UniqueNqns(c) && StoresSubsystem(c, k)
    ensures Sole(c, k)
  {
  }

  lemma EmptyUnitHasNone(c: Core, k: string)
    requires Room(c, k, 0, 0) && Empty(c.device.units[NqnAt(c, k)])
    ensures forall l :: StoresController(c, l) || StoresNamespace(c, l) ==> ParentName(l) != k
  {
    assert ControllersUnder(c, k) == {} && NamespacesUnder(c, k) == {};
    forall l | StoresController(c, l) || StoresNamespace(c, l) ensures ParentName(l) != k {
      assert l in ControllersUnder(c, k) || l in NamespacesUnder(c, k) || ParentName(l) != k;
    }
  }

  lemma CreatedUnderParent(c: Core, op: Op, env: Env)
    requires Shaped(c) && FreshIdOk(op) && (op.CreateControllerOp? || op.CreateNamespaceOp?)
    requires NewKey(op) !in c.store && Ok(Result(c, op, env).1)
    ensures StoresSubsystem(c, ParentName(NewKey(op)))
  {
    if op.CreateControllerOp? {
      var (s1, found) := GetController(Begin(c, env), NewKey(op));
      var (s2, parent) := GetSubsystem(s1, op.cctrl.parent);
      assert StoresSubsystem(c, op.cctrl.parent);
      ParentOfNewChild(c, op.cctrl.parent, NewKey(op), ChosenId(op.cctrl.userId, op.cctrl.freshId));
    } else {
      var (s1, found) := GetNamespace(Begin(c, env), NewKey(op));
      var (s2, parent) := GetSubsystem(s1, op.cns.parent);
      assert StoresSubsystem(c, op.cns.parent);
      ParentOfNewChild(c, op.cns.parent, NewKey(op), ChosenId(op.cns.userId, op.cns.freshId));
    }
  }

  lemma NoOrphansStep(c: Core, op: Op, env: Env)
    requires Shaped(c) && FreshIdOk(op) && Accounted(c) && c.device.contract.refusesNonEmpty
    ensures NoOrphans(Step(c, Serve(op, env)))
  {
    hide Handle;
    var c' := Step(c, Serve(op, env));
    if IsCreate(op) {
      CreateEffects(c, op, env);
      if NewKey(op) !in c.store && Ok(Result(c, op, env).1) {
        CreatedIsOfItsKind(c, op, env);
        if !op.CreateSubsystemOp? { CreatedUnderParent(c, op, env); }
      }
    }
    else if IsDelete(op) { DeleteEffects(c, op, env); }
    else if op.UpdateControllerOp? { UpdatesOnlyControllers(c, op, env); }
    else { QueryEffects(c, op, env); }
    forall l | StoresController(c', l) || StoresNamespace(c', l) ensures StoresSubsystem(c', ParentName(l)) {
      if l in c.store {
        assert StoresController(c, l) || StoresNamespace(c, l);
        var k := ParentName(l);
        if !StoresSubsystem(c', k) {
          OnlyItsDelete(c, op, env, k);
          EmptyUnitHasNone(c, k);
        }
      }
    }
  }

  lemma UpdatesOnlyControllers(c: Core, op: Op, env: Env)
    requires op.UpdateControllerOp?
    ensures var c' := Step(c, Serve(op, env));
      || c'.store == c.store
      || (StoresController(c, op.upd.name) && StoresController(c', op.upd.name)
          && c'.store == c.store[op.upd.name := c'.store[op.upd.name]])
  {
  }

  /** A subsystem that was not there before has no children. */
  lemma NewSubsystemHasRoom(c: Core, c': Core, k: string)
    requires NoOrphans(c) && k !in c.store && Present(c', k)
    requires c'.store == c.store[k := c'.store[k]]
    ensures Room(c', k, 0, 0)
  {
    forall l | l in c'.store && !c'.store[l].SubsystemObject? ensures ParentName(l) != k {
      assert StoresController(c, l) || StoresNamespace(c, l);
    }
    assert ControllersUnder(c', k) == {} && NamespacesUnder(c', k) == {};
  }

  /** What is assumed of one event: what a delete does is told. */
  ghost predicate Sound(e: Event) {
    Plausible(e) && (e.Serve? && IsDelete(e.op) ==> Told(e.env))
  }

  lemma AccountedStep(c: Core, e: Event)
    requires Shaped(c) && Accounted(c) && Reliable(c.device.contract) && Sound(e)
    ensures Accounted(Step(c, e))
  {
    hide Handle;
    var c' := Step(c, e);
    BackedStep(c, e, NEITHER);
    if e.Serve? { NoOrphansStep(c, e.op, e.env); }
    forall k | StoresSubsystem(c', k) ensures Room(c', k, 0, 0) {
      if StoresSubsystem(c, k) {
        SoleAmongUnique(c, k);
        RoomStep(c, e, k, 0, 0);
      } else {
        NewlyStored(c, e, k);
        NewSubsystemHasRoom(c, c', k);
      }
    }
  }

  lemma NewlyStored(c: Core, e: Event, k: string)
    requires Shaped(c) && Plausible(e) && StoresSubsystem(Step(c, e), k) && !StoresSubsystem(c, k)
    ensures var c' := Step(c, e); k !in c.store && c'.store == c.store[k := c'.store[k]]
  {
    hide Handle;
    if !e.op.CreateSubsystemOp? { NoNewSubsystem(c, e.op, e.env); }
    CreateEffects(c, e.op, e.env);
  }

  /** Every stored controller and namespace has its parent stored, in every run: whichever ids the device picks and
      the records say. */
  lemma {:induction false} StaysAccounted(c: Core, events: seq<Event>)
    requires Shaped(c) && Accounted(c) && Reliable(c.device.contract) && forall e :: e in events ==> Sound(e)
    ensures Accounted(Run(c, events))
    decreases |events|
  {
    if events != [] {
      var e := events[0];
      assert e in events;
      AccountedStep(c, e);
      ShapeStep(c, e);
      ContractStep(c, e);
      StaysAccounted(Step(c, e), events[1..]);
    }
  }

  /** From the start: every stored controller and namespace has its parent subsystem stored, and no two stored
      subsystems share an NQN, with the program's own filter and across restarts. The device is one that refuses to
      delete what is not empty and to take an NQN twice; deletes are told. Any other call, read or write may fail, a
      failed call of a create may have had its effect, and the device may pick what ids it likes. */
  lemma NoOrphansEver(scan: ScanFilter, contract: Contract, events: seq<Event>)
    requires Reliable(contract) && forall e :: e in events ==> Sound(e)
    ensures var c := Run(Initial(scan, contract), events); NoOrphans(c) && UniqueNqns(c) && Accounted(c)
  {
    StaysAccounted(Initial(scan, contract), events);
  }
}
