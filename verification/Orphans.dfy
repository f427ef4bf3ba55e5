/** The containment theorem: every run, with faults injected anywhere, keeps the store backed by the device, each kind
    of child for itself. */
module Orphans {
  import opened Names
  import opened Device
  import opened Bridge
  import opened Handlers
  import opened Runs
  import opened Shape
  import opened Effects
  import opened Backing

  // ------------------------------------------------------------------ single calls

  lemma FailedCallHasNoEffect(s: Session, c: Command)
    requires NoHiddenEffects(s.env)
    ensures var (s', reply) := Call(s, c);
      NoHiddenEffects(s'.env) && (!reply.Good? ==> s'.core == s.core)
  {
    if s.env.net != [] { assert s.env.net[0] in s.env.net; }
  }

  lemma {:induction false} VisitKeepsNoHiddenEffects(
      s: Session, link: Link, order: seq<string>, subsys: Subsystem, subsysId: string, nsid: int)
    requires NoHiddenEffects(s.env)
    ensures NoHiddenEffects(Visit(s, link, order, subsys, subsysId, nsid).0.env)
    decreases |order|
  {
    if order != [] {
      if ControllerPrefixTest(order[0], subsys.name) {
        var (s1, found) := GetController(s, order[0]);
        VisitKeepsNoHiddenEffects(s1, link, order[1..], subsys, subsysId, nsid);
        if found.Found? && found.value.spec.ctrlrId.Some? {
          var command := link.CommandFor(subsys.spec.nqn, found.value.spec.ctrlrId.value, nsid);
          FailedCallHasNoEffect(s1, command);
          VisitKeepsNoHiddenEffects(Call(s1, command).0, link, order[1..], subsys, subsysId, nsid);
        }
      } else {
        VisitKeepsNoHiddenEffects(s, link, order[1..], subsys, subsysId, nsid);
      }
    }
  }

  // ------------------------------------------------------------------ each handler

  lemma CreateSubsystemBacked(s: Session, req: CreateSubsystemRequest, order: seq<string>, w: Kinds)
    requires Backed(s.core, w) && s.core.device.contract.refusesDuplicate
    ensures Backed(CreateSubsystem(s, req, order).0.core, w)
  {
    var name := NewSubsystemName(req);
    var (s1, found) := GetSubsystem(s, name);
    if !AcceptsCreateSubsystem(req) || !found.Missing? { return; }
    var (s2, objection) := ScanForNqn(s1, order, req.spec.nqn);
    if objection.Some? { return; }
    var command := CreationCommand(req.spec);
    var (s3, reply) := Call(s2, command);
    CallGrows(s2, command, w);
    GrowthKeepsBacked(s.core, s3.core, w);
    if !reply.Good? { return; }
    var (s4, version) := Call(s3, GetVersion);
    assert s4.core == s3.core;
    var o := SubsystemObject(Subsystem(name, req.spec, FirstText(version)));
    assert req.spec.nqn !in s.core.device.units && req.spec.nqn in s3.core.device.units;
    assert NewlyBacked(s4.core, name, o) by {
      forall k | StoresSubsystem(s4.core, k) ensures NqnAt(s4.core, k) != req.spec.nqn {
        assert StoresSubsystem(s.core, k);
      }
    }
    SaveKeepsBacked(s4, name, o, w);
  }

  lemma WriteSucceeds(s: Session)
    requires WritesSucceed(s.env)
    ensures WriteWorks(s)
  {
    if s.env.saves != [] { assert s.env.saves[0] in s.env.saves; }
  }

  lemma DeleteSubsystemBacked(s: Session, req: DeleteRequest, w: Kinds)
    requires Shaped(s.core) && Backed(s.core, w) && (w.Any() ==> s.core.device.contract.refusesNonEmpty)
    requires WritesSucceed(s.env) && NoHiddenEffects(s.env)
    ensures Backed(DeleteSubsystem(s, req).0.core, w)
  {
    var (s1, found) := GetSubsystem(s, req.name);
    if !req.accepted || !found.Found? { return; }
    assert StoredWell(req.name, s.core.store[req.name]);
    var command := SubsystemDelete(found.value.spec.nqn);
    FailedCallHasNoEffect(s1, command);
    var (s2, reply) := Call(s1, command);
    if !reply.Good? { return; }
    WriteSucceeds(s2);
    if w.Any() { EmptyHasNoChildren(s.core, req.name, w); }
    ErasedSubsystemStaysBacked(s.core, Forget(s2, req.name).0.core, req.name, w);
  }

  lemma ParentOfNewChild(c: Core, parent: string, name: string, id: string)
    requires Shaped(c) && StoresSubsystem(c, parent) && ValidId(id)
    requires name == ControllerName(SubsystemIdOf(parent), id) || name == NamespaceName(SubsystemIdOf(parent), id)
    ensures ParentName(name) == parent && name != parent
  {
    assert StoredWell(parent, c.store[parent]);
    NameIsRebuilt(parent);
    ControllerNameParses(SubsystemIdOf(parent), id);
    NamespaceNameParses(SubsystemIdOf(parent), id);
  }

  lemma CreateControllerBacked(s: Session, req: CreateControllerRequest, w: Kinds)
    requires Shaped(s.core) && Backed(s.core, w) && s.core.device.contract.refusesDuplicate && ValidId(req.freshId)
    ensures Backed(CreateController(s, req).0.core, w)
  {
    var name := NewControllerName(req);
    var (s1, found) := GetController(s, name);
    if !AcceptsCreateController(req) || !found.Missing? { return; }
    var (s2, parent) := GetSubsystem(s1, req.parent);
    if !parent.Found? { return; }
    var command := ControllerCreate(parent.value.spec.nqn, ParamsOf(req.spec));
    CallGrows(s2, command, w);
    var (s3, reply) := Call(s2, command);
    GrowthKeepsBacked(s.core, s3.core, w);
    if !reply.Good? { return; }
    ParentOfNewChild(s.core, req.parent, name, ChosenId(req.userId, req.freshId));
    CallKeepsShape(s2, command);
    IdSurvivesInt32(reply.id);
    var o := ControllerObject(Controller(name, req.spec.(ctrlrId := Some(Int32(reply.id))), true));
    if w.controllers {
      assert NewlyBacked(s3.core, name, o) by {
        forall k | StoresController(s3.core, k) && Siblings(k, name) ensures IdAt(s3.core, k) != reply.id {
          assert StoresController(s.core, k) && ParentName(k) == req.parent;
        }
      }
    }
    SaveKeepsBacked(s3, name, o, w);
  }

  /** What becomes of the answer and of the erasure matters to the kind deleted, and not to the other. */
  lemma DeleteControllerBacked(s: Session, req: DeleteRequest, w: Kinds)
    requires Shaped(s.core) && Backed(s.core, w) && s.core.device.contract.refusesDuplicate
    requires w.controllers ==> WritesSucceed(s.env) && NoHiddenEffects(s.env)
    ensures Backed(DeleteController(s, req).0.core, w)
  {
    var (s1, found) := GetController(s, req.name);
    if !req.accepted || !found.Found? { return; }
    assert StoresController(s.core, req.name) && StoredWell(req.name, s.core.store[req.name]);
    var (s2, parent) := GetSubsystem(s1, ParentName(req.name));
    if !parent.Found? { return; }
    var command := ControllerRemove(parent.value.spec.nqn, found.value.spec.ctrlrId.value, 1);
    var (s3, reply) := Call(s2, command);
    if !w.controllers {
      CallGrows(s2, command, w);
      GrowthKeepsBacked(s.core, s3.core, w);
      if reply.Good? { ForgottenOtherKind(s3, req.name, w); }
      return;
    }
    FailedCallHasNoEffect(s2, command);
    if !reply.Good? { return; }
    WriteSucceeds(s3);
    ErasedChildStaysBacked(s.core, Forget(s3, req.name).0.core, req.name, w);
  }

  lemma ForgottenOtherKind(s: Session, name: string, w: Kinds)
    requires Backed(s.core, w) && name in s.core.store
    requires !s.core.store[name].SubsystemObject? && !w.Include(s.core.store[name])
    ensures Backed(Forget(s, name).0.core, w)
  {
    GrowthKeepsBacked(s.core, Forget(s, name).0.core, w);
  }

  /** If the device answers an update of a stored controller, the id it answers is one it has and no stored
      sibling's. On a device that echoes the id it was sent only the siblings matter: it refuses an id it does not
      have. */
  ghost predicate UpdateFits(c: Core, req: UpdateControllerRequest, env: Env) {
    env.net != [] && env.net[0].Done? && StoresController(c, req.name) && HasParent(c, req.name) ==>
      var id := AnsweredId(c.device, ControllerUpdate([], ParamsOf(req.spec)), env.net[0].id);
      && (c.device.contract.echoesUpdate || id in ParentUnit(c, req.name).controllers)
      && forall k :: StoresController(c, k) && Siblings(k, req.name) && k != req.name ==> IdAt(c, k) != id
  }

  lemma UpdateControllerBacked(s: Session, req: UpdateControllerRequest, w: Kinds)
    requires Shaped(s.core) && Backed(s.core, w) && (w.controllers ==> UpdateFits(s.core, req, s.env))
    ensures Backed(UpdateNvmeController(s, req).0.core, w)
  {
    hide ControllersBacked, NamespacesBacked, UniqueNqns;
    var (s1, found) := GetController(s, req.name);
    if !req.accepted || !AcceptsControllerSpec(req.spec) || !found.Found? || !req.maskAccepted { return; }
    assert StoresController(s.core, req.name) && StoredWell(req.name, s.core.store[req.name]);
    var (s2, parent) := GetSubsystem(s1, ParentName(req.name));
    if !parent.Found? { return; }
    var (s3, reply) := Call(s2, ControllerUpdate(parent.value.spec.nqn, ParamsOf(req.spec)));
    CallKeepsShape(s2, ControllerUpdate(parent.value.spec.nqn, ParamsOf(req.spec)));
    assert s3.core == s.core;
    if !reply.Good? { return; }
    IdSurvivesInt32(reply.id);
    RecordStaysBacked(s3, req.name, ControllerObject(Controller(req.name, req.spec.(ctrlrId := Some(Int32(reply.id))),
      true)), w);
  }

  lemma RecordStaysBacked(s: Session, name: string, o: Object, w: Kinds)
    requires Shaped(s.core) && Backed(s.core, w) && StoresController(s.core, name)
    requires o.ControllerObject? && o.controller.spec.ctrlrId.Some?
    requires w.controllers ==> NewlyBacked(s.core, name, o)
    ensures Backed(Put(s, name, o).0.core, w)
  {
    assert StoredWell(name, s.core.store[name]);
    ParentNameParses(name);
    NewlyBackedStaysBacked(s.core, name, o, w);
    if WriteWorks(s) {
      GrowthKeepsBacked(s.core.(store := s.core.store[name := o]), Put(s, name, o).0.core, w);
    } else {
      GrowthKeepsBacked(s.core, Put(s, name, o).0.core, w);
    }
  }

  /** If the device allocates a namespace, it does so under the HostNsid of the request. */
  predicate AllocHonoursNsid(req: CreateNamespaceRequest, env: Env) {
    |env.net| > 0 && env.net[0].Done? ==> env.net[0].id == req.spec.hostNsid
  }

  /** A namespace id that is new to the device's unit is no stored sibling's. */
  lemma NewNamespaceFits(c: Core, c': Core, parent: string, name: string, nsid: int)
    requires Shaped(c) && SubsystemsBacked(c) && NamespacesBacked(c) && c'.store == c.store
    requires StoresSubsystem(c, parent) && ParentName(name) == parent
    requires NqnAt(c, parent) in c.device.units && nsid !in c.device.units[NqnAt(c, parent)].namespaces
    requires NqnAt(c, parent) in c'.device.units && nsid in c'.device.units[NqnAt(c, parent)].namespaces
    ensures forall o: Object :: o.NamespaceObject? && o.namespace.spec.hostNsid == nsid ==> NewlyBacked(c', name, o)
  {
    forall k | StoresNamespace(c', k) && Siblings(k, name) ensures NsidAt(c', k) != nsid {
      assert StoresNamespace(c, k) && ParentName(k) == parent;
    }
  }

  /** Once it is allocated: attached as far as it goes, and recorded. */
  lemma AllocatedBacked(
      c: Core, s: Session, req: CreateNamespaceRequest, order: seq<string>, subsys: Subsystem, w: Kinds)
    requires Shaped(c) && Backed(c, w) && c.device.contract.refusesDuplicate
    requires s.core.store == c.store && Grows(c.device, s.core.device)
    requires StoresSubsystem(c, req.parent) && ParentName(NewNamespaceName(req)) == req.parent
    requires NewNamespaceName(req) !in c.store && NewNamespaceName(req) != req.parent
    requires w.namespaces ==> var n, nsid := NqnAt(c, req.parent), req.spec.hostNsid;
      n in c.device.units && nsid !in c.device.units[n].namespaces &&
      n in s.core.device.units && nsid in s.core.device.units[n].namespaces
    ensures var name := NewNamespaceName(req);
      var (s', stopped) := Visit(s, Attaching, order, subsys, SubsystemIdOf(req.parent), req.spec.hostNsid);
      && Backed(s'.core, w)
      && Backed(SaveNew(s', name, NamespaceObject(Namespace(name, req.spec, true))).0.core, w)
  {
    hide ControllersBacked, NamespacesBacked, UniqueNqns, Shaped;
    var name, nsid, sid := NewNamespaceName(req), req.spec.hostNsid, SubsystemIdOf(req.parent);
    var (s', stopped) := Visit(s, Attaching, order, subsys, sid, nsid);
    VisitGrows(s, Attaching, order, subsys, sid, nsid);
    GrowthKeepsBacked(c, s'.core, w);
    if w.namespaces { NewNamespaceFits(c, s'.core, req.parent, name, nsid); }
    SaveKeepsBacked(s', name, NamespaceObject(Namespace(name, req.spec, true)), w);
  }

  lemma CreateNamespaceBacked(s: Session, req: CreateNamespaceRequest, order: seq<string>, w: Kinds)
    requires Shaped(s.core) && Backed(s.core, w) && s.core.device.contract.refusesDuplicate && ValidId(req.freshId)
    requires w.namespaces ==> AllocHonoursNsid(req, s.env)
    ensures Backed(CreateNamespace(s, req, order).0.core, w)
  {
    hide ControllersBacked, NamespacesBacked, UniqueNqns, Shaped;
    var name := NewNamespaceName(req);
    var (s1, found) := GetNamespace(s, name);
    if !AcceptsCreateNamespace(req) || !found.Missing? { return; }
    var (s2, parent) := GetSubsystem(s1, req.parent);
    if !parent.Found? { return; }
    var command := AllocCommand(parent.value.spec.nqn, req.spec);
    CallGrows(s2, command);
    var (s3, reply) := Call(s2, command);
    GrowthKeepsBacked(s.core, s3.core, w);
    if !reply.Good? { return; }
    ParentOfNewChild(s.core, req.parent, name, ChosenId(req.userId, req.freshId));
    AllocatedBacked(s.core, s3, req, order, parent.value, w);
  }

  lemma DeleteNamespaceBacked(s: Session, req: DeleteRequest, order: seq<string>, w: Kinds)
    requires Shaped(s.core) && Backed(s.core, w) && s.core.device.contract.refusesDuplicate
    requires w.namespaces ==> WritesSucceed(s.env) && NoHiddenEffects(s.env)
    ensures Backed(DeleteNamespace(s, req, order).0.core, w)
  {
    var (s1, found) := GetNamespace(s, req.name);
    if !req.accepted || !found.Found? { return; }
    var (s2, parent) := GetSubsystem(s1, ParentName(req.name));
    if !parent.Found? { return; }
    var nsid, sid := found.value.spec.hostNsid, SubsystemIdOf(req.name);
    var (s3, stopped) := Visit(s2, Detaching, order, parent.value, sid, nsid);
    VisitGrows(s2, Detaching, order, parent.value, sid, nsid);
    GrowthKeepsBacked(s.core, s3.core, w);
    if stopped.Some? { return; }
    VisitKeepsShape(s2, Detaching, order, parent.value, sid, nsid);
    if w.namespaces { VisitKeepsNoHiddenEffects(s2, Detaching, order, parent.value, sid, nsid); }
    UnallocBacked(s3, req.name, w);
    assert StoredWell(req.name, s.core.store[req.name]);
  }

  lemma UnallocBacked(s: Session, name: string, w: Kinds)
    requires Shaped(s.core) && Backed(s.core, w) && StoresNamespace(s.core, name)
    requires StoresSubsystem(s.core, ParentName(name)) && s.core.device.contract.refusesDuplicate
    requires w.namespaces ==> WritesSucceed(s.env) && NoHiddenEffects(s.env)
    ensures var (s', reply) := Call(s, NamespaceUnalloc(NqnAt(s.core, ParentName(name)), NsidAt(s.core, name)));
      Backed(if reply.Good? then Forget(s', name).0.core else s'.core, w)
  {
    var command := NamespaceUnalloc(NqnAt(s.core, ParentName(name)), NsidAt(s.core, name));
    var (s', reply) := Call(s, command);
    if !w.namespaces {
      CallGrows(s, command, w);
      GrowthKeepsBacked(s.core, s'.core, w);
      if reply.Good? { ForgottenOtherKind(s', name, w); }
      return;
    }
    FailedCallHasNoEffect(s, command);
    if !reply.Good? { return; }
    WriteSucceeds(s');
    assert HasParent(s.core, name);
    ErasedChildStaysBacked(s.core, Forget(s', name).0.core, name, w);
  }

  // ------------------------------------------------------------------ every run

  /** What a device has to be for the theorem: one that refuses an NQN in use and, where children are concerned, the
      deletion of what is not empty. */
  predicate Reliable(k: Contract, w: Kinds := BOTH) {
    k.refusesDuplicate && (w.Any() ==> k.refusesNonEmpty)
  }

  /** The store is told what the device has done: its writes work, and a call that fails had no effect. */
  predicate Told(env: Env) {
    WritesSucceed(env) && NoHiddenEffects(env)
  }

  /** What is assumed of one event in state `c`: deletes of subsystems and of the children in question are told; where
      namespaces are, the device allocates under HostNsid; where controllers are, an update does not give one the id
      of another. Nothing else: any call, read or other write may fail, calls of creates may take effect although
      they fail, the bridge may restart. */
  ghost predicate Trusted(c: Core, e: Event, w: Kinds := BOTH) {
    Plausible(e) && (e.Serve? ==>
      && (e.op.DeleteSubsystemOp? ==> Told(e.env))
      && (w.controllers ==>
            && (e.op.DeleteControllerOp? ==> Told(e.env))
            && (e.op.UpdateControllerOp? ==> UpdateFits(c, e.op.upd, e.env)))
      && (w.namespaces ==>
            && (e.op.DeleteNamespaceOp? ==> Told(e.env))
            && (e.op.CreateNamespaceOp? ==> AllocHonoursNsid(e.op.cns, e.env))))
  }

  ghost predicate AllTrusted(c: Core, events: seq<Event>, w: Kinds := BOTH)
    decreases |events|
  {
    events == [] || (Trusted(c, events[0], w) && AllTrusted(Step(c, events[0]), events[1..], w))
  }

  lemma BackedStep(c: Core, e: Event, w: Kinds := BOTH)
    requires Shaped(c) && Backed(c, w) && Reliable(c.device.contract, w) && Trusted(c, e, w)
    ensures Backed(Step(c, e), w)
  {
    hide CreateSubsystem, DeleteSubsystem, GetNvmeSubsystem, CreateController, DeleteController, UpdateNvmeController,
        GetNvmeController;
    hide CreateNamespace, DeleteNamespace, GetNvmeNamespace, ListSubsystemsPage, ListChildrenPage;
    match e
    case Restart => GrowthKeepsBacked(c, Step(c, e), w);
    case Serve(op, env) =>
      var s := Begin(c, env);
      match op
      case CreateSubsystemOp(req, order) => CreateSubsystemBacked(s, req, order, w);
      case DeleteSubsystemOp(req) => DeleteSubsystemBacked(s, req, w);
      case CreateControllerOp(req) => CreateControllerBacked(s, req, w);
      case DeleteControllerOp(req) => DeleteControllerBacked(s, req, w);
      case UpdateControllerOp(req) => UpdateControllerBacked(s, req, w);
      case CreateNamespaceOp(req, order) => CreateNamespaceBacked(s, req, order, w);
      case DeleteNamespaceOp(req, order) => DeleteNamespaceBacked(s, req, order, w);
      case _ =>
        QueryFine(s, op);
        GrowthKeepsBacked(c, Step(c, e), w);
  }

  lemma ContractStep(c: Core, e: Event)
    requires Shaped(c)
    ensures Step(c, e).device.contract == c.device.contract
  {
    if e.Serve? {
      if IsCreate(e.op) { CreateEffects(c, e.op, e.env); }
      else if IsDelete(e.op) { DeleteEffects(c, e.op, e.env); }
      else if e.op.UpdateControllerOp? { UpdateEffects(c, e.op, e.env); }
      else { QueryEffects(c, e.op, e.env); }
    }
  }

  /** In every run, every stored subsystem exists on the device under its NQN, and every stored child of the given
      kinds exists there under its parent's. Each kind stands on its own: what the other's need not hold. */
  lemma {:induction false} StoreWithinDevice(c: Core, events: seq<Event>, w: Kinds := BOTH)
    requires Shaped(c) && Backed(c, w) && Reliable(c.device.contract, w) && AllTrusted(c, events, w)
    ensures Backed(Run(c, events), w)
    decreases |events|
  {
    if events != [] {
      var e := events[0];
      BackedStep(c, e, w);
      ShapeStep(c, e);
      ContractStep(c, e);
      StoreWithinDevice(Step(c, e), events[1..], w);
    }
  }
}
