/** What the containment theorems cannot do without: for each assumption, exactly when a step breaks them. */
module Limits {
  import opened Names
  import opened Device
  import opened Bridge
  import opened Handlers
  import opened Runs
  import opened Shape
  import opened Effects
  import opened Backing
  import opened Orphans
  import opened Counts
  import opened Scan
  import opened Sweep
  import opened Namespaces
  import opened Convergence
  import opened Agreement

  const ONE_YES := Env([Done(0, [], [])], [], [])

  predicate HasChild(c: Core, name: string) {
    exists k :: k in c.store && (StoresController(c, k) || StoresNamespace(c, k)) && ParentName(k) == name
  }

  // ------------------------------------------------------------------ deletes that half succeed

  /** The controller is gone from its unit. */
  predicate Removed(c: Core, c': Core, name: string)
    requires StoresController(c, name) && HasParent(c, name)
  {
    var n, u, d' := NqnAt(c, ParentName(name)), ParentUnit(c, name), c'.device;
    && n in d'.units && d'.units == c.device.units[n := d'.units[n]]
    && d'.units[n].controllers == u.controllers - {IdAt(c, name)} && d'.units[n].namespaces == u.namespaces
  }

  lemma RemoveTaken(s: Session, name: string)
    requires ControllersBacked(s.core) && StoresController(s.core, name)
    ensures HasParent(s.core, name)
    ensures var (s', reply) := Call(s, ControllerRemove(NqnAt(s.core, ParentName(name)), IdAt(s.core, name), 1));
      && (reply.Good? <==> s.env.net != [] && s.env.net[0].Done?)
      && s'.env.saves == s.env.saves
      && (!TakesEffect(s.env.net) ==> s'.core == s.core)
      && (TakesEffect(s.env.net) ==> Removed(s.core, s'.core, name))
  {
    assert HasParent(s.core, name);
  }

  /** A delete of a stored controller keeps the store backed exactly unless the device removes the controller and the
      store is not told: the answer is lost, or the erase fails. */
  lemma ControllerDeleteBackedExactly(c: Core, op: Op, env: Env, w: Kinds := BOTH)
    requires Shaped(c) && Backed(c, w) && w.controllers && op.DeleteControllerOp? && StoresController(c, op.del.name)
    ensures Backed(Step(c, Serve(op, env)), w) <==>
      !(op.del.accepted && LookupsWork(env) && TakesEffect(env.net) && !(env.net[0].Done? && SavesWork(env)))
  {
    var name, s := op.del.name, Begin(c, env);
    assert StoredWell(name, c.store[name]) && HasParent(c, name);
    var (s1, found) := GetController(s, name);
    var (s2, parent) := GetSubsystem(s1, ParentName(name));
    if !op.del.accepted || !found.Found? || !parent.Found? { return; }
    RemoveTaken(s2, name);
    if !TakesEffect(env.net) { return; }
    RemovedBackedOnlyIfErased(c, Step(c, Serve(op, env)), name, w);
  }

  lemma RemovedBackedOnlyIfErased(c: Core, c': Core, name: string, w: Kinds)
    requires Shaped(c) && Backed(c, w) && w.controllers && StoresController(c, name)
    requires HasParent(c, name) && Removed(c, c', name)
    requires c'.store == c.store || c'.store == c.store - {name}
    ensures Backed(c', w) <==> c'.store == c.store - {name}
  {
    if c'.store == c.store - {name} {
      ErasedChildStaysBacked(c, c', name, w);
    } else {
      assert StoresController(c', name) && HasParent(c', name) && IdAt(c', name) !in ParentUnit(c', name).controllers;
    }
  }

  lemma SubsystemDeleteTaken(s: Session, nqn: string)
    requires nqn in s.core.device.units
    ensures var (s', reply) := Call(s, SubsystemDelete(nqn));
      var willing := !s.core.device.contract.refusesNonEmpty || Empty(s.core.device.units[nqn]);
      && (reply.Good? <==> s.env.net != [] && s.env.net[0].Done? && willing)
      && s'.env.saves == s.env.saves
      && s'.core.device.contract == s.core.device.contract && s'.core == s.core.(device := s'.core.device)
      && s'.core.device.units ==
           (if TakesEffect(s.env.net) && willing then s.core.device.units - {nqn} else s.core.device.units)
  {
  }

  /** A delete of a stored subsystem keeps the store backed exactly unless the device deletes the unit and either the
      store is not told or there are stored children. */
  lemma SubsystemDeleteBackedExactly(c: Core, op: Op, env: Env)
    requires Shaped(c) && Backed(c) && op.DeleteSubsystemOp? && StoresSubsystem(c, op.del.name)
    ensures Backed(Step(c, Serve(op, env))) <==>
      !(&& op.del.accepted && (env.loads == [] || env.loads[0]) && TakesEffect(env.net)
        && (!c.device.contract.refusesNonEmpty || Empty(c.device.units[NqnAt(c, op.del.name)]))
        && !(env.net[0].Done? && SavesWork(env) && !HasChild(c, op.del.name)))
  {
    var name := op.del.name;
    assert StoredWell(name, c.store[name]);
    var (s1, found) := GetSubsystem(Begin(c, env), name);
    if !op.del.accepted || !found.Found? { return; }
    SubsystemDeleteTaken(s1, NqnAt(c, name));
    var (s2, reply) := Call(s1, SubsystemDelete(NqnAt(c, name)));
    if s2.core == c { return; }
    UnitGone(c, Step(c, Serve(op, env)), name);
  }

  lemma UnitGone(c: Core, c': Core, name: string)
    requires Backed(c) && StoresSubsystem(c, name) && c'.device.units == c.device.units - {NqnAt(c, name)}
    requires c'.store == c.store || c'.store == c.store - {name}
    ensures Backed(c') <==> c'.store == c.store - {name} && !HasChild(c, name)
  {
    if c'.store == c.store {
      assert StoresSubsystem(c', name);
    } else if HasChild(c, name) {
      ChildLosesParent(c, c', name);
    } else {
      ErasedSubsystemStaysBacked(c, c', name);
    }
  }

  lemma ChildLosesParent(c: Core, c': Core, name: string)
    requires HasChild(c, name) && StoresSubsystem(c, name) && c'.store == c.store - {name}
    ensures !Backed(c') && !NoOrphans(c')
  {
    var k :| k in c.store && (StoresController(c, k) || StoresNamespace(c, k)) && ParentName(k) == name;
    assert (StoresController(c', k) || StoresNamespace(c', k)) && !StoresSubsystem(c', name);
  }

  /** The unallocation of a delete runs on the device. */
  predicate UnallocRuns(c: Core, name: string, env: Env, keys: seq<string>)
    requires StoresNamespace(c, name) && HasParent(c, name)
  {
    && LookupsWork(env) && Undisturbed(env.(loads := Drop(env.loads, 2)), |keys|)
    && Welcoming(c, Detaching, ParentName(name), ParentUnit(c, name).namespaces, NsidAt(c, name))
    && TakesEffect(Drop(env.net, |keys|)) && LetsGo(c, name)
  }

  /** A delete of a stored namespace keeps the store backed exactly unless the unallocation runs and the store is not
      told: its answer is lost, or the erase fails. What happens to the attachments does not matter. */
  lemma NamespaceDeleteBackedExactly(c: Core, op: Op, env: Env)
    requires Shaped(c) && Backed(c) && op.DeleteNamespaceOp? && OrderOk(c, op) && StoresNamespace(c, op.del.name)
    ensures HasParent(c, op.del.name)
    ensures var keys := Targets(op.order, ParentName(op.del.name));
      Backed(Step(c, Serve(op, env))) <==>
        !(op.del.accepted && UnallocRuns(c, op.del.name, env, keys) && !(env.net[|keys|].Done? && SavesWork(env)))
  {
    hide Handle;
    var name := op.del.name;
    assert HasParent(c, name);
    if !op.del.accepted || !LookupsWork(env) {
      DeleteTurnedAway(c, op, env);
      return;
    }
    var c', keys := Step(c, Serve(op, env)), Targets(op.order, ParentName(name));
    var n := FailedDeleteLeavesExactly(c, op, env);
    DetachesGoWellExactly(c, name, op.order, env);
    if n < |keys| || !TakesEffect(Drop(env.net, |keys|)) || !LetsGo(c, name) {
      GrowthKeepsBacked(c, c');
      return;
    }
    DeletedBackedOnlyIfErased(c, c', name);
  }

  lemma DeletedBackedOnlyIfErased(c: Core, c': Core, name: string)
    requires Shaped(c) && Backed(c) && StoresNamespace(c, name)
    requires HasParent(c, name) && c'.device == Deleted(c, name).device
    requires c'.store == c.store || c'.store == c.store - {name}
    ensures Backed(c') <==> c'.store == c.store - {name}
  {
    if c'.store == c.store - {name} {
      ErasedChildStaysBacked(c, c', name);
    } else {
      assert StoresNamespace(c', name) && HasParent(c', name) && NsidAt(c', name) !in ParentUnit(c', name).namespaces;
    }
  }

  /** So a removal that takes effect although its answer is lost leaves a stored controller the device no longer has. */
  lemma HiddenRemovalUnbacks(c: Core, name: string)
    requires Shaped(c) && Backed(c) && StoresController(c, name)
    ensures var e := Serve(DeleteControllerOp(DeleteRequest(true, name, false)), Env([Lost(true, 0)], [], []));
      !Backed(Step(c, e)) && Step(c, e).store == c.store
  {
    var op, env := DeleteControllerOp(DeleteRequest(true, name, false)), Env([Lost(true, 0)], [], []);
    ControllerDeleteBackedExactly(c, op, env);
    DeleteEffects(c, op, env);
    assert !Ok(Result(c, op, env).1);
  }

  // ------------------------------------------------------------------ deleting a subsystem that has children

  /** A delete of a stored subsystem in which nothing fails leaves orphans exactly when the device goes along and
      there is a stored child. */
  lemma ForcedDeleteOrphansExactly(c: Core, name: string)
    requires Shaped(c) && NoOrphans(c) && StoresSubsystem(c, name) && NqnAt(c, name) in c.device.units
    ensures var c' := Step(c, Serve(DeleteSubsystemOp(DeleteRequest(true, name, false)), ONE_YES));
      NoOrphans(c') <==>
        (c.device.contract.refusesNonEmpty && !Empty(c.device.units[NqnAt(c, name)])) || !HasChild(c, name)
  {
    assert StoredWell(name, c.store[name]);
    var s := Begin(c, ONE_YES);
    assert GetSubsystem(s, name) == (s, Found(c.store[name].subsystem));
    SubsystemDeleteTaken(s, NqnAt(c, name));
    var c' := Step(c, Serve(DeleteSubsystemOp(DeleteRequest(true, name, false)), ONE_YES));
    if c.device.contract.refusesNonEmpty && !Empty(c.device.units[NqnAt(c, name)]) {
      assert c' == c;
      return;
    }
    assert c'.store == c.store - {name};
    if HasChild(c, name) {
      ChildLosesParent(c, c', name);
      return;
    }
    forall k | StoresController(c', k) || StoresNamespace(c', k) ensures StoresSubsystem(c', ParentName(k)) {
      assert StoresController(c, k) || StoresNamespace(c, k);
      assert StoresSubsystem(c, ParentName(k));
    }
  }

  /** What a create of a second subsystem under an NQN in use does, when nothing fails and the scan sees nothing. */
  lemma DuplicateCreated(c: Core, op: Op)
    requires Shaped(c) && c.scan == LITERAL_FILTER && op.CreateSubsystemOp?
    requires OrderOk(c, op) && Accepts(op) && NewKey(op) !in c.store
    requires op.csub.spec.nqn in c.device.units
    ensures var c1 := Step(c, Serve(op, WILLING)); var n := op.csub.spec.nqn; var k := c.device.contract;
      && c1.device.contract == k && n in c1.device.units
      && (k.refusesDuplicate ==> c1 == c)
      && (!k.refusesDuplicate ==> NewKey(op) in c1.store && c1.store == c.store[NewKey(op) := c1.store[NewKey(op)]]
                                  && c1.store[NewKey(op)].SubsystemObject?)
      && (!k.refusesDuplicate && !k.resetsDuplicate ==> c1.device == c.device)
      && (!k.refusesDuplicate && k.resetsDuplicate ==> Empty(c1.device.units[n]))
  {
    var req, s := op.csub, Begin(c, WILLING);
    assert GetSubsystem(s, NewKey(op)) == (s, Missing);
    LiteralScanSeesNothing(s, op.order, req.spec.nqn);
    var (s3, reply) := Call(s, CreationCommand(req.spec));
    if !reply.Good? { return; }
    var (s4, version) := Call(s3, GetVersion);
    assert s4.core == s3.core && version.Good? && WriteWorks(s4);
  }

  /** Creating a second subsystem under an NQN in use, then deleting the first, leaves the first one's children
      orphans exactly when it has any and the device lets it come to that: it deletes what is not empty, or it takes
      the NQN twice and starts its unit anew. */
  lemma DuplicateNqnOrphansExactly(c: Core, op: Op, name: string)
    requires Shaped(c) && Accounted(c) && FreshIdOk(op) && c.scan == LITERAL_FILTER
    requires op.CreateSubsystemOp? && OrderOk(c, op) && Accepts(op) && NewKey(op) !in c.store
    requires StoresSubsystem(c, name) && NqnAt(c, name) == op.csub.spec.nqn
    ensures var k := c.device.contract;
      NoOrphans(Run(c, [Serve(op, WILLING), Serve(DeleteSubsystemOp(DeleteRequest(true, name, false)), ONE_YES)])) <==>
        !HasChild(c, name) || (k.refusesNonEmpty && (k.refusesDuplicate || !k.resetsDuplicate))
  {
    var e, d := Serve(op, WILLING), Serve(DeleteSubsystemOp(DeleteRequest(true, name, false)), ONE_YES);
    var c1 := Step(c, e);
    hide NoOrphans, HasChild;
    DuplicateCreated(c, op);
    ShapeStep(c, e);
    SameChildren(c, c1, NewKey(op), name);
    ChildMakesNonEmpty(c, name);
    ForcedDeleteOrphansExactly(c1, name);
    TwoSteps(c, e, d);
  }

  lemma TwoSteps(c: Core, e: Event, d: Event)
    ensures Run(c, [e, d]) == Step(Step(c, e), d)
  {
    hide Step;
    assert [e, d][1..] == [d] && [d][1..] == [];
    assert Run(c, [e, d]) == Run(Step(c, e), [d]) == Run(Step(Step(c, e), d), []);
  }

  /** A new subsystem changes no other's children. */
  lemma SameChildren(c: Core, c1: Core, key: string, name: string)
    requires NoOrphans(c) && StoresSubsystem(c, name)
    requires || c1.store == c.store
             || (key !in c.store && StoresSubsystem(c1, key) && c1.store == c.store[key := c1.store[key]])
    ensures StoresSubsystem(c1, name) && NqnAt(c1, name) == NqnAt(c, name)
    ensures NoOrphans(c1) && (HasChild(c1, name) <==> HasChild(c, name))
  {
    assert forall k :: StoresController(c1, k) <==> StoresController(c, k);
    assert forall k :: StoresNamespace(c1, k) <==> StoresNamespace(c, k);
    assert forall k :: StoresSubsystem(c, k) ==> StoresSubsystem(c1, k) && NqnAt(c1, k) == NqnAt(c, k);
    assert forall k :: k in c1.store && !StoresSubsystem(c1, k) ==> k in c.store;
  }

  lemma ChildMakesNonEmpty(c: Core, name: string)
    requires Accounted(c) && StoresSubsystem(c, name)
    ensures HasChild(c, name) ==> !Empty(c.device.units[NqnAt(c, name)])
  {
    if HasChild(c, name) && Empty(c.device.units[NqnAt(c, name)]) { EmptyUnitHasNone(c, name); }
  }

  // ------------------------------------------------------------------ updates and allocations, exactly

  /** The update is accepted, heard and recorded: the device has the sent id where it answers that, or picks one in its
      range. */
  predicate UpdateRecorded(c: Core, req: UpdateControllerRequest, env: Env)
    requires HasParent(c, req.name)
  {
    && req.accepted && AcceptsControllerSpec(req.spec) && req.maskAccepted && LookupsWork(env)
    && env.net != [] && env.net[0].Done? && SavesWork(env)
    && if c.device.contract.echoesUpdate then ParamsOf(req.spec).ctrlrId in ParentUnit(c, req.name).controllers
       else InRange(env.net[0].id)
  }

  /** The sent id where the device answers that, otherwise the one it picks. */
  function IdAfter(c: Core, req: UpdateControllerRequest, env: Env): int {
    var sent := ParamsOf(req.spec).ctrlrId;
    if c.device.contract.echoesUpdate || env.net == [] || env.net[0].Declined? then sent else env.net[0].id
  }

  function Renewed(c: Core, req: UpdateControllerRequest, env: Env): Object {
    ControllerObject(Controller(req.name, req.spec.(ctrlrId := Some(IdAfter(c, req, env))), true))
  }

  lemma UpdateTurnedAway(c: Core, op: Op, env: Env)
    requires op.UpdateControllerOp? && StoresController(c, op.upd.name) && HasParent(c, op.upd.name)
    requires var req := op.upd;
      !(req.accepted && AcceptsControllerSpec(req.spec) && req.maskAccepted && LookupsWork(env))
    ensures Step(c, Serve(op, env)) == c
  {
    var (s1, found) := GetController(Begin(c, env), op.upd.name);
    var (s2, parent) := GetSubsystem(s1, ParentName(op.upd.name));
  }

  lemma UpdateIsOneCall(c: Core, op: Op, env: Env)
    requires op.UpdateControllerOp? && StoresController(c, op.upd.name) && HasParent(c, op.upd.name)
    requires op.upd.accepted && AcceptsControllerSpec(op.upd.spec) && op.upd.maskAccepted && LookupsWork(env)
    ensures var req := op.upd;
      var command := ControllerUpdate(NqnAt(c, ParentName(req.name)), ParamsOf(req.spec));
      var (s, reply) := Call(AfterLookups(c, env), command);
      Step(c, Serve(op, env)) ==
        if !reply.Good? then s.core
        else
          var record := Controller(req.name, req.spec.(ctrlrId := Some(Int32(reply.id))), true);
          Put(s, req.name, ControllerObject(record)).0.core
  {
    var (s1, found) := GetController(Begin(c, env), op.upd.name);
    var (s2, parent) := GetSubsystem(s1, ParentName(op.upd.name));
    assert s2 == AfterLookups(c, env);
  }

  lemma UpdateOutcome(c: Core, op: Op, env: Env)
    requires Shaped(c) && op.UpdateControllerOp? && StoresController(c, op.upd.name) && HasParent(c, op.upd.name)
    ensures var req := op.upd; var c' := Step(c, Serve(op, env));
      c' == if UpdateRecorded(c, req, env) then c.(store := c.store[req.name := Renewed(c, req, env)]) else c
  {
    hide Handle;
    var req := op.upd;
    if !(req.accepted && AcceptsControllerSpec(req.spec) && req.maskAccepted && LookupsWork(env)) {
      UpdateTurnedAway(c, op, env);
      return;
    }
    UpdateIsOneCall(c, op, env);
    UpdateAnswered(AfterLookups(c, env), NqnAt(c, ParentName(req.name)), ParamsOf(req.spec));
    var (s, reply) := Call(AfterLookups(c, env), ControllerUpdate(NqnAt(c, ParentName(req.name)), ParamsOf(req.spec)));
    if reply.Good? { IdSurvivesInt32(reply.id); }
  }

  lemma UpdateAnswered(s: Session, nqn: string, params: ControllerParams)
    requires DeviceShaped(s.core.device) && nqn in s.core.device.units
    ensures var (s', reply) := Call(s, ControllerUpdate(nqn, params)); var d := s.core.device;
      && s'.core == s.core && s'.env.saves == s.env.saves
      && (reply.Good? <==> && s.env.net != [] && s.env.net[0].Done?
                           && if d.contract.echoesUpdate then params.ctrlrId in d.units[nqn].controllers
                               else InRange(s.env.net[0].id))
      && (reply.Good? ==>
            InRange(reply.id) && reply.id == if d.contract.echoesUpdate then params.ctrlrId else s.env.net[0].id)
  {
    var u := s.core.device.units[nqn];
    assert u.minId == 0 && u.maxId == 256;
  }

  /** An update of a stored controller keeps the store backed exactly unless it is recorded under an id, the sent one or
      the one the device picks, that the device does not have there or that another stored controller of the subsystem
      has. */
  lemma UpdateBackedExactly(c: Core, op: Op, env: Env, w: Kinds := BOTH)
    requires Shaped(c) && Backed(c, w) && w.controllers && op.UpdateControllerOp? && StoresController(c, op.upd.name)
    ensures HasParent(c, op.upd.name)
    ensures var name, id := op.upd.name, IdAfter(c, op.upd, env);
      Backed(Step(c, Serve(op, env)), w) <==>
        !UpdateRecorded(c, op.upd, env)
        || (id in ParentUnit(c, name).controllers
            && forall k :: StoresController(c, k) && Siblings(k, name) && k != name ==> IdAt(c, k) != id)
  {
    var req, name := op.upd, op.upd.name;
    assert StoredWell(name, c.store[name]) && HasParent(c, name);
    ParentNameParses(name);
    UpdateOutcome(c, op, env);
    if !UpdateRecorded(c, req, env) { return; }
    var o := Renewed(c, req, env);
    if NewlyBacked(c, name, o) { NewlyBackedStaysBacked(c, name, o, w); }
    if Backed(c.(store := c.store[name := o]), w) { BackedOnlyIfNewlyBacked(c, name, o, w); }
  }

  /** The state just before a new namespace is recorded. */
  lemma CreateNamespaceTrace(c: Core, op: Op, env: Env) returns (s: Session)
    requires Shaped(c) && FreshIdOk(op) && c.device.contract.refusesDuplicate
    requires op.CreateNamespaceOp? && NewKey(op) !in c.store && Ok(Result(c, op, env).1)
    ensures StoresSubsystem(c, op.cns.parent) && NqnAt(c, op.cns.parent) in c.device.units
    ensures |env.net| > 0 && env.net[0].Done?
    ensures s.core.store == c.store && Grows(c.device, s.core.device)
    ensures var n := NqnAt(c, op.cns.parent);
      n in s.core.device.units && s.core.device.units[n].namespaces == c.device.units[n].namespaces + {env.net[0].id}
    ensures var o := NamespaceObject(Namespace(NewKey(op), op.cns.spec, true));
      Result(c, op, env) == SaveNew(s, NewKey(op), o)
  {
    var req, s0 := op.cns, Begin(c, env);
    var (s1, found) := GetNamespace(s0, NewNamespaceName(req));
    var (s2, parent) := GetSubsystem(s1, req.parent);
    var n := parent.value.spec.nqn;
    var (s3, reply) := Call(s2, AllocCommand(n, req.spec));
    var (s4, stopped) := Visit(s3, Attaching, op.order, parent.value, SubsystemIdOf(req.parent), req.spec.hostNsid);
    CallGrows(s2, AllocCommand(n, req.spec));
    VisitGrows(s3, Attaching, op.order, parent.value, SubsystemIdOf(req.parent), req.spec.hostNsid);
    VisitKeepsUnit(s3, Attaching, op.order, parent.value, SubsystemIdOf(req.parent), req.spec.hostNsid, n);
    s := s4;
  }

  /** A namespace is created with the store still backed exactly when its HostNsid is the instance id the device
      picked or one already there, and no other stored namespace of the subsystem uses it. The device is never told
      HostNsid. */
  lemma CreateNamespaceBackedExactly(c: Core, op: Op, env: Env, w: Kinds := BOTH)
    requires Shaped(c) && Backed(c, w) && w.namespaces && FreshIdOk(op) && c.device.contract.refusesDuplicate
    requires op.CreateNamespaceOp? && NewKey(op) !in c.store && Ok(Result(c, op, env).1)
    ensures StoresSubsystem(c, op.cns.parent) && NqnAt(c, op.cns.parent) in c.device.units
    ensures |env.net| > 0 && env.net[0].Done?
    ensures var nsid := op.cns.spec.hostNsid;
      Backed(Step(c, Serve(op, env)), w) <==>
        (nsid == env.net[0].id || nsid in c.device.units[NqnAt(c, op.cns.parent)].namespaces)
        && forall k :: StoresNamespace(c, k) && ParentName(k) == op.cns.parent ==> NsidAt(c, k) != nsid
  {
    hide Handle;
    var s := CreateNamespaceTrace(c, op, env);
    var name, o := NewKey(op), NamespaceObject(Namespace(NewKey(op), op.cns.spec, true));
    CreatedIsOfItsKind(c, op, env);
    GrowthKeepsBacked(c, s.core, w);
    ParentOfNewChild(c, op.cns.parent, name, ChosenId(op.cns.userId, op.cns.freshId));
    NewNameShaped(c, op.cns.parent, op.cns.userId, op.cns.freshId);
    SiblingsShareParent(c, name);
    SavedBackedExactly(s, name, o, w);
    assert forall k :: StoresNamespace(s.core, k) ==> NsidAt(s.core, k) == NsidAt(c, k);
    assert ParentUnit(s.core, name) == s.core.device.units[NqnAt(c, op.cns.parent)];
  }

  lemma SavedBackedExactly(s: Session, name: string, o: Object, w: Kinds)
    requires Backed(s.core, w) && name !in s.core.store && Recordable(s.core, name, o) && Ok(SaveNew(s, name, o).1)
    requires w.Include(o)
    ensures Backed(SaveNew(s, name, o).0.core, w) <==> NewlyBacked(s.core, name, o)
  {
    SavedIsPlain(s, name, o);
    var c', plain := SaveNew(s, name, o).0.core, s.core.(store := s.core.store[name := o]);
    if NewlyBacked(s.core, name, o) { SaveKeepsBacked(s, name, o, w); }
    if Backed(c', w) {
      GrowthKeepsBacked(c', plain, w);
      BackedOnlyIfNewlyBacked(s.core, name, o, w);
    }
  }

  lemma SavedIsPlain(s: Session, name: string, o: Object)
    requires Ok(SaveNew(s, name, o).1)
    ensures var c' := SaveNew(s, name, o).0.core; c'.store == s.core.store[name := o] && c'.device == s.core.device
  {
  }

  lemma SiblingsShareParent(c: Core, name: string)
    requires Shaped(c) && IsResourceName(name)
    ensures forall k :: k in c.store ==> (Siblings(k, name) <==> ParentName(k) == ParentName(name))
  {
    ParentNameParses(name);
    forall k | k in c.store ensures Siblings(k, name) <==> ParentName(k) == ParentName(name) {
      assert StoredWell(k, c.store[k]);
      ParentNameParses(k);
    }
  }

  /** The unit has the same controllers and namespaces. */
  predicate SameMembers(d: Device, d': Device, n: string) {
    n in d.units && n in d'.units
    && d'.units[n].controllers == d.units[n].controllers && d'.units[n].namespaces == d.units[n].namespaces
  }

  lemma LinkKeepsUnit(s: Session, link: Link, nqn: string, id: int, nsid: int, n: string)
    requires n in s.core.device.units
    ensures SameMembers(s.core.device, Call(s, link.CommandFor(nqn, id, nsid)).0.core.device, n)
  {
  }

  lemma {:induction false} VisitKeepsUnit(
      s: Session, link: Link, order: seq<string>, subsys: Subsystem, subsysId: string, nsid: int, n: string)
    requires n in s.core.device.units
    ensures SameMembers(s.core.device, Visit(s, link, order, subsys, subsysId, nsid).0.core.device, n)
    decreases |order|
  {
    if order == [] { return; }
    if !ControllerPrefixTest(order[0], subsys.name) {
      VisitKeepsUnit(s, link, order[1..], subsys, subsysId, nsid, n);
      return;
    }
    var (s1, found) := GetController(s, order[0]);
    if !found.Found? { return; }
    if SubsystemIdOf(found.value.name) != subsysId {
      VisitKeepsUnit(s1, link, order[1..], subsys, subsysId, nsid, n);
      return;
    }
    if found.value.spec.ctrlrId.None? { return; }
    var id := found.value.spec.ctrlrId.value;
    LinkKeepsUnit(s1, link, subsys.spec.nqn, id, nsid, n);
    VisitKeepsUnit(Call(s1, link.CommandFor(subsys.spec.nqn, id, nsid)).0, link, order[1..], subsys, subsysId, nsid, n);
  }

  // ------------------------------------------------------------------ creates that half succeed

  /** An NQN that exists on the device but belongs to no stored subsystem: what a create leaves behind when it fails
      after its first call. */
  ghost predicate Leaked(c: Core, nqn: string) {
    nqn in c.device.units && forall k :: StoresSubsystem(c, k) ==> NqnAt(c, k) != nqn
  }

  /** A create of a subsystem under an NQN that is free on the device leaks it exactly when the creating command runs
      and the subsystem is not recorded all the same: the answer or that of the version call is lost, or the store
      write fails. */
  lemma CreateLeaksExactly(c: Core, op: Op, env: Env)
    requires Shaped(c) && SubsystemsBacked(c) && op.CreateSubsystemOp? && Accepts(op) && NewKey(op) !in c.store
    requires op.csub.spec.nqn !in c.device.units && env.loads == []
    requires forall k :: k in op.order && c.scan.Selects(k) ==> StoresSubsystem(c, k)
    ensures Leaked(Step(c, Serve(op, env)), op.csub.spec.nqn) <==>
      TakesEffect(env.net) && !(env.net[0].Done? && |env.net| > 1 && !env.net[1].Lost? && SavesWork(env))
  {
    hide Execute;
    var req, s := op.csub, Begin(c, env);
    assert GetSubsystem(s, NewSubsystemName(req)) == (s, Missing);
    ScanObjectsExactly(s, op.order, req.spec.nqn);
    ScanReadsWell(s, op.order, req.spec.nqn);
    forall k | StoresSubsystem(c, k) ensures NqnAt(c, k) != req.spec.nqn { }
    SubsystemTaken(s, req.spec);
    var (s3, reply) := Call(s, CreationCommand(req.spec));
    var c' := Step(c, Serve(op, env));
    if !reply.Good? {
      assert c' == s3.core;
      assert forall k :: StoresSubsystem(c', k) <==> StoresSubsystem(c, k);
      return;
    }
    VersionAnswered(s3);
    var (s4, version) := Call(s3, GetVersion);
    RecordedOrLeaked(c, s4, c', op, version);
  }

  lemma SubsystemTaken(s: Session, spec: SubsystemSpec)
    requires spec.nqn !in s.core.device.units
    ensures var (s', reply) := Call(s, CreationCommand(spec));
      && (reply.Good? <==> s.env.net != [] && s.env.net[0].Done?)
      && (spec.nqn in s'.core.device.units <==> TakesEffect(s.env.net))
      && s'.core.store == s.core.store && s'.env.saves == s.env.saves && s'.env.net == Drop(s.env.net, 1)
  {
  }

  lemma VersionAnswered(s: Session)
    ensures var (s', reply) := Call(s, GetVersion);
      s'.core == s.core && s'.env.saves == s.env.saves && (reply.NoReply? <==> s.env.net == [] || s.env.net[0].Lost?)
  {
  }

  lemma RecordedOrLeaked(c: Core, s: Session, c': Core, op: Op, version: Reply)
    requires op.CreateSubsystemOp? && NewKey(op) !in c.store
    requires s.core.store == c.store && op.csub.spec.nqn in s.core.device.units
    requires forall k :: StoresSubsystem(c, k) ==> NqnAt(c, k) != op.csub.spec.nqn
    requires c' == if version.NoReply? then s.core
                   else SaveNew(s, NewKey(op),
                       SubsystemObject(Subsystem(NewKey(op), op.csub.spec, FirstText(version)))).0.core
    ensures Leaked(c', op.csub.spec.nqn) <==> version.NoReply? || !WriteWorks(s)
  {
    if version.NoReply? || !WriteWorks(s) {
      assert forall k :: StoresSubsystem(c', k) ==> StoresSubsystem(c, k) && NqnAt(c', k) == NqnAt(c, k);
    } else {
      assert StoresSubsystem(c', NewKey(op)) && NqnAt(c', NewKey(op)) == op.csub.spec.nqn;
    }
  }

  lemma {:induction false} ScanReadsWell(s: Session, order: seq<string>, nqn: string)
    requires s.env.loads == []
    ensures ScanForNqn(s, order, nqn).0 == s
    decreases |order|
  {
    if order != [] {
      ScanReadsWell(s, order[1..], nqn);
    }
  }

  /** What can be true of a device for good: it has an NQN, or has or does not have a namespace under one. */
  datatype Fact = Has(nqn: string) | Holds(nqn: string, nsid: int) | Lacks(nqn: string, nsid: int) {
    predicate HoldsIn(d: Device) {
      match this
      case Has(n) => n in d.units
      case Holds(n, nsid) => n in d.units && nsid in d.units[n].namespaces && Reliable(d.contract)
      case Lacks(n, nsid) => n in d.units ==> nsid !in d.units[n].namespaces
    }

    /** The command, answered by the wire's next answer, does not end it. */
    predicate Survives(c: Command, net: seq<Answer>) {
      match this
      case Has(n) => c != SubsystemDelete(n)
      case Holds(n, nsid) => c != NamespaceUnalloc(n, nsid)
      case Lacks(n, nsid) => c.NamespaceAlloc? && c.nqn == n ==> net == [] || net[0].Declined? || net[0].id != nsid
    }
  }

  lemma CallKeeps(s: Session, c: Command, f: Fact)
    requires f.HoldsIn(s.core.device) && f.Survives(c, s.env.net)
    ensures f.HoldsIn(Call(s, c).0.core.device)
  {
  }

  lemma {:induction false} VisitKeeps(
      s: Session, link: Link, order: seq<string>, subsys: Subsystem, subsysId: string, nsid: int, f: Fact)
    requires f.HoldsIn(s.core.device)
    ensures f.HoldsIn(Visit(s, link, order, subsys, subsysId, nsid).0.core.device)
    decreases |order|
  {
    if order == [] { return; }
    if !ControllerPrefixTest(order[0], subsys.name) {
      VisitKeeps(s, link, order[1..], subsys, subsysId, nsid, f);
      return;
    }
    var (s1, found) := GetController(s, order[0]);
    if !found.Found? { return; }
    if SubsystemIdOf(found.value.name) != subsysId {
      VisitKeeps(s1, link, order[1..], subsys, subsysId, nsid, f);
      return;
    }
    if found.value.spec.ctrlrId.None? { return; }
    var command := link.CommandFor(subsys.spec.nqn, found.value.spec.ctrlrId.value, nsid);
    CallKeeps(s1, command, f);
    VisitKeeps(Call(s1, command).0, link, order[1..], subsys, subsysId, nsid, f);
  }

  lemma CreateSubsystemKeeps(s: Session, req: CreateSubsystemRequest, order: seq<string>, f: Fact)
    requires f.HoldsIn(s.core.device)
    ensures f.HoldsIn(CreateSubsystem(s, req, order).0.core.device)
  {
    var (s1, found) := GetSubsystem(s, NewSubsystemName(req));
    var (s2, objection) := ScanForNqn(s1, order, req.spec.nqn);
    CallKeeps(s2, CreationCommand(req.spec), f);
    CallKeeps(Call(s2, CreationCommand(req.spec)).0, GetVersion, f);
  }

  lemma DeleteSubsystemKeeps(s: Session, req: DeleteRequest, f: Fact)
    requires f.HoldsIn(s.core.device) && (f.Has? ==> Leaked(s.core, f.nqn))
    ensures f.HoldsIn(DeleteSubsystem(s, req).0.core.device)
  {
    var (s1, found) := GetSubsystem(s, req.name);
    if !found.Found? { return; }
    assert StoresSubsystem(s.core, req.name);
    CallKeeps(s1, SubsystemDelete(found.value.spec.nqn), f);
  }

  lemma CreateControllerKeeps(s: Session, req: CreateControllerRequest, f: Fact)
    requires f.HoldsIn(s.core.device)
    ensures f.HoldsIn(CreateController(s, req).0.core.device)
  {
    var (s1, found) := GetController(s, NewControllerName(req));
    var (s2, parent) := GetSubsystem(s1, req.parent);
    if !parent.Found? { return; }
    CallKeeps(s2, ControllerCreate(parent.value.spec.nqn, ParamsOf(req.spec)), f);
  }

  lemma DeleteControllerKeeps(s: Session, req: DeleteRequest, f: Fact)
    requires f.HoldsIn(s.core.device)
    ensures f.HoldsIn(DeleteController(s, req).0.core.device)
  {
    var (s1, found) := GetController(s, req.name);
    var (s2, parent) := GetSubsystem(s1, ParentName(req.name));
    if !found.Found? || !parent.Found? || found.value.spec.ctrlrId.None? { return; }
    CallKeeps(s2, ControllerRemove(parent.value.spec.nqn, found.value.spec.ctrlrId.value, 1), f);
  }

  lemma UpdateControllerKeeps(s: Session, req: UpdateControllerRequest, f: Fact)
    requires f.HoldsIn(s.core.device)
    ensures f.HoldsIn(UpdateNvmeController(s, req).0.core.device)
  {
    var (s1, found) := GetController(s, req.name);
    var (s2, parent) := GetSubsystem(s1, ParentName(req.name));
    if !parent.Found? { return; }
    CallKeeps(s2, ControllerUpdate(parent.value.spec.nqn, ParamsOf(req.spec)), f);
  }

  /** An allocation under the NQN does not pick the namespace's id. */
  predicate PicksAnother(c: Core, req: CreateNamespaceRequest, env: Env, f: Fact) {
    StoresSubsystem(c, req.parent) ==> f.Survives(AllocCommand(NqnAt(c, req.parent), req.spec), env.net)
  }

  lemma CreateNamespaceKeeps(s: Session, req: CreateNamespaceRequest, order: seq<string>, f: Fact)
    requires f.HoldsIn(s.core.device) && PicksAnother(s.core, req, s.env, f)
    ensures f.HoldsIn(CreateNamespace(s, req, order).0.core.device)
  {
    var (s1, found) := GetNamespace(s, NewNamespaceName(req));
    var (s2, parent) := GetSubsystem(s1, req.parent);
    if !parent.Found? { return; }
    var command := AllocCommand(parent.value.spec.nqn, req.spec);
    CallKeeps(s2, command, f);
    VisitKeeps(Call(s2, command).0, Attaching, order, parent.value, SubsystemIdOf(req.parent), req.spec.hostNsid, f);
  }

  /** The namespace deleted is not the one the fact is about. */
  predicate DeletesAnother(c: Core, req: DeleteRequest, f: Fact) {
    StoresNamespace(c, req.name) && StoresSubsystem(c, ParentName(req.name)) ==>
      f.Survives(NamespaceUnalloc(NqnAt(c, ParentName(req.name)), NsidAt(c, req.name)), [])
  }

  lemma DeleteNamespaceKeeps(s: Session, req: DeleteRequest, order: seq<string>, f: Fact)
    requires f.HoldsIn(s.core.device) && DeletesAnother(s.core, req, f)
    ensures f.HoldsIn(DeleteNamespace(s, req, order).0.core.device)
  {
    var (s1, found) := GetNamespace(s, req.name);
    var (s2, parent) := GetSubsystem(s1, ParentName(req.name));
    if !found.Found? || !parent.Found? { return; }
    var nsid := found.value.spec.hostNsid;
    VisitKeeps(s2, Detaching, order, parent.value, SubsystemIdOf(req.name), nsid, f);
    var (s3, stopped) := Visit(s2, Detaching, order, parent.value, SubsystemIdOf(req.name), nsid);
    CallKeeps(s3, NamespaceUnalloc(parent.value.spec.nqn, nsid), f);
  }

  lemma StepKeepsFact(c: Core, op: Op, env: Env, f: Fact)
    requires f.HoldsIn(c.device) && (f.Has? && op.DeleteSubsystemOp? ==> Leaked(c, f.nqn))
    requires op.CreateNamespaceOp? ==> PicksAnother(c, op.cns, env, f)
    requires op.DeleteNamespaceOp? ==> DeletesAnother(c, op.del, f)
    ensures f.HoldsIn(Step(c, Serve(op, env)).device)
  {
    hide CreateSubsystem, DeleteSubsystem, CreateController, DeleteController, UpdateNvmeController, CreateNamespace,
        DeleteNamespace;
    var s := Begin(c, env);
    match op
    case CreateSubsystemOp(req, order) => CreateSubsystemKeeps(s, req, order, f);
    case DeleteSubsystemOp(req) => DeleteSubsystemKeeps(s, req, f);
    case CreateControllerOp(req) => CreateControllerKeeps(s, req, f);
    case DeleteControllerOp(req) => DeleteControllerKeeps(s, req, f);
    case UpdateControllerOp(req) => UpdateControllerKeeps(s, req, f);
    case CreateNamespaceOp(req, order) => CreateNamespaceKeeps(s, req, order, f);
    case DeleteNamespaceOp(req, order) => DeleteNamespaceKeeps(s, req, order, f);
    case _ => QueryEffects(c, op, env);
  }

  lemma CreateKeepsLeak(c: Core, op: Op, env: Env, n: string)
    requires Leaked(c, n) && op.CreateSubsystemOp? && c.device.contract.refusesDuplicate
    ensures forall k :: StoresSubsystem(Step(c, Serve(op, env)), k) ==> NqnAt(Step(c, Serve(op, env)), k) != n
  {
    hide Handle;
    CreateEffects(c, op, env);
    var c' := Step(c, Serve(op, env));
    if NewKey(op) !in c.store && Ok(Result(c, op, env).1) {
      CreatedElsewhere(c, op, env, n);
      CreatedSubsystemCarriesItsNqn(c, op, env);
    }
    assert forall k :: StoresSubsystem(c', k) && k != NewKey(op) ==>
      StoresSubsystem(c, k) && NqnAt(c', k) == NqnAt(c, k);
    assert StoresSubsystem(c', NewKey(op)) && NewKey(op) in c.store ==>
      StoresSubsystem(c, NewKey(op)) && NqnAt(c', NewKey(op)) == NqnAt(c, NewKey(op));
  }

  lemma LeakStep(c: Core, e: Event, n: string)
    requires Shaped(c) && Plausible(e) && Leaked(c, n) && c.device.contract.refusesDuplicate
    ensures Leaked(Step(c, e), n)
  {
    hide Handle;
    if e.Restart? {
      assert forall k :: StoresSubsystem(Step(c, e), k) ==> StoresSubsystem(c, k);
      return;
    }
    StepKeepsFact(c, e.op, e.env, Has(n));
    if e.op.CreateSubsystemOp? { CreateKeepsLeak(c, e.op, e.env, n); } else { NoNewSubsystem(c, e.op, e.env); }
  }

  /** A leaked NQN stays so: no run of requests and restarts, whatever fails, ever frees it or lets a subsystem have
      it. */
  lemma {:induction false} LeakIsPermanent(c: Core, events: seq<Event>, n: string)
    requires Shaped(c) && Leaked(c, n) && c.device.contract.refusesDuplicate
    requires forall e :: e in events ==> Plausible(e)
    ensures Leaked(Run(c, events), n)
    decreases |events|
  {
    if events != [] {
      var e := events[0];
      assert e in events;
      LeakStep(c, e, n);
      ShapeStep(c, e);
      ContractStep(c, e);
      LeakIsPermanent(Step(c, e), events[1..], n);
    }
  }

  // ------------------------------------------------------------------ namespaces the device has lost

  /** A stored namespace that is not on the device: what a delete leaves behind when its unallocation runs and the
      store is not told. */
  ghost predicate Vanished(c: Core, name: string) {
    && StoresNamespace(c, name) && StoresSubsystem(c, ParentName(name)) && ParentName(name) != name
    && LostFact(c, name).HoldsIn(c.device)
  }

  /** A delete leaves its namespace, if the device had it, vanished exactly when the unallocation runs and it is not
      erased. */
  lemma DeleteVanishesExactly(c: Core, op: Op, env: Env)
    requires Shaped(c) && ControllersBacked(c) && op.DeleteNamespaceOp? && OrderOk(c, op)
    requires StoresNamespace(c, op.del.name) && HasParent(c, op.del.name)
    requires NsidAt(c, op.del.name) in ParentUnit(c, op.del.name).namespaces
    ensures var keys := Targets(op.order, ParentName(op.del.name));
      Vanished(Step(c, Serve(op, env)), op.del.name) <==>
        op.del.accepted && UnallocRuns(c, op.del.name, env, keys) && !(env.net[|keys|].Done? && SavesWork(env))
  {
    hide Handle;
    var name, c' := op.del.name, Step(c, Serve(op, env));
    assert StoredWell(name, c.store[name]);
    ParentNameParses(name);
    if !op.del.accepted || !LookupsWork(env) {
      DeleteTurnedAway(c, op, env);
      return;
    }
    var n := FailedDeleteLeavesExactly(c, op, env);
    DetachesGoWellExactly(c, name, op.order, env);
  }

  /** A vanished namespace can not be deleted ... */
  lemma VanishedStays(c: Core, op: Op, env: Env, name: string)
    requires Shaped(c) && Vanished(c, name) && OrderOk(c, op)
    requires (IsDelete(op) && op.del.name == name) || (op.UpdateControllerOp? && op.upd.name == name)
    ensures !Ok(Result(c, op, env).1)
  {
    if !op.DeleteNamespaceOp? {
      OfAnotherKind(c, op, env, name);
      return;
    }
    hide Handle;
    if !op.del.accepted || !LookupsWork(env) {
      DeleteTurnedAway(c, op, env);
      return;
    }
    var n := FailedDeleteLeavesExactly(c, op, env);
  }

  lemma OfAnotherKind(c: Core, op: Op, env: Env, name: string)
    requires StoresNamespace(c, name)
    requires || ((op.DeleteSubsystemOp? || op.DeleteControllerOp?) && op.del.name == name)
             || (op.UpdateControllerOp? && op.upd.name == name)
    ensures !Ok(Result(c, op, env).1)
  {
  }

  /** The event keeps the subsystem of this name, and no allocation under its NQN picks the id. */
  ghost predicate LeavesVanished(c: Core, e: Event, parent: string, lost: Fact) {
    && Plausible(e) && Spares(c, e, parent) && (e.Serve? ==> OrderOk(c, e.op))
    && (e.Serve? && e.op.CreateNamespaceOp? ==> PicksAnother(c, e.op.cns, e.env, lost))
  }

  function LostFact(c: Core, name: string): Fact
    requires StoresNamespace(c, name) && StoresSubsystem(c, ParentName(name))
  {
    Lacks(NqnAt(c, ParentName(name)), NsidAt(c, name))
  }

  lemma VanishedStep(c: Core, e: Event, name: string)
    requires Shaped(c) && Vanished(c, name) && LeavesVanished(c, e, ParentName(name), LostFact(c, name))
    ensures Vanished(Step(c, e), name) && LostFact(Step(c, e), name) == LostFact(c, name)
  {
    hide Handle;
    if e.Serve? {
      if (IsDelete(e.op) && e.op.del.name == name) || (e.op.UpdateControllerOp? && e.op.upd.name == name) {
        VanishedStays(c, e.op, e.env, name);
      }
      StepKeepsFact(c, e.op, e.env, LostFact(c, name));
    }
    StoredStaysStep(c, e, name);
    StoredStaysStep(c, e, ParentName(name));
  }

  ghost predicate AllLeaveVanished(c: Core, events: seq<Event>, parent: string, lost: Fact)
    decreases |events|
  {
    events == [] || (LeavesVanished(c, events[0], parent, lost)
        && AllLeaveVanished(Step(c, events[0]), events[1..], parent, lost))
  }

  /** ... and stays so in every run that keeps its subsystem, restarts included, until the device picks its id for
      another namespace: every delete of it in between fails. */
  lemma {:induction false} VanishedIsPermanent(c: Core, events: seq<Event>, name: string)
    requires Shaped(c) && Vanished(c, name) && AllLeaveVanished(c, events, ParentName(name), LostFact(c, name))
    ensures Vanished(Run(c, events), name)
    decreases |events|
  {
    if events != [] {
      var e := events[0];
      VanishedStep(c, e, name);
      ShapeStep(c, e);
      VanishedIsPermanent(Step(c, e), events[1..], name);
    }
  }
}
