/** Exactly when creates and deletes succeed, and when retrying a failed delete gets there. */
module Convergence {
  import opened Names
  import opened Device
  import opened Bridge
  import opened Handlers
  import opened Runs
  import opened Shape
  import opened Effects
  import opened Backing
  import opened Counts
  import opened Sweep
  import opened Namespaces

  // ------------------------------------------------------------------ when the loop gets through

  /** The read of the `i`-th key succeeds and its command is answered with a zero status. */
  predicate Heard(env: Env, i: nat) {
    (i < |env.loads| ==> env.loads[i]) && i < |env.net| && env.net[i].Done?
  }

  predicate Undisturbed(env: Env, k: nat) {
    forall i :: 0 <= i < k ==> Heard(env, i)
  }

  /** The controller is stored, the device has it and the namespace, and they are not linked already unless the device
      does not mind. */
  predicate Linkable(c: Core, link: Link, key: string, nqn: string, nsid: int) {
    && StoresController(c, key) && nqn in c.device.units
    && var u, id := c.device.units[nqn], IdAt(c, key);
       && id in u.controllers && nsid in u.namespaces
       && (c.device.contract.idempotentLinks || ((id, nsid) in u.attached <==> link.Detaching?))
  }

  ghost predicate DistinctIds(c: Core, keys: seq<string>) {
    forall i, j :: 0 <= i < j < |keys| && StoresController(c, keys[i]) && StoresController(c, keys[j]) ==>
        IdAt(c, keys[i]) != IdAt(c, keys[j])
  }

  /** The links made before do not bear on whether a key's own is taken. */
  lemma TakenOnItsOwn(s: Session, link: Link, keys: seq<string>, nqn: string, nsid: int, i: nat)
    requires DistinctIds(s.core, keys) && i < |keys| && StoresController(s.core, keys[i])
    ensures var id := IdAt(s.core, keys[i]);
      Takes(DeviceAt(s, link, keys, nqn, nsid, i), link, nqn, id, nsid) <==> Takes(s.core.device, link, nqn, id, nsid)
  {
    if nqn !in s.core.device.units { return; }
    var id, before := IdAt(s.core, keys[i]), IdSet(s.core, keys[..i]);
    assert id !in before by {
      forall k | k in keys[..i] && StoresController(s.core, k) ensures IdAt(s.core, k) != id {
        var j :| 0 <= j < i && keys[..i][j] == k;
      }
    }
    assert (id, nsid) !in Pairs(before, nsid);
  }

  lemma GoesWellExactly(s: Session, link: Link, keys: seq<string>, nqn: string, nsid: int, i: nat)
    requires DistinctIds(s.core, keys) && i < |keys|
    ensures GoesWell(s, link, keys, nqn, nsid, i) <==>
              Heard(s.env, i) && Linkable(s.core, link, keys[i], nqn, nsid)
  {
    if StoresController(s.core, keys[i]) { TakenOnItsOwn(s, link, keys, nqn, nsid, i); }
  }

  lemma AllGoWellExactly(s: Session, link: Link, keys: seq<string>, nqn: string, nsid: int)
    requires DistinctIds(s.core, keys)
    ensures (forall i :: 0 <= i < |keys| ==> GoesWell(s, link, keys, nqn, nsid, i)) <==>
              Undisturbed(s.env, |keys|) && forall k :: k in keys ==> Linkable(s.core, link, k, nqn, nsid)
  {
    hide GoesWell, Heard, Linkable, DistinctIds;
    forall i | 0 <= i < |keys|
      ensures GoesWell(s, link, keys, nqn, nsid, i) <==> Heard(s.env, i) && Linkable(s.core, link, keys[i], nqn, nsid)
    {
      GoesWellExactly(s, link, keys, nqn, nsid, i);
    }
  }

  /** With distinct ids the loop gets through exactly when nothing disturbs it and the device takes each of its
      links. */
  lemma VisitSucceedsExactly(s: Session, link: Link, keys: seq<string>, subsys: Subsystem, subsysId: string, nsid: int)
    requires Shaped(s.core) && AllTargets(keys, subsys, subsysId) && DistinctIds(s.core, keys)
    ensures Visit(s, link, keys, subsys, subsysId, nsid).1.None? <==>
              Undisturbed(s.env, |keys|) && forall k :: k in keys ==> Linkable(s.core, link, k, subsys.spec.nqn, nsid)
  {
    var n := VisitProgress(s, link, keys, subsys, subsysId, nsid);
    AllGoWellExactly(s, link, keys, subsys.spec.nqn, nsid);
  }

  // ------------------------------------------------------------------ the loop of a subsystem

  /** The device ids of a subsystem's stored controllers are distinct, so those the loop meets are. */
  lemma TargetsDistinct(c: Core, keys: seq<string>, sid: string)
    requires ControllersBacked(c) && Enumerates(keys, ControllerKeys(c, sid))
    ensures DistinctIds(c, keys)
  {
    forall i, j | 0 <= i < j < |keys| && StoresController(c, keys[i]) && StoresController(c, keys[j])
      ensures IdAt(c, keys[i]) != IdAt(c, keys[j])
    {
      assert keys[i] in keys && keys[j] in keys;
      assert Siblings(keys[i], keys[j]) && keys[i] != keys[j];
    }
  }

  /** Every controller of the subsystem that the index knows is stored; if there is any, the namespace is on the device;
      and none of them is linked to it already unless the device does not mind. */
  predicate Welcoming(c: Core, link: Link, parent: string, namespaces: set<int>, nsid: int)
    requires Present(c, parent)
  {
    var sid := SubsystemIdOf(parent);
    var held := Holders(c.device.units[NqnAt(c, parent)], nsid);
    && (forall k :: k in ControllerKeys(c, sid) ==> k in c.store)
    && (ControllerKeys(c, sid) != {} ==> nsid in namespaces)
    && (c.device.contract.idempotentLinks ||
          if link.Detaching? then IdsUnder(c, sid) <= held else IdsUnder(c, sid) !! held)
  }

  lemma WelcomingOnes(c: Core, link: Link, keys: seq<string>, parent: string, nsid: int)
    requires Shaped(c) && ControllersBacked(c) && Present(c, parent)
    requires Enumerates(keys, ControllerKeys(c, SubsystemIdOf(parent)))
    ensures var n := NqnAt(c, parent);
      (forall k :: k in keys ==> Linkable(c, link, k, n, nsid)) <==>
          Welcoming(c, link, parent, c.device.units[n].namespaces, nsid)
  {
    var sid, u := SubsystemIdOf(parent), c.device.units[NqnAt(c, parent)];
    ParentIsNamed(c, parent);
    forall k | k in keys && k in c.store ensures StoresController(c, k) && IdAt(c, k) in u.controllers {
      ControllerOnUnit(c, parent, k);
    }
    IdsHeld(c, keys, sid, u, nsid);
    if ControllerKeys(c, sid) != {} {
      var k :| k in ControllerKeys(c, sid);
      assert k in keys;
    }
  }

  lemma IdsHeld(c: Core, keys: seq<string>, sid: string, u: Unit, nsid: int)
    requires Enumerates(keys, ControllerKeys(c, sid))
    ensures IdsUnder(c, sid) <= Holders(u, nsid) <==>
      forall k :: k in keys && StoresController(c, k) ==> (IdAt(c, k), nsid) in u.attached
    ensures IdsUnder(c, sid) !! Holders(u, nsid) <==>
      forall k :: k in keys && StoresController(c, k) ==> (IdAt(c, k), nsid) !in u.attached
  {
    assert forall i :: i in Holders(u, nsid) <==> (i, nsid) in u.attached;
    assert forall k :: k in keys && StoresController(c, k) ==> IdAt(c, k) in IdsUnder(c, sid);
  }

  lemma ControllerOnUnit(c: Core, parent: string, k: string)
    requires Shaped(c) && ControllersBacked(c) && Present(c, parent) && IsSubsystemName(parent)
    requires k in c.store && IsControllerName(k) && SubsystemIdOf(k) == SubsystemIdOf(parent)
    ensures StoresController(c, k) && IdAt(c, k) in c.device.units[NqnAt(c, parent)].controllers
  {
    assert StoredWell(k, c.store[k]);
    NameIsRebuilt(parent);
    assert ParentName(k) == parent;
  }

  // ------------------------------------------------------------------ when a namespace is created

  lemma AllocatedIsBacked(c: Core, req: CreateNamespaceRequest, env: Env)
    requires Shaped(c) && ControllersBacked(c) && AllocAccepted(c, req.parent, env)
    ensures var c' := AfterAlloc(c, req, env).core; var n := NqnAt(c, req.parent);
      && Shaped(c') && ControllersBacked(c') && Present(c', req.parent) && NqnAt(c', req.parent) == n
      && c'.device.units[n].namespaces == c.device.units[n].namespaces + {env.net[0].id}
  {
    AllocatedStaysShaped(c, req, env);
    ControllersGrow(c, AfterAlloc(c, req, env).core);
  }

  lemma WelcomingAfterAlloc(c: Core, req: CreateNamespaceRequest, env: Env)
    requires AllocAccepted(c, req.parent, env)
    ensures var c' := AfterAlloc(c, req, env).core; var n := NqnAt(c, req.parent);
      Present(c', req.parent) && (forall ids, nsid ::
        Welcoming(c', Attaching, req.parent, ids, nsid) <==> Welcoming(c, Attaching, req.parent, ids, nsid))
  {
    var c' := AfterAlloc(c, req, env).core;
    assert forall k :: StoresController(c', k) <==> StoresController(c, k);
    assert IdsUnder(c', SubsystemIdOf(req.parent)) == IdsUnder(c, SubsystemIdOf(req.parent));
    assert c'.device.units[NqnAt(c, req.parent)].attached == c.device.units[NqnAt(c, req.parent)].attached;
  }

  /** A namespace is created exactly when the device has the subsystem, the lookups work, the device allocates, every
      attach is heard, the store write works, and the subsystem is welcoming: each of its controllers in the index is
      stored, and if there is one, the HostNsid of the request is an instance id already allocated or the one picked
      for this very call. The device is never told HostNsid, so with a controller present success is up to chance; and
      a controller in the index that is not stored blocks every create. Of other namespaces nothing is assumed. */
  lemma CreateSucceedsExactly(c: Core, op: Op, env: Env)
    requires Shaped(c) && ControllersBacked(c) && op.CreateNamespaceOp? && AcceptsCreateNamespace(op.cns)
    requires OrderOk(c, op) && NewKey(op) !in c.store
    ensures var parent := op.cns.parent;
      Ok(Result(c, op, env).1) <==>
        && Present(c, parent) && var taken := c.device.units[NqnAt(c, parent)].namespaces;
        && LookupsWork(env) && env.net != [] && env.net[0].Done? && env.net[0].id !in taken
        && Undisturbed(env.(net := Drop(env.net, 1), loads := Drop(env.loads, 2)), |Targets(op.order, parent)|)
        && Welcoming(c, Attaching, parent, taken + {env.net[0].id}, op.cns.spec.hostNsid)
        && SavesWork(env)
  {
    hide Handle;
    if !AllocAccepted(c, op.cns.parent, env) {
      AllocDecides(c, op, env);
      return;
    }
    if !LookupsWork(env) {
      if Ok(Result(c, op, env).1) { CreateGotThere(c, op, env); }
      return;
    }
    var n := FailedCreateLeavesExactly(c, op, env);
    AttachesGoWellExactly(c, op.cns, op.order, env);
  }

  lemma AttachesGoWellExactly(c: Core, req: CreateNamespaceRequest, order: seq<string>, env: Env)
    requires Shaped(c) && ControllersBacked(c) && Enumerates(order, c.index.Keys) && AllocAccepted(c, req.parent, env)
    ensures var s := AfterAlloc(c, req, env); var n := NqnAt(c, req.parent); var keys := Targets(order, req.parent);
      (forall i :: 0 <= i < |keys| ==> GoesWell(s, Attaching, keys, n, req.spec.hostNsid, i)) <==>
        Undisturbed(s.env, |keys|)
        && Welcoming(c, Attaching, req.parent, c.device.units[n].namespaces + {env.net[0].id}, req.spec.hostNsid)
  {
    var s, n, keys := AfterAlloc(c, req, env), NqnAt(c, req.parent), Targets(order, req.parent);
    hide GoesWell, Undisturbed, Welcoming, Linkable;
    TargetsOfOrder(c, order, req.parent);
    AllocatedIsBacked(c, req, env);
    TargetsDistinct(s.core, keys, SubsystemIdOf(req.parent));
    AllGoWellExactly(s, Attaching, keys, n, req.spec.hostNsid);
    WelcomingOnes(s.core, Attaching, keys, req.parent, req.spec.hostNsid);
    WelcomingAfterAlloc(c, req, env);
  }

  // ------------------------------------------------------------------ when a namespace is deleted

  lemma DetachesGoWellExactly(c: Core, name: string, order: seq<string>, env: Env)
    requires Shaped(c) && ControllersBacked(c) && Enumerates(order, c.index.Keys)
    requires StoresNamespace(c, name) && HasParent(c, name)
    ensures var s := AfterLookups(c, env); var parent := ParentName(name);
      var n := NqnAt(c, parent); var keys := Targets(order, parent);
      (forall i :: 0 <= i < |keys| ==> GoesWell(s, Detaching, keys, n, NsidAt(c, name), i)) <==>
        Undisturbed(s.env, |keys|) && Welcoming(c, Detaching, parent, c.device.units[n].namespaces, NsidAt(c, name))
  {
    var s, n, keys := AfterLookups(c, env), NqnAt(c, ParentName(name)), Targets(order, ParentName(name));
    assert s.core == c;
    hide GoesWell, Undisturbed, Welcoming, Linkable;
    TargetsOfOrder(c, order, ParentName(name));
    TargetsDistinct(c, keys, SubsystemIdOf(ParentName(name)));
    AllGoWellExactly(s, Detaching, keys, n, NsidAt(c, name));
    WelcomingOnes(c, Detaching, keys, ParentName(name), NsidAt(c, name));
  }

  /** A stored namespace is deleted exactly when the lookups work, every detach and the unallocation are heard, the
      store erase works, the subsystem is welcoming, and the device lets go: it has the namespace, and does not mind
      attachments or the index knows every controller that holds it. So after a restart, with its empty index, an
      attached namespace can not be deleted from a device that insists on detaching first; and on a device that does
      not detach what is not attached, a namespace can not be deleted once its subsystem has a controller it was never
      attached to. */
  lemma DeleteSucceedsExactly(c: Core, op: Op, env: Env)
    requires Shaped(c) && ControllersBacked(c) && op.DeleteNamespaceOp? && op.del.accepted
    requires OrderOk(c, op) && StoresNamespace(c, op.del.name)
    ensures var name := op.del.name; var parent := ParentName(name); var keys := Targets(op.order, parent);
      Ok(Result(c, op, env).1) <==>
        && LookupsWork(env) && Undisturbed(env.(loads := Drop(env.loads, 2)), |keys|)
        && |env.net| > |keys| && env.net[|keys|].Done? && SavesWork(env) && LetsGo(c, name)
        && Welcoming(c, Detaching, parent, ParentUnit(c, name).namespaces, NsidAt(c, name))
  {
    hide Handle;
    if !LookupsWork(env) || !StoresSubsystem(c, ParentName(op.del.name)) {
      DeleteTurnedAway(c, op, env);
      return;
    }
    var n := FailedDeleteLeavesExactly(c, op, env);
    if HasParent(c, op.del.name) { DetachesGoWellExactly(c, op.del.name, op.order, env); }
  }

  /** A marked controller that is not stored blocks its subsystem: no namespace can be created under it or deleted
      from it, in any order of the loop and whatever the device answers, until the bridge restarts or the controller
      is created again. */
  lemma MarkedControllerBlocksNamespaces(c: Core, key: string, parent: string, op: Op, env: Env)
    requires Shaped(c) && StoresSubsystem(c, parent) && OrderOk(c, op)
    requires key in c.index && key !in c.store && IsControllerName(key) && SubsystemIdOf(key) == SubsystemIdOf(parent)
    requires || (op.CreateNamespaceOp? && op.cns.parent == parent && NewKey(op) !in c.store)
             || (op.DeleteNamespaceOp? && ParentName(op.del.name) == parent && StoresNamespace(c, op.del.name))
    ensures !Ok(Result(c, op, env).1)
  {
    hide Handle;
    TargetsOfOrder(c, op.order, parent);
    assert key in ControllerKeys(c, SubsystemIdOf(parent));
    assert key in Targets(op.order, parent);
    if !Ok(Result(c, op, env).1) { return; }
    if op.CreateNamespaceOp? { CreateInAnyOrder(c, op, env); } else { DeleteInAnyOrder(c, op, env); }
  }

  // ------------------------------------------------------------------ subsystems and controllers

  /** A stored subsystem is deleted exactly when nothing fails and its unit on the device is empty, or the device
      does not mind. In particular not while it has stored children, nor while the device holds what a failed create
      left. */
  lemma DeleteSubsystemSucceedsExactly(c: Core, op: Op, env: Env)
    requires op.DeleteSubsystemOp? && op.del.accepted && StoresSubsystem(c, op.del.name)
    ensures Ok(Result(c, op, env).1) <==>
      && (env.loads == [] || env.loads[0]) && env.net != [] && env.net[0].Done? && SavesWork(env)
      && Present(c, op.del.name)
      && (!c.device.contract.refusesNonEmpty || Empty(c.device.units[NqnAt(c, op.del.name)]))
    ensures Accounted(c) && Ok(Result(c, op, env).1) && c.device.contract.refusesNonEmpty ==>
      forall k :: StoresController(c, k) || StoresNamespace(c, k) ==> ParentName(k) != op.del.name
  {
    var (s1, found) := GetSubsystem(Begin(c, env), op.del.name);
    var (s', reply) := Call(s1, SubsystemDelete(NqnAt(c, op.del.name)));
    if Accounted(c) && Empty(c.device.units[NqnAt(c, op.del.name)]) { EmptyUnitHasNone(c, op.del.name); }
  }

  /** A new controller is created exactly when nothing fails and its id is free and in the device's range: the id it
      asks for on a device that honours it, the id the device picks otherwise. */
  lemma CreateControllerSucceedsExactly(c: Core, op: Op, env: Env)
    requires Shaped(c) && op.CreateControllerOp? && AcceptsCreateController(op.cctrl) && NewKey(op) !in c.store
    ensures Ok(Result(c, op, env).1) <==>
      && Present(c, op.cctrl.parent) && LookupsWork(env) && env.net != [] && env.net[0].Done? && SavesWork(env)
      && var asked := op.cctrl.spec.ctrlrId;
         var id :=
           if c.device.contract.honoursId && asked.Some? && asked.value != NO_ID then asked.value else env.net[0].id;
         InRange(id) && id !in c.device.units[NqnAt(c, op.cctrl.parent)].controllers
  {
    var req := op.cctrl;
    var (s1, found) := GetController(Begin(c, env), NewControllerName(req));
    var (s2, parent) := GetSubsystem(s1, req.parent);
    assert found.Missing? && parent.Found? <==> LookupsWork(env) && StoresSubsystem(c, req.parent);
    if !LookupsWork(env) || !StoresSubsystem(c, req.parent) { return; }
    var command := ControllerCreate(NqnAt(c, req.parent), ParamsOf(req.spec));
    ControllerAnswered(s2, NqnAt(c, req.parent), ParamsOf(req.spec));
    var (s3, reply) := Call(s2, command);
    assert s2.core == c && s2.env.net == env.net && s3.env.saves == env.saves;
    if env.net == [] || !env.net[0].Done? || !Present(c, req.parent) { return; }
    var asked := req.spec.ctrlrId;
    assert AnsweredId(c.device, command, env.net[0].id) ==
      if c.device.contract.honoursId && asked.Some? && asked.value != NO_ID then asked.value else env.net[0].id;
    assert Ok(Result(c, op, env).1) <==> reply.Good? && WriteWorks(s3);
  }

  lemma ControllerAnswered(s: Session, nqn: string, params: ControllerParams)
    requires DeviceShaped(s.core.device)
    ensures Call(s, ControllerCreate(nqn, params)).1.Good? <==>
      && nqn in s.core.device.units && s.env.net != [] && s.env.net[0].Done?
      && var id := AnsweredId(s.core.device, ControllerCreate(nqn, params), s.env.net[0].id);
         InRange(id) && id !in s.core.device.units[nqn].controllers
  {
    if nqn in s.core.device.units {
      var u := s.core.device.units[nqn];
      assert u.minId == 0 && u.maxId == 256;
    }
  }

  // ------------------------------------------------------------------ retried deletes

  /** Equal but for detachments of one namespace from controllers the index knows. */
  ghost predicate Detached(c: Core, c': Core, name: string)
    requires StoresNamespace(c, name) && HasParent(c, name)
  {
    exists ids: set<int> :: ids <= IdsUnder(c, SubsystemIdOf(name)) && IsDetached(c, c', name, ids)
  }

  predicate IsDetached(c: Core, c': Core, name: string, ids: set<int>)
    requires StoresNamespace(c, name) && HasParent(c, name)
  {
    c' == c.(device := Linked(c.device, Detaching, NqnAt(c, ParentName(name)), ids, NsidAt(c, name)))
  }

  lemma NothingDetached(c: Core, name: string)
    requires StoresNamespace(c, name) && HasParent(c, name)
    ensures IsDetached(c, c, name, {}) && Detached(c, c, name)
  {
    LinkedNone(c.device, Detaching, NqnAt(c, ParentName(name)), NsidAt(c, name));
    var none: set<int> := {};
    assert none <= IdsUnder(c, SubsystemIdOf(name)) && IsDetached(c, c, name, none);
  }

  lemma DetachedKeeps(c: Core, c': Core, name: string, ids: set<int>)
    requires StoresNamespace(c, name) && HasParent(c, name) && IsDetached(c, c', name, ids)
    ensures StoresNamespace(c', name) && HasParent(c', name) && NsidAt(c', name) == NsidAt(c, name)
    ensures NqnAt(c', ParentName(name)) == NqnAt(c, ParentName(name))
    ensures IdsUnder(c', SubsystemIdOf(name)) == IdsUnder(c, SubsystemIdOf(name))
  {
    assert forall k :: StoresController(c', k) <==> StoresController(c, k);
  }

  lemma DetachedTwice(a: Core, b: Core, c: Core, name: string)
    requires StoresNamespace(a, name) && HasParent(a, name) && Detached(a, b, name)
    requires StoresNamespace(b, name) && HasParent(b, name) && Detached(b, c, name)
    ensures Detached(a, c, name)
  {
    var i :| i <= IdsUnder(a, SubsystemIdOf(name)) && IsDetached(a, b, name, i);
    DetachedKeeps(a, b, name, i);
    var j :| j <= IdsUnder(b, SubsystemIdOf(name)) && IsDetached(b, c, name, j);
    LinkedTwice(a.device, Detaching, NqnAt(a, ParentName(name)), i, j, NsidAt(a, name));
    assert IsDetached(a, c, name, i + j);
  }

  /** The namespace is still allocated on the device. */
  predicate StillAllocated(c: Core, nqn: string, nsid: int) {
    nqn in c.device.units && nsid in c.device.units[nqn].namespaces
  }

  lemma FailedAttemptDetaches(c: Core, op: Op, env: Env)
    requires Shaped(c) && op.DeleteNamespaceOp? && OrderOk(c, op)
    requires StoresNamespace(c, op.del.name) && HasParent(c, op.del.name)
    requires !Ok(Result(c, op, env).1)
    requires StillAllocated(Step(c, Serve(op, env)), NqnAt(c, ParentName(op.del.name)), NsidAt(c, op.del.name))
    ensures Detached(c, Step(c, Serve(op, env)), op.del.name)
  {
    hide Handle;
    var name := op.del.name;
    if !op.del.accepted || !LookupsWork(env) {
      DeleteTurnedAway(c, op, env);
      NothingDetached(c, name);
      return;
    }
    var n := FailedDeleteLeavesExactly(c, op, env);
    var m := DeleteOutcome(c, op, env);
    var keys, s, sid := Targets(op.order, ParentName(name)), AfterLookups(c, env), SubsystemIdOf(name);
    if n < |keys| {
      var k := LinkedKeys(s, Detaching, keys, NqnAt(c, ParentName(name)), NsidAt(c, name), n);
      ReadsOfIndexed(c, keys, k, sid);
      assert IsDetached(c, Step(c, Serve(op, env)), name, IdSet(c, keys[..k]));
      return;
    }
    assert IsDetached(c, Step(c, Serve(op, env)), name, IdsUnder(c, sid));
  }

  /** Delete attempts on one namespace that all fail, in any order of the loop, at any point, a lost detach possibly
      done; only the namespace itself is not lost from the device behind a failed answer or a failed write. */
  ghost predicate FailedAttempts(c: Core, name: string, events: seq<Event>, nqn: string, nsid: int)
    decreases |events|
  {
    events == [] ||
    (var e := events[0];
     && e.Serve? && e.op.DeleteNamespaceOp? && e.op.del.name == name && OrderOk(c, e.op)
     && !Ok(Result(c, e.op, e.env).1)
     && StillAllocated(Step(c, e), nqn, nsid) && FailedAttempts(Step(c, e), name, events[1..], nqn, nsid))
  }

  lemma {:induction false} AttemptsDetach(c: Core, name: string, events: seq<Event>)
    requires Shaped(c) && StoresNamespace(c, name) && HasParent(c, name)
    requires FailedAttempts(c, name, events, NqnAt(c, ParentName(name)), NsidAt(c, name))
    ensures Detached(c, Run(c, events), name) && Shaped(Run(c, events))
    decreases |events|
  {
    hide Handle;
    if events == [] {
      NothingDetached(c, name);
      return;
    }
    var e := events[0];
    var c' := Step(c, e);
    FailedAttemptDetaches(c, e.op, e.env);
    var ids :| ids <= IdsUnder(c, SubsystemIdOf(name)) && IsDetached(c, c', name, ids);
    DetachedKeeps(c, c', name, ids);
    FirstAttempt(c, name, events);
    AttemptsDetach(c', name, events[1..]);
    DetachedTwice(c, c', Run(c, events), name);
  }

  lemma FirstAttempt(c: Core, name: string, events: seq<Event>)
    requires Shaped(c) && events != [] && StoresNamespace(c, name) && HasParent(c, name)
    requires FailedAttempts(c, name, events, NqnAt(c, ParentName(name)), NsidAt(c, name))
    ensures Shaped(Step(c, events[0])) && Run(c, events) == Run(Step(c, events[0]), events[1..])
  {
    ShapeStep(c, events[0]);
  }

  /** Whatever was detached before, a success ends in the same state, and the device lets go exactly as before. */
  lemma SameEnd(c: Core, c': Core, name: string, ids: set<int>)
    requires StoresNamespace(c, name) && HasParent(c, name)
    requires ids <= IdsUnder(c, SubsystemIdOf(name)) && IsDetached(c, c', name, ids)
    ensures StoresNamespace(c', name) && HasParent(c', name) && Deleted(c', name) == Deleted(c, name)
    ensures LetsGo(c', name) <==> LetsGo(c, name)
    ensures Holders(ParentUnit(c', name), NsidAt(c, name)) == Holders(ParentUnit(c, name), NsidAt(c, name)) - ids
  {
    var nqn, nsid, all := NqnAt(c, ParentName(name)), NsidAt(c, name), IdsUnder(c, SubsystemIdOf(name));
    DetachedKeeps(c, c', name, ids);
    var u, u' := ParentUnit(c, name), ParentUnit(c', name);
    DetachedHolders(u, u', ids, nsid);
    assert u.attached - Pairs(ids, nsid) - Pairs(all, nsid) == u.attached - Pairs(all, nsid);
    assert Deleted(c, name).device.units == Deleted(c', name).device.units;
    assert Holders(u', nsid) <= all <==> Holders(u, nsid) <= all by {
      assert forall i :: i in Holders(u, nsid) ==> i in ids || i in Holders(u', nsid);
    }
  }

  /** On a device that does not detach what is not attached, a subsystem that was welcoming is no longer so once
      anything has been detached. */
  lemma WelcomingAgain(c: Core, c': Core, name: string, ids: set<int>)
    requires StoresNamespace(c, name) && HasParent(c, name)
    requires ids <= IdsUnder(c, SubsystemIdOf(name)) && IsDetached(c, c', name, ids)
    requires HasParent(c', name) && StoresNamespace(c', name) && SubsystemIdOf(ParentName(name)) == SubsystemIdOf(name)
    ensures var spaces, nsid := ParentUnit(c, name).namespaces, NsidAt(c, name);
      Welcoming(c', Detaching, ParentName(name), ParentUnit(c', name).namespaces, nsid) <==>
        Welcoming(c, Detaching, ParentName(name), spaces, nsid) && (c.device.contract.idempotentLinks || c' == c)
  {
    SameEnd(c, c', name, ids);
    DetachedKeeps(c, c', name, ids);
    var held, all := Holders(ParentUnit(c, name), NsidAt(c, name)), IdsUnder(c, SubsystemIdOf(name));
    if all <= held - ids {
      assert forall i :: i in ids ==> i in held - ids;
      assert ids == {};
    }
    NothingDetached(c, name);
  }

  /** Nothing fails: the store works and there are enough answers, all of zero status. */
  ghost predicate AllYes(env: Env, calls: nat) {
    env.loads == [] && env.saves == [] && |env.net| >= calls && forall i :: 0 <= i < |env.net| ==> env.net[i].Done?
  }

  /** Any number of failed attempts followed by a success leaves the state that a single success would have left. And
      an attempt in which nothing fails does succeed afterwards exactly if it would have succeeded at first and, on a
      device that does not detach what is not attached, none of the failed attempts has detached anything. */
  lemma RetriedDeleteConverges(c: Core, name: string, events: seq<Event>, op: Op, env: Env)
    requires Shaped(c) && StoresNamespace(c, name) && HasParent(c, name)
    requires FailedAttempts(c, name, events, NqnAt(c, ParentName(name)), NsidAt(c, name))
    requires op.DeleteNamespaceOp? && op.del.name == name && op.del.accepted && OrderOk(c, op)
    ensures Ok(Result(Run(c, events), op, env).1) ==> Result(Run(c, events), op, env).0.core == Deleted(c, name)
    ensures ControllersBacked(c) && AllYes(env, |Targets(op.order, ParentName(name))| + 1) ==>
      (Ok(Result(Run(c, events), op, env).1) <==>
         Ok(Result(c, op, env).1) && (c.device.contract.idempotentLinks || Run(c, events) == c))
  {
    hide Handle;
    AttemptsDetach(c, name, events);
    var c' := Run(c, events);
    var ids :| ids <= IdsUnder(c, SubsystemIdOf(name)) && IsDetached(c, c', name, ids);
    SameEnd(c, c', name, ids);
    if Ok(Result(c', op, env).1) { DeleteInAnyOrder(c', op, env); }
    if ControllersBacked(c) && AllYes(env, |Targets(op.order, ParentName(name))| + 1) {
      RetrySucceedsExactly(c, c', name, ids, op, env);
    }
  }

  lemma RetrySucceedsExactly(c: Core, c': Core, name: string, ids: set<int>, op: Op, env: Env)
    requires Shaped(c) && Shaped(c') && ControllersBacked(c) && StoresNamespace(c, name) && HasParent(c, name)
    requires ids <= IdsUnder(c, SubsystemIdOf(name)) && IsDetached(c, c', name, ids)
    requires op.DeleteNamespaceOp? && op.del.name == name && op.del.accepted && OrderOk(c, op)
    requires AllYes(env, |Targets(op.order, ParentName(name))| + 1)
    ensures Ok(Result(c', op, env).1) <==> Ok(Result(c, op, env).1) && (c.device.contract.idempotentLinks || c' == c)
  {
    hide Handle;
    hide Welcoming, LetsGo;
    SameEnd(c, c', name, ids);
    assert StoredWell(name, c.store[name]);
    ParentNameParses(name);
    WelcomingAgain(c, c', name, ids);
    ControllersGrow(c, c');
    DeleteSucceedsExactly(c, op, env);
    DeleteSucceedsExactly(c', op, env);
  }
}
