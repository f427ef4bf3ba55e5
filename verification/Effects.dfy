/** What one create, delete or update can do to index and store. */
module Effects {
  import opened Names
  import opened Device
  import opened Bridge
  import opened Handlers
  import opened Runs
  import opened Shape

  predicate IsCreate(op: Op) {
    op.CreateSubsystemOp? || op.CreateControllerOp? || op.CreateNamespaceOp?
  }

  function NewKey(op: Op): string
    requires IsCreate(op)
  {
    match op
    case CreateSubsystemOp(req, _) => NewSubsystemName(req)
    case CreateControllerOp(req) => NewControllerName(req)
    case CreateNamespaceOp(req, _) => NewNamespaceName(req)
  }

  predicate Accepts(op: Op)
    requires IsCreate(op)
  {
    match op
    case CreateSubsystemOp(req, _) => AcceptsCreateSubsystem(req)
    case CreateControllerOp(req) => AcceptsCreateController(req)
    case CreateNamespaceOp(req, _) => AcceptsCreateNamespace(req)
  }

  predicate SameKind(o: Object, op: Op) {
    || (op.CreateSubsystemOp? && o.SubsystemObject?)
    || (op.CreateControllerOp? && o.ControllerObject?)
    || (op.CreateNamespaceOp? && o.NamespaceObject?)
  }

  // ------------------------------------------------------------------ one step

  predicate SameConfiguration(c: Core, c': Core) {
    c'.scan == c.scan && c'.pagination == c.pagination && c'.device.contract == c.device.contract
  }

  /** Nothing recorded; or marked but not stored; or marked and stored, which answers the stored object. */
  predicate CreateEffect(c: Core, env: Env, c': Core, r: Response, key: string) {
    && SameConfiguration(c, c')
    && (|| (c'.index == c.index && c'.store == c.store && r != Rejected(WriteFailed) && (Ok(r) ==> key in c.store))
        || (key !in c.store && c'.index == c.index[key := false] && c'.store == c.store && r == Rejected(WriteFailed))
        || (key !in c.store && c'.index == c.index[key := false] && r.Returned? && c'.store == c.store[key := r.item]))
    && (Ok(r) ==> r.Returned? && key in c'.store && c'.store[key] == r.item)
    && (r == Rejected(WriteFailed) ==> !WritesSucceed(env))
  }

  /** Nothing erased; or cleared from the index but still stored; or gone from both. */
  predicate DeleteEffect(c: Core, env: Env, c': Core, r: Response, key: string) {
    && SameConfiguration(c, c')
    && (|| (c'.index == c.index && c'.store == c.store && r != Rejected(WriteFailed))
        || (key in c.store && c'.index == c.index - {key} && c'.store == c.store && r == Rejected(WriteFailed))
        || (key in c.store && c'.index == c.index - {key} && c'.store == c.store - {key} && Ok(r)))
    && (r == Rejected(WriteFailed) ==> !WritesSucceed(env))
  }

  /** The index never changes; the stored controller is replaced by the one answered, or kept. */
  predicate UpdateEffect(c: Core, env: Env, c': Core, r: Response, key: string) {
    && SameConfiguration(c, c')
    && c'.index == c.index
    && (|| (!Ok(r) && c'.store == c.store)
        || (key in c.store && r.Returned? && r.item.ControllerObject? && NameOf(r.item) == key
            && c'.store == c.store[key := r.item]))
  }

  lemma SaveEffect(c: Core, env: Env, s: Session, key: string, o: Object)
    requires s.core == c.(device := s.core.device) && s.core.device.contract == c.device.contract && key !in c.store
    requires s.env.saves == env.saves
    ensures var (s', r) := SaveNew(s, key, o); CreateEffect(c, env, s'.core, r, key)
  {
    assert !WriteWorks(s) ==> env.saves[0] in env.saves;
  }

  lemma ForgetEffect(c: Core, env: Env, s: Session, key: string)
    requires s.core == c.(device := s.core.device) && s.core.device.contract == c.device.contract && key in c.store
    requires s.env.saves == env.saves
    ensures var (s', r) := Forget(s, key); DeleteEffect(c, env, s'.core, r, key)
  {
    assert !WriteWorks(s) ==> env.saves[0] in env.saves;
  }

  lemma {:induction false} ScanErrors(s: Session, order: seq<string>, nqn: string)
    ensures ScanForNqn(s, order, nqn).1 in {None, Some(ReadFailed), Some(NotFound), Some(AlreadyExists)}
    decreases |order|
  {
    if order != [] {
      if s.core.scan.Selects(order[0]) {
        ScanErrors(GetSubsystem(s, order[0]).0, order[1..], nqn);
      } else {
        ScanErrors(s, order[1..], nqn);
      }
    }
  }

  lemma {:induction false} VisitErrors(
      s: Session, link: Link, order: seq<string>, subsys: Subsystem, subsysId: string, nsid: int)
    ensures Visit(s, link, order, subsys, subsysId, nsid).1 in
        {None, Some(ReadFailed), Some(NotFound), Some(NilDereference), Some(TransportFailed), Some(DeviceRefused)}
    decreases |order|
  {
    if order != [] {
      if ControllerPrefixTest(order[0], subsys.name) {
        var (s1, found) := GetController(s, order[0]);
        VisitErrors(s1, link, order[1..], subsys, subsysId, nsid);
        if found.Found? && found.value.spec.ctrlrId.Some? {
          VisitErrors(Call(s1, link.CommandFor(subsys.spec.nqn, found.value.spec.ctrlrId.value, nsid)).0, link,
            order[1..], subsys, subsysId, nsid);
        }
      } else {
        VisitErrors(s, link, order[1..], subsys, subsysId, nsid);
      }
    }
  }

  lemma CreateSubsystemEffect(s: Session, req: CreateSubsystemRequest, order: seq<string>)
    ensures var (s', r) := CreateSubsystem(s, req, order);
      CreateEffect(s.core, s.env, s'.core, r, NewSubsystemName(req))
  {
    var name := NewSubsystemName(req);
    var (s1, found) := GetSubsystem(s, name);
    if found.Missing? {
      var (s2, objection) := ScanForNqn(s1, order, req.spec.nqn);
      ScanErrors(s1, order, req.spec.nqn);
      var (s3, reply) := Call(s2, CreationCommand(req.spec));
      var (s4, version) := Call(s3, GetVersion);
      SaveEffect(s.core, s.env, s4, name, SubsystemObject(Subsystem(name, req.spec, FirstText(version))));
    }
  }

  lemma CreateControllerEffect(s: Session, req: CreateControllerRequest)
    ensures var (s', r) := CreateController(s, req); CreateEffect(s.core, s.env, s'.core, r, NewControllerName(req))
  {
    var name := NewControllerName(req);
    var (s1, found) := GetController(s, name);
    if found.Missing? {
      var (s2, parent) := GetSubsystem(s1, req.parent);
      if parent.Found? {
        var (s3, reply) := Call(s2, ControllerCreate(parent.value.spec.nqn, ParamsOf(req.spec)));
        if reply.Good? {
          SaveEffect(s.core, s.env, s3, name, ControllerObject(Controller(name,
            req.spec.(ctrlrId := Some(Int32(reply.id))), true)));
        }
      }
    }
  }

  lemma CreateNamespaceEffect(s: Session, req: CreateNamespaceRequest, order: seq<string>)
    ensures var (s', r) := CreateNamespace(s, req, order);
      CreateEffect(s.core, s.env, s'.core, r, NewNamespaceName(req))
  {
    var name := NewNamespaceName(req);
    var (s1, found) := GetNamespace(s, name);
    if found.Missing? {
      var (s2, parent) := GetSubsystem(s1, req.parent);
      if parent.Found? {
        var (s3, reply) := Call(s2, AllocCommand(parent.value.spec.nqn, req.spec));
        VisitErrors(s3, Attaching, order, parent.value, SubsystemIdOf(req.parent), req.spec.hostNsid);
        var (s4, stopped) := Visit(s3, Attaching, order, parent.value, SubsystemIdOf(req.parent), req.spec.hostNsid);
        SaveEffect(s.core, s.env, s4, name, NamespaceObject(Namespace(name, req.spec, true)));
      }
    }
  }

  lemma DeleteSubsystemEffect(s: Session, req: DeleteRequest)
    requires Shaped(s.core)
    ensures var (s', r) := DeleteSubsystem(s, req); DeleteEffect(s.core, s.env, s'.core, r, req.name)
  {
    var (s1, found) := GetSubsystem(s, req.name);
    if found.Found? {
      assert StoredWell(req.name, s.core.store[req.name]);
      ForgetEffect(s.core, s.env, Call(s1, SubsystemDelete(found.value.spec.nqn)).0, req.name);
    }
  }

  lemma DeleteControllerEffect(s: Session, req: DeleteRequest)
    requires Shaped(s.core)
    ensures var (s', r) := DeleteController(s, req); DeleteEffect(s.core, s.env, s'.core, r, req.name)
  {
    var (s1, found) := GetController(s, req.name);
    if found.Found? {
      assert StoredWell(req.name, s.core.store[req.name]);
      var (s2, parent) := GetSubsystem(s1, ParentName(req.name));
      if parent.Found? {
        ForgetEffect(s.core, s.env, Call(s2, ControllerRemove(parent.value.spec.nqn, found.value.spec.ctrlrId.value,
          1)).0, req.name);
      }
    }
  }

  lemma DeleteNamespaceEffect(s: Session, req: DeleteRequest, order: seq<string>)
    requires Shaped(s.core)
    ensures var (s', r) := DeleteNamespace(s, req, order); DeleteEffect(s.core, s.env, s'.core, r, req.name)
  {
    var (s1, found) := GetNamespace(s, req.name);
    if found.Found? {
      assert StoredWell(req.name, s.core.store[req.name]);
      var (s2, parent) := GetSubsystem(s1, ParentName(req.name));
      if parent.Found? {
        var nsid := found.value.spec.hostNsid;
        VisitErrors(s2, Detaching, order, parent.value, SubsystemIdOf(req.name), nsid);
        var (s3, stopped) := Visit(s2, Detaching, order, parent.value, SubsystemIdOf(req.name), nsid);
        ForgetEffect(s.core, s.env, Call(s3, NamespaceUnalloc(parent.value.spec.nqn, nsid)).0, req.name);
      }
    }
  }

  lemma UpdateControllerEffect(s: Session, req: UpdateControllerRequest)
    ensures var (s', r) := UpdateNvmeController(s, req); UpdateEffect(s.core, s.env, s'.core, r, req.name)
  {
    var (s1, found) := GetController(s, req.name);
    if found.Found? {
      var (s2, parent) := GetSubsystem(s1, ParentName(req.name));
      if parent.Found? {
        var (s3, reply) := Call(s2, ControllerUpdate(parent.value.spec.nqn, ParamsOf(req.spec)));
      }
    }
  }

  lemma CreateEffects(c: Core, op: Op, env: Env)
    requires IsCreate(op)
    ensures var (s', r) := Result(c, op, env); CreateEffect(c, env, s'.core, r, NewKey(op))
  {
    hide CreateSubsystem, DeleteSubsystem, CreateController, DeleteController, UpdateNvmeController;
    hide CreateNamespace, DeleteNamespace;
    match op
    case CreateSubsystemOp(req, order) => CreateSubsystemEffect(Begin(c, env), req, order);
    case CreateControllerOp(req) => CreateControllerEffect(Begin(c, env), req);
    case CreateNamespaceOp(req, order) => CreateNamespaceEffect(Begin(c, env), req, order);
  }

  /** A delete erases the name of the object it fetched; by self-naming that is the requested key and no other. */
  lemma DeleteEffects(c: Core, op: Op, env: Env)
    requires IsDelete(op) && Shaped(c)
    ensures var (s', r) := Result(c, op, env); DeleteEffect(c, env, s'.core, r, op.del.name)
  {
    hide CreateSubsystem, DeleteSubsystem, CreateController, DeleteController, UpdateNvmeController;
    hide CreateNamespace, DeleteNamespace;
    match op
    case DeleteSubsystemOp(req) => DeleteSubsystemEffect(Begin(c, env), req);
    case DeleteControllerOp(req) => DeleteControllerEffect(Begin(c, env), req);
    case DeleteNamespaceOp(req, order) => DeleteNamespaceEffect(Begin(c, env), req, order);
  }

  lemma UpdateEffects(c: Core, op: Op, env: Env)
    requires op.UpdateControllerOp?
    ensures var (s', r) := Result(c, op, env); UpdateEffect(c, env, s'.core, r, op.upd.name)
  {
    hide UpdateNvmeController;
    UpdateControllerEffect(Begin(c, env), op.upd);
  }

  lemma QueryEffects(c: Core, op: Op, env: Env)
    requires IsQuery(op)
    ensures var c' := Result(c, op, env).0.core; c' == c.(pagination := c'.pagination)
  {
    QueryFine(Begin(c, env), op);
  }

  lemma CreatedSubsystemKind(s: Session, req: CreateSubsystemRequest, order: seq<string>)
    ensures var r := CreateSubsystem(s, req, order).1;
      Ok(r) ==> AcceptsCreateSubsystem(req) && r.Returned? && r.item.SubsystemObject?
  {
  }

  lemma CreatedControllerKind(s: Session, req: CreateControllerRequest)
    ensures var r := CreateController(s, req).1; Ok(r) ==>
      AcceptsCreateController(req) && r.Returned? && r.item.ControllerObject?
  {
  }

  lemma CreatedNamespaceKind(s: Session, req: CreateNamespaceRequest, order: seq<string>)
    ensures var r := CreateNamespace(s, req, order).1; Ok(r) ==>
      AcceptsCreateNamespace(req) && r.Returned? && r.item.NamespaceObject?
  {
  }

  lemma CreatedIsOfItsKind(c: Core, op: Op, env: Env)
    requires IsCreate(op) && Ok(Result(c, op, env).1)
    ensures Accepts(op) && Result(c, op, env).1.Returned? && SameKind(Result(c, op, env).1.item, op)
  {
    hide CreateSubsystem, CreateController, CreateNamespace;
    match op
    case CreateSubsystemOp(req, order) => CreatedSubsystemKind(Begin(c, env), req, order);
    case CreateControllerOp(req) => CreatedControllerKind(Begin(c, env), req);
    case CreateNamespaceOp(req, order) => CreatedNamespaceKind(Begin(c, env), req, order);
  }

  /** A delete of a controller or namespace does nothing to a subsystem. */
  lemma DeletesOnlyItsKind(c: Core, op: Op, env: Env)
    requires (op.DeleteControllerOp? || op.DeleteNamespaceOp?) && StoresSubsystem(c, op.del.name)
    ensures Step(c, Serve(op, env)) == c
  {
  }

  lemma NoNewSubsystem(c: Core, op: Op, env: Env)
    requires Shaped(c) && FreshIdOk(op) && !op.CreateSubsystemOp?
    ensures var c' := Step(c, Serve(op, env));
      forall k :: StoresSubsystem(c', k) ==> StoresSubsystem(c, k) && NqnAt(c', k) == NqnAt(c, k)
  {
    hide Handle;
    if IsCreate(op) {
      CreateEffects(c, op, env);
      if Ok(Result(c, op, env).1) { CreatedIsOfItsKind(c, op, env); }
    } else if IsDelete(op) {
      DeleteEffects(c, op, env);
    } else if op.UpdateControllerOp? {
      UpdateEffects(c, op, env);
    } else {
      QueryEffects(c, op, env);
    }
  }
}
