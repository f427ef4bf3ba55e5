/** What a request has to be to be looked at, field by field, and under which name what it creates is kept. */
module Requests {
  import opened Names
  import opened Bridge
  import opened Handlers
  import opened Runs
  import opened Shape
  import opened Effects
  import opened Agreement
  import Nqn

  // ------------------------------------------------------------------ which requests are turned away unseen

  /** The limits and the pattern for the three texts of a subsystem. */
  ghost predicate TextsFit(spec: SubsystemSpec) {
    |spec.nqn| <= 223 && |spec.serial| <= 20 && |spec.model| <= 40
    && exists p :: Nqn.WellFormed(p) && Nqn.Render(p) == spec.nqn
  }

  /** What the program demands of each request before it looks anything up: that the library checks passed, that an id
      the client chose has no '/', and what follows here. */
  ghost predicate Acceptable(op: Op) {
    match op
    case CreateSubsystemOp(req, _) => req.accepted && '/' !in req.userId && TextsFit(req.spec)
    case CreateControllerOp(req) =>
      req.accepted && '/' !in req.userId && req.spec.transport == Pcie && req.spec.endpoint.Some?
    case CreateNamespaceOp(req, _) => req.accepted && '/' !in req.userId
    case UpdateControllerOp(req) => req.accepted && req.spec.transport == Pcie && req.spec.endpoint.Some?
    case DeleteSubsystemOp(req) => req.accepted
    case DeleteControllerOp(req) => req.accepted
    case DeleteNamespaceOp(req, _) => req.accepted
    case GetSubsystemOp(req) => req.accepted
    case GetControllerOp(req) => req.accepted
    case GetNamespaceOp(req) => req.accepted
    case ListSubsystemsOp(req, _) => req.accepted && req.pageSize >= 0
    case ListChildrenOp(_, req, _) => req.accepted && req.pageSize >= 0
  }

  /** The field mask of an update is looked at only once the controller is found. */
  predicate MaskRefused(c: Core, op: Op, env: Env) {
    op.UpdateControllerOp? && !op.upd.maskAccepted && StoresController(c, op.upd.name)
    && (env.loads == [] || env.loads[0])
  }

  lemma AcceptsSpelledOut(op: Op)
    requires IsCreate(op)
    ensures Accepts(op) <==> Acceptable(op)
  {
    if op.CreateSubsystemOp? { Nqn.CheckIsExact(op.csub.spec.nqn, op.csub.spec.serial, op.csub.spec.model); }
  }

  lemma CreateInvalid(c: Core, op: Op, env: Env)
    requires IsCreate(op)
    ensures Result(c, op, env).1 == Rejected(InvalidRequest) <==> !Accepts(op)
    ensures !Accepts(op) ==> Result(c, op, env).0 == Begin(c, env)
  {
    var s := Begin(c, env);
    match op
    case CreateSubsystemOp(req, order) =>
      var (s1, found) := GetSubsystem(s, NewSubsystemName(req));
      ScanErrors(s1, order, req.spec.nqn);
    case CreateControllerOp(req) =>
    case CreateNamespaceOp(req, order) =>
      var (s1, found) := GetNamespace(s, NewNamespaceName(req));
      var (s2, parent) := GetSubsystem(s1, req.parent);
      if !parent.Found? { return; }
      var (s3, reply) := Call(s2, AllocCommand(parent.value.spec.nqn, req.spec));
      VisitErrors(s3, Attaching, order, parent.value, SubsystemIdOf(req.parent), req.spec.hostNsid);
  }

  lemma DeleteInvalid(c: Core, op: Op, env: Env)
    requires IsDelete(op)
    ensures Result(c, op, env).1 == Rejected(InvalidRequest) <==> !Acceptable(op)
    ensures !Acceptable(op) ==> Result(c, op, env).0 == Begin(c, env)
  {
    if op.DeleteNamespaceOp? {
      var (s1, found) := GetNamespace(Begin(c, env), op.del.name);
      var (s2, parent) := GetSubsystem(s1, ParentName(op.del.name));
      if !found.Found? || !parent.Found? { return; }
      VisitErrors(s2, Detaching, op.order, parent.value, SubsystemIdOf(op.del.name), found.value.spec.hostNsid);
    }
  }

  lemma QueryInvalid(c: Core, op: Op, env: Env)
    requires IsQuery(op)
    ensures Result(c, op, env).1 == Rejected(InvalidRequest) <==> !Acceptable(op)
    ensures !Acceptable(op) ==> Result(c, op, env).0 == Begin(c, env)
  {
  }

  lemma UpdateInvalid(c: Core, op: Op, env: Env)
    requires op.UpdateControllerOp?
    ensures Result(c, op, env).1 == Rejected(InvalidRequest) <==> !Acceptable(op) || MaskRefused(c, op, env)
    ensures !Acceptable(op) ==> Result(c, op, env).0 == Begin(c, env)
    ensures MaskRefused(c, op, env) ==> Result(c, op, env).0.core == c && Result(c, op, env).0.log == []
  {
  }

  /** A request is answered as invalid exactly when it does not meet these demands, or its field mask is refused; then
      nothing is sent and nothing changes. */
  lemma InvalidExactly(c: Core, op: Op, env: Env)
    ensures var (s, r) := Result(c, op, env);
      && (r == Rejected(InvalidRequest) <==> !Acceptable(op) || MaskRefused(c, op, env))
      && (r == Rejected(InvalidRequest) ==> s.core == c && s.log == [])
      && (!Acceptable(op) ==> s == Begin(c, env))
  {
    hide Handle;
    if IsCreate(op) {
      AcceptsSpelledOut(op);
      CreateInvalid(c, op, env);
    }
    else if IsDelete(op) { DeleteInvalid(c, op, env); }
    else if op.UpdateControllerOp? { UpdateInvalid(c, op, env); }
    else { QueryInvalid(c, op, env); }
  }

  // ------------------------------------------------------------------ under which name

  /** The id the client chose, or the generated one if it chose none. */
  predicate CarriesId(name: string, prefix: string, userId: string, freshId: string) {
    (userId != [] ==> name == prefix + userId) && (userId == [] ==> name == prefix + freshId)
  }

  /** What the answer to a create has to be called: by the id the client chose, or the generated one if it chose none,
      under the subsystem its parent names. */
  predicate NamedAsAsked(op: Op, name: string)
    requires IsCreate(op)
  {
    match op
    case CreateSubsystemOp(req, _) => CarriesId(name, "nvmeSubsystems/", req.userId, req.freshId)
    case CreateControllerOp(req) =>
      CarriesId(name, "nvmeSubsystems/" + SubsystemIdOf(req.parent) + "/nvmeControllers/", req.userId, req.freshId)
    case CreateNamespaceOp(req, _) =>
      CarriesId(name, "nvmeSubsystems/" + SubsystemIdOf(req.parent) + "/nvmeNamespaces/", req.userId, req.freshId)
  }

  lemma NewKeyIsAsAsked(op: Op)
    requires IsCreate(op)
    ensures forall name :: NamedAsAsked(op, name) <==> name == NewKey(op)
  {
    match op
    case CreateSubsystemOp(req, _) => SubsystemSpelledOut(if req.userId != [] then req.userId else req.freshId);
    case CreateControllerOp(req) =>
      ControllerSpelledOut(SubsystemIdOf(req.parent), if req.userId != [] then req.userId else req.freshId);
    case CreateNamespaceOp(req, _) =>
      NamespaceSpelledOut(SubsystemIdOf(req.parent), if req.userId != [] then req.userId else req.freshId);
  }

  /** A successful create answers an object of its kind, named as asked, and that object is what is stored under that
      name afterwards, new or from before. */
  lemma CreatedIsNamedAsAsked(c: Core, op: Op, env: Env)
    requires Shaped(c) && IsCreate(op) && FreshIdOk(op) && Ok(Result(c, op, env).1)
    ensures var r, c' := Result(c, op, env).1, Step(c, Serve(op, env));
      && r.Returned? && SameKind(r.item, op) && NamedAsAsked(op, NameOf(r.item))
      && NameOf(r.item) in c'.store && c'.store[NameOf(r.item)] == r.item
  {
    hide Handle;
    CreateEffects(c, op, env);
    CreatedIsOfItsKind(c, op, env);
    ShapeStep(c, Serve(op, env));
    NewKeyIsAsAsked(op);
    var c' := Step(c, Serve(op, env));
    assert StoredWell(NewKey(op), c'.store[NewKey(op)]);
  }

  /** The parent of what is created, where that is a subsystem's name: the name is the parent's, the collection and the
      id. */
  lemma NamedUnderParent(op: Op, name: string)
    requires (op.CreateControllerOp? || op.CreateNamespaceOp?) && NamedAsAsked(op, name)
    requires IsSubsystemName(if op.CreateControllerOp? then op.cctrl.parent else op.cns.parent)
    ensures op.CreateControllerOp? ==>
      CarriesId(name, op.cctrl.parent + "/nvmeControllers/", op.cctrl.userId, op.cctrl.freshId)
    ensures op.CreateNamespaceOp? ==>
      CarriesId(name, op.cns.parent + "/nvmeNamespaces/", op.cns.userId, op.cns.freshId)
  {
    var parent := if op.CreateControllerOp? then op.cctrl.parent else op.cns.parent;
    NameIsRebuilt(parent);
    SubsystemSpelledOut(SubsystemIdOf(parent));
  }

  // ------------------------------------------------------------------ asking again

  /** The same kind of resource under the same parent by the same id of the client's choice; all else may differ. */
  predicate AsksForSame(op: Op, again: Op) {
    match op
    case CreateSubsystemOp(req, _) => again.CreateSubsystemOp? && req.userId != [] && again.csub.userId == req.userId
    case CreateControllerOp(req) =>
      && again.CreateControllerOp? && req.userId != [] && again.cctrl.userId == req.userId
      && again.cctrl.parent == req.parent
    case CreateNamespaceOp(req, _) =>
      && again.CreateNamespaceOp? && req.userId != [] && again.cns.userId == req.userId
      && again.cns.parent == req.parent
    case _ => false
  }

  /** A client that repeats a create with the id it chose gets the first answer, with no command sent and nothing
      changed, whatever ids were generated meanwhile, after any run in which no delete or update of the resource
      succeeds. */
  lemma AskingAgainIsIdempotent(c: Core, op: Op, env: Env, events: seq<Event>, again: Op, env': Env)
    requires Shaped(c) && IsCreate(op) && FreshIdOk(op) && Result(c, op, env).1.Returned?
    requires AllSpare(Step(c, Serve(op, env)), events, NameOf(Result(c, op, env).1.item))
    requires forall e :: e in events ==> Plausible(e)
    requires AsksForSame(op, again) && Acceptable(again) && (env'.loads == [] || env'.loads[0])
    ensures var before := Run(Step(c, Serve(op, env)), events);
      var (s', r) := Result(before, again, env');
      r == Result(c, op, env).1 && s'.log == [] && s'.core == before
  {
    hide Handle;
    CreatedIsNamedAsAsked(c, op, env);
    NewKeyIsAsAsked(op);
    NewKeyIsAsAsked(again);
    AcceptsSpelledOut(again);
    assert NamedAsAsked(again, NewKey(op));
    RepeatedCreateIsIdempotent(c, op, env, events, again, env');
  }
}
