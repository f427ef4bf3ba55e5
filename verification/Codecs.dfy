/** Records read as another kind. The encoding of the store carries no kind, so what becomes of such a read is up to
    the codec. For requests that name their own kind it makes no difference; for those that do not, this is what it
    takes to go wrong. */
module Codecs {
  import opened Names
  import opened Text
  import opened Device
  import opened Bridge
  import opened Handlers
  import opened Runs
  import opened Shape
  import opened Effects

  predicate NamesSubsystem(name: string) {
    IsResourceName(name) ==> IsSubsystemName(name)
  }

  predicate NamesNamespace(name: string) {
    IsResourceName(name) ==> IsNamespaceName(name)
  }

  /** Each name in the request is one of the kind it is read as, or no resource's name. */
  predicate NamesOwnKind(op: Op) {
    match op
    case CreateSubsystemOp(_, _) => true
    case DeleteSubsystemOp(req) => NamesSubsystem(req.name)
    case GetSubsystemOp(req) => NamesSubsystem(req.name)
    case CreateControllerOp(req) => NamesSubsystem(req.parent)
    case DeleteControllerOp(req) => NamesController(req.name)
    case UpdateControllerOp(req) => NamesController(req.name)
    case GetControllerOp(req) => NamesController(req.name)
    case CreateNamespaceOp(req, _) => NamesSubsystem(req.parent)
    case DeleteNamespaceOp(req, _) => NamesNamespace(req.name)
    case GetNamespaceOp(req) => NamesNamespace(req.name)
    case ListSubsystemsOp(_, _) => true
    case ListChildrenOp(_, req, _) => NamesSubsystem(req.parent)
  }

  /** The duplicate scan reads no controller or namespace. */
  ghost predicate SparesOthers(f: ScanFilter) {
    forall k :: f.Selects(k) ==> NamesSubsystem(k)
  }

  /** True of the program's filter, and of one that recognises subsystem names. */
  lemma FiltersSpareOthers()
    ensures SparesOthers(LITERAL_FILTER) && SparesOthers(ByShape)
  {
  }

  // ------------------------------------------------------------------ single reads

  lemma SubsystemReadAlike(s: Session, key: string, codec: Codec)
    requires Shaped(s.core) && NamesSubsystem(key)
    ensures GetSubsystem(s, key, codec) == GetSubsystem(s, key)
  {
    if key in s.core.store { assert StoredWell(key, s.core.store[key]); }
  }

  lemma ControllerReadAlike(s: Session, key: string, codec: Codec)
    requires Shaped(s.core) && NamesController(key)
    ensures GetController(s, key, codec) == GetController(s, key)
  {
    if key in s.core.store { assert StoredWell(key, s.core.store[key]); }
  }

  lemma NamespaceReadAlike(s: Session, key: string, codec: Codec)
    requires Shaped(s.core) && NamesNamespace(key)
    ensures GetNamespace(s, key, codec) == GetNamespace(s, key)
  {
    if key in s.core.store { assert StoredWell(key, s.core.store[key]); }
  }

  lemma IdHasNoSlash(name: string)
    ensures '/' !in SubsystemIdOf(name)
  {
    JoinSplit(name, '/');
    var parts := Split(name, '/');
    if |parts| >= 2 { assert parts[1] in parts; }
  }

  lemma ParentNamesSubsystem(name: string)
    ensures NamesSubsystem(ParentName(name))
  {
    IdHasNoSlash(name);
    SubsystemNameParses(SubsystemIdOf(name));
  }

  lemma NewNamesOfTheirKind(parent: string, userId: string, freshId: string)
    requires AcceptableId(userId) && ValidId(freshId)
    ensures NamesSubsystem(SubsystemName(ChosenId(userId, freshId)))
    ensures NamesController(ControllerName(SubsystemIdOf(parent), ChosenId(userId, freshId)))
    ensures NamesNamespace(NamespaceName(SubsystemIdOf(parent), ChosenId(userId, freshId)))
  {
    IdHasNoSlash(parent);
    SubsystemNameParses(ChosenId(userId, freshId));
    ChildNameParses(SubsystemIdOf(parent), CONTROLLERS, ChosenId(userId, freshId));
    ChildNameParses(SubsystemIdOf(parent), NAMESPACES, ChosenId(userId, freshId));
  }

  // ------------------------------------------------------------------ the loops

  lemma {:induction false} ScanAlike(s: Session, order: seq<string>, nqn: string, codec: Codec)
    requires Shaped(s.core) && SparesOthers(s.core.scan)
    ensures ScanForNqn(s, order, nqn, codec) == ScanForNqn(s, order, nqn)
    decreases |order|
  {
    if order != [] {
      if s.core.scan.Selects(order[0]) {
        SubsystemReadAlike(s, order[0], codec);
        ScanAlike(GetSubsystem(s, order[0]).0, order[1..], nqn, codec);
      } else {
        ScanAlike(s, order[1..], nqn, codec);
      }
    }
  }

  lemma {:induction false} VisitAlike(
      s: Session, link: Link, order: seq<string>, subsys: Subsystem, subsysId: string, nsid: int, codec: Codec)
    requires Shaped(s.core) && IsSubsystemName(subsys.name)
    ensures Visit(s, link, order, subsys, subsysId, nsid, codec) == Visit(s, link, order, subsys, subsysId, nsid)
    decreases |order|
  {
    if order == [] { return; }
    if !ControllerPrefixTest(order[0], subsys.name) {
      VisitAlike(s, link, order[1..], subsys, subsysId, nsid, codec);
      return;
    }
    NameIsRebuilt(subsys.name);
    if IsResourceName(order[0]) { PrefixTestIsExact(order[0], SubsystemIdOf(subsys.name)); }
    ControllerReadAlike(s, order[0], codec);
    var (s1, found) := GetController(s, order[0]);
    if !found.Found? { return; }
    if SubsystemIdOf(found.value.name) != subsysId {
      VisitAlike(s1, link, order[1..], subsys, subsysId, nsid, codec);
      return;
    }
    if found.value.spec.ctrlrId.None? { return; }
    var command := link.CommandFor(subsys.spec.nqn, found.value.spec.ctrlrId.value, nsid);
    CallKeepsShape(s1, command);
    VisitAlike(Call(s1, command).0, link, order[1..], subsys, subsysId, nsid, codec);
  }

  // ------------------------------------------------------------------ each handler

  lemma CreateSubsystemAlike(s: Session, req: CreateSubsystemRequest, order: seq<string>, codec: Codec)
    requires Shaped(s.core) && SparesOthers(s.core.scan) && ValidId(req.freshId)
    ensures CreateSubsystem(s, req, order, codec) == CreateSubsystem(s, req, order)
  {
    if !AcceptsCreateSubsystem(req) { return; }
    NewNamesOfTheirKind([], req.userId, req.freshId);
    SubsystemReadAlike(s, NewSubsystemName(req), codec);
    ScanAlike(GetSubsystem(s, NewSubsystemName(req)).0, order, req.spec.nqn, codec);
  }

  lemma CreateControllerAlike(s: Session, req: CreateControllerRequest, codec: Codec)
    requires Shaped(s.core) && ValidId(req.freshId) && NamesSubsystem(req.parent)
    ensures CreateController(s, req, codec) == CreateController(s, req)
  {
    if !AcceptsCreateController(req) { return; }
    NewNamesOfTheirKind(req.parent, req.userId, req.freshId);
    ControllerReadAlike(s, NewControllerName(req), codec);
    SubsystemReadAlike(GetController(s, NewControllerName(req)).0, req.parent, codec);
  }

  lemma CreateNamespaceAlike(s: Session, req: CreateNamespaceRequest, order: seq<string>, codec: Codec)
    requires Shaped(s.core) && ValidId(req.freshId) && NamesSubsystem(req.parent)
    ensures CreateNamespace(s, req, order, codec) == CreateNamespace(s, req, order)
  {
    if !AcceptsCreateNamespace(req) { return; }
    NewNamesOfTheirKind(req.parent, req.userId, req.freshId);
    NamespaceReadAlike(s, NewNamespaceName(req), codec);
    var (s1, found) := GetNamespace(s, NewNamespaceName(req));
    SubsystemReadAlike(s1, req.parent, codec);
    var (s2, parent) := GetSubsystem(s1, req.parent);
    if !found.Missing? || !parent.Found? { return; }
    assert StoredWell(req.parent, s.core.store[req.parent]);
    var command := AllocCommand(parent.value.spec.nqn, req.spec);
    CallKeepsShape(s2, command);
    VisitAlike(Call(s2, command).0, Attaching, order, parent.value, SubsystemIdOf(req.parent), req.spec.hostNsid,
      codec);
  }

  lemma DeleteNamespaceAlike(s: Session, req: DeleteRequest, order: seq<string>, codec: Codec)
    requires Shaped(s.core) && NamesNamespace(req.name)
    ensures DeleteNamespace(s, req, order, codec) == DeleteNamespace(s, req, order)
  {
    NamespaceReadAlike(s, req.name, codec);
    var (s1, found) := GetNamespace(s, req.name);
    ParentNamesSubsystem(req.name);
    SubsystemReadAlike(s1, ParentName(req.name), codec);
    var (s2, parent) := GetSubsystem(s1, ParentName(req.name));
    if !found.Found? || !parent.Found? { return; }
    assert StoredWell(ParentName(req.name), s.core.store[ParentName(req.name)]);
    VisitAlike(s2, Detaching, order, parent.value, SubsystemIdOf(req.name), found.value.spec.hostNsid, codec);
  }

  lemma LookupsAlike(s: Session, name: string, codec: Codec)
    requires Shaped(s.core) && NamesController(name)
    ensures GetController(s, name, codec) == GetController(s, name)
    ensures var s1 := GetController(s, name).0;
      GetSubsystem(s1, ParentName(name), codec) == GetSubsystem(s1, ParentName(name))
  {
    ControllerReadAlike(s, name, codec);
    ParentNamesSubsystem(name);
    SubsystemReadAlike(GetController(s, name).0, ParentName(name), codec);
  }

  lemma DeleteControllerAlike(s: Session, req: DeleteRequest, codec: Codec)
    requires Shaped(s.core) && NamesController(req.name)
    ensures DeleteController(s, req, codec) == DeleteController(s, req)
  {
    LookupsAlike(s, req.name, codec);
    hide GetController, GetSubsystem, Call, Forget, Shaped, NamesController, ParentName;
  }

  lemma UpdateControllerAlike(s: Session, req: UpdateControllerRequest, codec: Codec)
    requires Shaped(s.core) && NamesController(req.name)
    ensures UpdateNvmeController(s, req, codec) == UpdateNvmeController(s, req)
  {
    LookupsAlike(s, req.name, codec);
    hide GetController, GetSubsystem, Call, Put, Shaped, NamesController, ParentName;
  }

  lemma GetControllerAlike(s: Session, req: GetRequest, codec: Codec)
    requires Shaped(s.core) && NamesController(req.name)
    ensures GetNvmeController(s, req, codec) == GetNvmeController(s, req)
  {
    LookupsAlike(s, req.name, codec);
    hide GetController, GetSubsystem, Call, Shaped, NamesController, ParentName;
  }

  lemma QueriesAlike(s: Session, op: Op, codec: Codec)
    requires op.GetSubsystemOp? || op.GetNamespaceOp? || op.ListSubsystemsOp? || op.ListChildrenOp?
    requires Shaped(s.core) && NamesOwnKind(op)
    ensures Handle(s, op, codec) == Handle(s, op)
  {
    match op
    case GetSubsystemOp(req) => SubsystemReadAlike(s, req.name, codec);
    case GetNamespaceOp(req) =>
      NamespaceReadAlike(s, req.name, codec);
      ParentNamesSubsystem(req.name);
      SubsystemReadAlike(GetNamespace(s, req.name).0, ParentName(req.name), codec);
    case ListSubsystemsOp(_, _) =>
    case ListChildrenOp(_, req, _) => SubsystemReadAlike(s, req.parent, codec);
  }

  // ------------------------------------------------------------------ every request, every run

  /** A request that names its own kind is served alike with every codec, so all that is said of it with one that
      never decodes another kind holds with any. */
  lemma CodecImmaterial(c: Core, op: Op, env: Env, codec: Codec)
    requires Shaped(c) && FreshIdOk(op) && NamesOwnKind(op)
    requires op.CreateSubsystemOp? ==> SparesOthers(c.scan)
    ensures Result(c, op, env, codec) == Result(c, op, env)
  {
    var s := Begin(c, env);
    hide CreateSubsystem, CreateController, DeleteController, UpdateNvmeController, GetNvmeController;
    hide CreateNamespace, DeleteNamespace, GetNvmeNamespace, GetNvmeSubsystem, ListSubsystemsPage, ListChildrenPage;
    match op
    case CreateSubsystemOp(req, order) => CreateSubsystemAlike(s, req, order, codec);
    case DeleteSubsystemOp(req) => SubsystemReadAlike(s, req.name, codec);
    case CreateControllerOp(req) => CreateControllerAlike(s, req, codec);
    case CreateNamespaceOp(req, order) => CreateNamespaceAlike(s, req, order, codec);
    case DeleteNamespaceOp(req, order) => DeleteNamespaceAlike(s, req, order, codec);
    case DeleteControllerOp(req) => DeleteControllerAlike(s, req, codec);
    case UpdateControllerOp(req) => UpdateControllerAlike(s, req, codec);
    case GetControllerOp(req) => GetControllerAlike(s, req, codec);
    case _ => QueriesAlike(s, op, codec);
  }

  lemma ScanFilterStays(c: Core, e: Event)
    requires Shaped(c)
    ensures Step(c, e).scan == c.scan
  {
    hide Handle;
    if e.Serve? {
      if IsCreate(e.op) { CreateEffects(c, e.op, e.env); }
      else if IsDelete(e.op) { DeleteEffects(c, e.op, e.env); }
      else if e.op.UpdateControllerOp? { UpdateEffects(c, e.op, e.env); }
      else { QueryEffects(c, e.op, e.env); }
    }
  }

  /** And so is a run of such requests: every theorem about runs holds with every codec. */
  lemma {:induction false} RunsAlike(c: Core, events: seq<Event>, codec: Codec)
    requires Shaped(c) && SparesOthers(c.scan)
    requires forall e :: e in events ==> Plausible(e) && (e.Serve? ==> NamesOwnKind(e.op))
    ensures Run(c, events, codec) == Run(c, events)
    decreases |events|
  {
    if events != [] {
      var e := events[0];
      assert e in events;
      if e.Serve? { CodecImmaterial(c, e.op, e.env, codec); }
      ShapeStep(c, e);
      ScanFilterStays(c, e);
      RunsAlike(Step(c, e), events[1..], codec);
    }
  }

  /** In every state reached with any codec, a request that names its own kind meets no missing field, whatever
      kinds the requests before it named, updates apart. */
  lemma OwnKindNeverDereferences(
      scan: ScanFilter, contract: Contract, events: seq<Event>, op: Op, env: Env, codec: Codec)
    requires forall e :: e in events ==> Plausible(e) && (e.Serve? ==> UpdatesItsKind(e.op, codec))
    requires FreshIdOk(op) && NamesOwnKind(op)
    ensures Result(Run(Initial(scan, contract), events, codec), op, env, codec).1 != Rejected(NilDereference)
  {
    var c := Run(Initial(scan, contract), events, codec);
    RunsStayShaped(Initial(scan, contract), events, codec);
    if op.CreateSubsystemOp? {
      CreateSubsystemFine(Begin(c, env), op.csub, op.order, codec);
    } else {
      CodecImmaterial(c, op, env, codec);
      HandleFine(Begin(c, env), op);
    }
  }

  // ------------------------------------------------------------------ requests that name another kind

  /** The key holds a record of another kind that decodes as a controller. */
  predicate PassesForController(c: Core, name: string, codec: Codec) {
    name in c.store && !c.store[name].ControllerObject? && codec.Lenient? && codec.asController(c.store[name]).Some?
  }

  lemma ParentRead(s: Session, name: string, codec: Codec)
    requires Shaped(s.core)
    ensures var (s', parent) := GetSubsystem(s, ParentName(name), codec);
      && s'.core == s.core
      && (parent.Found? <==> (s.env.loads == [] || s.env.loads[0]) && StoresSubsystem(s.core, ParentName(name)))
      && (parent.Found? ==> parent.value == s.core.store[ParentName(name)].subsystem)
  {
    ParentNamesSubsystem(name);
    SubsystemReadAlike(s, ParentName(name), codec);
    if ParentName(name) in s.core.store { assert StoredWell(ParentName(name), s.core.store[ParentName(name)]); }
  }

  lemma ReadsForController(s: Session, name: string, codec: Codec)
    requires Shaped(s.core)
    ensures var (s1, found) := GetController(s, name, codec);
      var (s2, parent) := GetSubsystem(s1, ParentName(name), codec);
      && s2 == s.(env := s2.env) && s2.env == s.env.(loads := s2.env.loads)
      && (found.Found? && parent.Found? <==>
            LookupsWork(s.env) && StoresSubsystem(s.core, ParentName(name)) &&
            (StoresController(s.core, name) || PassesForController(s.core, name, codec)))
      && (parent.Found? ==>
            StoresSubsystem(s.core, ParentName(name)) && parent.value == s.core.store[ParentName(name)].subsystem)
      && (found.Found? && StoresController(s.core, name) ==> found.value == s.core.store[name].controller)
      && (found.Found? && !StoresController(s.core, name) ==>
            PassesForController(s.core, name, codec) && found.value == codec.asController(s.core.store[name]).value)
  {
    var (s1, found) := GetController(s, name, codec);
    ParentRead(s1, name, codec);
    hide GetSubsystem, Shaped, StoredWell, ParentName;
    assert s1.env.loads == if s.env.loads == [] then [] else s.env.loads[1..];
  }

  /** The record of a subsystem or namespace that decodes as a controller without an id, where both reads work. */
  predicate MissesId(c: Core, name: string, env: Env, codec: Codec) {
    && LookupsWork(env) && StoresSubsystem(c, ParentName(name))
    && PassesForController(c, name, codec) && codec.asController(c.store[name]).value.spec.ctrlrId.None?
  }

  lemma FindsNoId(s: Session, name: string, codec: Codec)
    requires Shaped(s.core)
    ensures var (s1, found) := GetController(s, name, codec);
      var (s2, parent) := GetSubsystem(s1, ParentName(name), codec);
      found.Found? && parent.Found? && found.value.spec.ctrlrId.None? <==> MissesId(s.core, name, s.env, codec)
  {
    ReadsForController(s, name, codec);
    if name in s.core.store { assert StoredWell(name, s.core.store[name]); }
    hide GetController, GetSubsystem, Shaped, StoredWell, ParentName;
  }

  /** A delete of a controller dereferences a missing id exactly when it names such a record ... */
  lemma DeleteDereferencesExactly(c: Core, req: DeleteRequest, env: Env, codec: Codec)
    requires Shaped(c)
    ensures Result(c, DeleteControllerOp(req), env, codec).1 == Rejected(NilDereference) <==>
      req.accepted && MissesId(c, req.name, env, codec)
  {
    FindsNoId(Begin(c, env), req.name, codec);
    hide GetController, GetSubsystem, Shaped, ParentName, MissesId;
  }

  /** ... and so does a get. */
  lemma GetDereferencesExactly(c: Core, req: GetRequest, env: Env, codec: Codec)
    requires Shaped(c)
    ensures Result(c, GetControllerOp(req), env, codec).1 == Rejected(NilDereference) <==>
      req.accepted && MissesId(c, req.name, env, codec)
  {
    FindsNoId(Begin(c, env), req.name, codec);
    hide GetController, GetSubsystem, Shaped, ParentName, MissesId;
  }

  /** Every condition under which the update of such a record is answered and recorded. */
  predicate TakesUpdate(c: Core, req: UpdateControllerRequest, env: Env, codec: Codec) {
    && req.accepted && AcceptsControllerSpec(req.spec) && req.maskAccepted
    && LookupsWork(env) && SavesWork(env)
    && PassesForController(c, req.name, codec) && StoresSubsystem(c, ParentName(req.name)) && env.net != []
    && Respond(c.device, ControllerUpdate(NqnAt(c, ParentName(req.name)), ParamsOf(req.spec)), env.net[0]).1.Good?
  }

  lemma UpdateRecords(c: Core, req: UpdateControllerRequest, env: Env, codec: Codec)
    requires Shaped(c) && !StoresController(c, req.name)
    ensures var c' := Result(c, UpdateControllerOp(req), env, codec).0.core;
      if TakesUpdate(c, req, env, codec)
      then StoresController(c', req.name) && c'.store == c.store[req.name := c'.store[req.name]]
      else c' == c
  {
    var s := Begin(c, env);
    ReadsForController(s, req.name, codec);
    var (s1, found) := GetController(s, req.name, codec);
    var (s2, parent) := GetSubsystem(s1, ParentName(req.name), codec);
    hide GetController, GetSubsystem, Shaped, StoredWell;
    if !found.Found? || !parent.Found? { return; }
    UpdateCallChangesNothing(s2, ControllerUpdate(parent.value.spec.nqn, ParamsOf(req.spec)));
    hide Call;
  }

  lemma UpdateCallChangesNothing(s: Session, c: Command)
    requires c.ControllerUpdate?
    ensures Call(s, c).0.core == s.core && Call(s, c).0.env.saves == s.env.saves
    ensures Call(s, c).1.Good? <==> s.env.net != [] && Respond(s.core.device, c, s.env.net[0]).1.Good?
  {
  }

  /** An update breaks the shape exactly when it names a subsystem or namespace whose record decodes as a controller
      and goes through: it puts a controller in the record's place. */
  lemma UpdateBreaksShapeExactly(c: Core, req: UpdateControllerRequest, env: Env, codec: Codec)
    requires Shaped(c)
    ensures var c' := Result(c, UpdateControllerOp(req), env, codec).0.core;
      && (Shaped(c') <==> !TakesUpdate(c, req, env, codec))
      && (TakesUpdate(c, req, env, codec) ==>
            StoresController(c', req.name) && c'.store == c.store[req.name := c'.store[req.name]])
  {
    hide UpdateNvmeController;
    if req.name in c.store { assert StoredWell(req.name, c.store[req.name]); }
    if NamesController(req.name) {
      HandleFine(Begin(c, env), UpdateControllerOp(req), codec);
      return;
    }
    UpdateRecords(c, req, env, codec);
    var c' := Result(c, UpdateControllerOp(req), env, codec).0.core;
    if TakesUpdate(c, req, env, codec) { assert !StoredWell(req.name, c'.store[req.name]); }
  }
}
