/** What goes over the wire and into the store carries the request's own fields, and every command for a controller
    carries the id the device last answered for it. */
module Wire {
  import opened Names
  import opened Device
  import opened Bridge
  import opened Handlers
  import opened Runs
  import opened Shape
  import opened Effects
  import opened Agreement
  import opened Sweep
  import opened Namespaces

  /** The command carries these fields of the request and the program's constants. */
  predicate CarriesSubsystem(c: Command, spec: SubsystemSpec) {
    c.SubsystemCreate? && c.nqn == spec.nqn && c.serial == spec.serial && c.model == spec.model
    && c.maxNamespaces == spec.maxNamespaces && c.minId == 0 && c.maxId == 256
  }

  predicate CarriesController(p: ControllerParams, spec: ControllerSpec) {
    spec.endpoint.Some?
    && p.virtualFunction == spec.endpoint.value.virtualFunction
        && p.physicalFunction == spec.endpoint.value.physicalFunction
    && p.pcieDomain == spec.endpoint.value.port && p.mqes == spec.sqes && p.maxNcq == spec.maxNcq
        && p.maxNsq == spec.maxNsq
    && (spec.ctrlrId.Some? ==> p.ctrlrId == spec.ctrlrId.value) && (spec.ctrlrId.None? ==> p.ctrlrId == -1)
  }

  predicate CarriesNamespace(c: Command, nqn: string, spec: NamespaceSpec) {
    c.NamespaceAlloc? && c.nqn == nqn && c.bdev == spec.volume && c.uuid == spec.uuid && c.nguid == spec.nguid
    && c.eui64 == spec.eui64 && c.shareEnable == 1
  }

  /** The commands of a subsystem create whose scan has no objection, and what it records. */
  lemma SubsystemTrace(c: Core, op: Op, env: Env) returns (s: Session, reply: Reply, version: Reply)
    requires op.CreateSubsystemOp? && Result(c, op, env).0.log != []
    ensures AcceptsCreateSubsystem(op.csub) && NewKey(op) !in c.store && s.env.saves == env.saves
    ensures s.log == if reply.Good? then [CreationCommand(op.csub.spec), GetVersion]
        else [CreationCommand(op.csub.spec)]
    ensures !reply.Good? ==> Result(c, op, env) == (s, Rejected(Refusal(reply)))
    ensures reply.Good? && version.NoReply? ==> Result(c, op, env) == (s, Rejected(TransportFailed))
    ensures reply.Good? && !version.NoReply? ==>
      Result(c, op, env) == SaveNew(s, NewKey(op),
          SubsystemObject(Subsystem(NewKey(op), op.csub.spec, FirstText(version))))
    ensures reply.Good? && |env.net| == 2 && env.net[1].Done? ==>
      version == Good(env.net[1].id, env.net[1].ids, env.net[1].texts)
  {
    var req := op.csub;
    var (s1, found) := GetSubsystem(Begin(c, env), NewSubsystemName(req));
    var (s2, objection) := ScanForNqn(s1, op.order, req.spec.nqn);
    var (s3, first) := Call(s2, CreationCommand(req.spec));
    s, reply, version := s3, first, NoReply;
    assert s3.log == [CreationCommand(req.spec)];
    if !first.Good? { return; }
    var (s4, second) := Call(s3, GetVersion);
    s, version := s4, second;
    assert s4.log == [CreationCommand(req.spec), GetVersion];
  }

  lemma SilentCreateIsKnown(c: Core, op: Op, env: Env)
    requires op.CreateSubsystemOp? && Result(c, op, env).0.log == [] && Ok(Result(c, op, env).1)
    ensures NewKey(op) in c.store
  {
    var (s1, found) := GetSubsystem(Begin(c, env), NewSubsystemName(op.csub));
    var (s2, objection) := ScanForNqn(s1, op.order, op.csub.spec.nqn);
    var (s3, first) := Call(s2, CreationCommand(op.csub.spec));
    assert s3.log != [];
  }

  /** A subsystem create sends its command and, if that went well, asks for the version, which it records; a refusal of
      the version is ignored, a lost one is not. */
  lemma SubsystemGoesOut(c: Core, op: Op, env: Env)
    requires op.CreateSubsystemOp?
    ensures var (s, r) := Result(c, op, env);
      && |s.log| <= 2
      && (|s.log| >= 1 ==> CarriesSubsystem(s.log[0], op.csub.spec) && NewKey(op) !in c.store)
      && (|s.log| == 2 ==> s.log[1] == GetVersion)
      && (Ok(r) && NewKey(op) !in c.store ==>
            && |s.log| == 2 && r.Returned? && r.item.SubsystemObject?
            && r.item.subsystem.spec == op.csub.spec && r.item.subsystem.name == NewKey(op)
            && (|env.net| == 2 && env.net[1].Done? && env.net[1].texts != [] ==>
                r.item.subsystem.firmware == env.net[1].texts[0]))
  {
    hide Handle;
    if Result(c, op, env).0.log == [] {
      if Ok(Result(c, op, env).1) { SilentCreateIsKnown(c, op, env); }
      return;
    }
    var s, reply, version := SubsystemTrace(c, op, env);
  }

  /** A controller create or update sends one command, under the parent's NQN, and records the request with the answered
      id in place of its own. */
  lemma ControllerGoesOut(c: Core, op: Op, env: Env)
    requires op.CreateControllerOp? || op.UpdateControllerOp?
    ensures var (s, r) := Result(c, op, env); var spec := if op.CreateControllerOp? then op.cctrl.spec else op.upd.spec;
      var parent := if op.CreateControllerOp? then op.cctrl.parent else ParentName(op.upd.name);
      && |s.log| <= 1
      && (|s.log| == 1 ==>
            && parent in c.store && c.store[parent].SubsystemObject?
            && (if op.CreateControllerOp? then s.log[0].ControllerCreate? else s.log[0].ControllerUpdate?)
            && s.log[0].nqn == c.store[parent].subsystem.spec.nqn && CarriesController(s.log[0].params, spec))
      && (Ok(r) && |s.log| == 1 ==>
            && r.Returned? && r.item.ControllerObject? && r.item.controller.spec == spec.(ctrlrId :=
                r.item.controller.spec.ctrlrId)
            && r.item.controller.name == if op.CreateControllerOp? then NewKey(op) else op.upd.name)
  {
    if op.CreateControllerOp? {
      var (s1, found) := GetController(Begin(c, env), NewControllerName(op.cctrl));
      var (s2, subsys) := GetSubsystem(s1, op.cctrl.parent);
    } else {
      var (s1, found) := GetController(Begin(c, env), op.upd.name);
      var (s2, subsys) := GetSubsystem(s1, ParentName(op.upd.name));
    }
  }

  /** The first command of a namespace create allocates under the parent's NQN with the request's ids; HostNsid is not
      among them. */
  lemma NamespaceGoesOut(c: Core, op: Op, env: Env)
    requires op.CreateNamespaceOp? && Result(c, op, env).0.log != []
    ensures op.cns.parent in c.store && c.store[op.cns.parent].SubsystemObject?
    ensures CarriesNamespace(Result(c, op, env).0.log[0], c.store[op.cns.parent].subsystem.spec.nqn, op.cns.spec)
  {
    var req := op.cns;
    var (s1, found) := GetNamespace(Begin(c, env), NewNamespaceName(req));
    var (s2, subsys) := GetSubsystem(s1, req.parent);
    if !subsys.Found? { return; }
    var (s3, reply) := Call(s2, AllocCommand(subsys.value.spec.nqn, req.spec));
    assert s3.log == [AllocCommand(subsys.value.spec.nqn, req.spec)];
    if !reply.Good? { return; }
    var (s4, stopped) := Visit(s3, Attaching, op.order, subsys.value, SubsystemIdOf(req.parent), req.spec.hostNsid);
    assert s3.log <= s4.log && s4.log[0] == s3.log[0];
  }

  // ------------------------------------------------------------------ the device id of a controller

  /** A create or update that made the device answer this id for the controller. */
  predicate Answers(c: Core, e: Event, key: string, id: int) {
    && e.Serve? && Ok(Result(c, e.op, e.env).1) && e.env.net != [] && e.env.net[0].Done?
    && ((e.op.CreateControllerOp? && NewKey(e.op) == key && key !in c.store
          && id == AnsweredId(c.device, ControllerCreate([], ParamsOf(e.op.cctrl.spec)), e.env.net[0].id))
        || (e.op.UpdateControllerOp? && e.op.upd.name == key
          && id == AnsweredId(c.device, ControllerUpdate([], ParamsOf(e.op.upd.spec)), e.env.net[0].id)))
  }

  lemma CreateRecordsAnswer(c: Core, op: Op, env: Env)
    requires Shaped(c) && op.CreateControllerOp? && NewKey(op) !in c.store && Ok(Result(c, op, env).1)
    requires env.net != [] && env.net[0].Done?
    ensures var c' := Step(c, Serve(op, env));
      var id := AnsweredId(c.device, ControllerCreate([], ParamsOf(op.cctrl.spec)), env.net[0].id);
      StoresController(c', NewKey(op)) && IdAt(c', NewKey(op)) == id && InRange(id)
  {
    var s, req := Begin(c, env), op.cctrl;
    var (s1, found) := GetController(s, NewControllerName(req));
    var (s2, parent) := GetSubsystem(s1, req.parent);
    var command := ControllerCreate(parent.value.spec.nqn, ParamsOf(req.spec));
    CallKeepsShape(s2, command);
    var (s3, reply) := Call(s2, command);
    assert reply.id == AnsweredId(c.device, ControllerCreate([], ParamsOf(req.spec)), env.net[0].id);
    IdSurvivesInt32(reply.id);
    hide Call, Shaped, AnsweredId, ParamsOf, Int32;
  }

  lemma UpdateRecordsAnswer(c: Core, op: Op, env: Env)
    requires Shaped(c) && op.UpdateControllerOp? && Ok(Result(c, op, env).1) && env.net != [] && env.net[0].Done?
    ensures var c' := Step(c, Serve(op, env));
      var id := AnsweredId(c.device, ControllerUpdate([], ParamsOf(op.upd.spec)), env.net[0].id);
      StoresController(c', op.upd.name) && IdAt(c', op.upd.name) == id && InRange(id)
  {
    var s, req := Begin(c, env), op.upd;
    var (s1, found) := GetController(s, req.name);
    var (s2, parent) := GetSubsystem(s1, ParentName(req.name));
    var command := ControllerUpdate(parent.value.spec.nqn, ParamsOf(req.spec));
    CallKeepsShape(s2, command);
    var (s3, reply) := Call(s2, command);
    assert reply.id == AnsweredId(c.device, ControllerUpdate([], ParamsOf(req.spec)), env.net[0].id);
    IdSurvivesInt32(reply.id);
    hide Call, Shaped, AnsweredId, ParamsOf, Int32;
  }

  /** A removal or query of the controller, or a namespace request whose loop may meet it. */
  predicate Mentions(op: Op, key: string) {
    || (op.DeleteControllerOp? && op.del.name == key) || (op.GetControllerOp? && op.get.name == key)
    || (op.CreateNamespaceOp? && SubsystemIdOf(op.cns.parent) == SubsystemIdOf(key))
    || (op.DeleteNamespaceOp? && SubsystemIdOf(op.del.name) == SubsystemIdOf(key))
  }

  /** The keys the request's loop acts on, in order, and how many commands precede them. */
  function Met(op: Op): seq<string> {
    if op.CreateNamespaceOp? then Targets(op.order, op.cns.parent)
    else if op.DeleteNamespaceOp? then Targets(op.order, ParentName(op.del.name))
    else []
  }

  function Before(op: Op): nat {
    if op.CreateNamespaceOp? then 1 else 0
  }

  predicate IsLink(c: Command) {
    c.Attach? || c.Detach?
  }

  /** Each attach or detach sent is that of the key then met, and names that key's recorded id. */
  ghost predicate LinksNameIds(c: Core, log: seq<Command>, keys: seq<string>, before: nat) {
    forall i :: 0 <= i < |log| && IsLink(log[i]) ==>
      before <= i < before + |keys| && StoresController(c, keys[i - before])
          && log[i].ctrlrId == IdAt(c, keys[i - before])
  }

  lemma SentAt(s: Session, link: Link, keys: seq<string>, nqn: string, nsid: int, n: nat, i: nat)
    requires n <= |keys| && Stored(s.core, keys[..n]) && i < |SentBy(s, link, keys, nqn, nsid, n)|
    ensures i < |keys| && StoresController(s.core, keys[i])
    ensures SentBy(s, link, keys, nqn, nsid, n)[i] == link.CommandFor(nqn, IdAt(s.core, keys[i]), nsid)
  {
    if i < n { assert keys[..n][i] == keys[i] && keys[i] in keys[..n]; }
  }

  lemma CreateLinksNameIds(c: Core, op: Op, env: Env)
    requires Shaped(c) && op.CreateNamespaceOp? && OrderOk(c, op)
    ensures LinksNameIds(c, Result(c, op, env).0.log, Met(op), 1)
  {
    var log, keys, req := Result(c, op, env).0.log, Met(op), op.cns;
    hide Handle, Visit, LinksNameIds;
    if NewKey(op) in c.store { KnownSendsNothing(c, op, env); }
    if log == [] {
      NoLinks(c, keys, 1);
      return;
    }
    CreateGotThere(c, op, env);
    if !AllocAccepted(c, req.parent, env) {
      AllocDecides(c, op, env);
      NamespaceGoesOut(c, op, env);
      OnlyAllocates(c, log, keys, NqnAt(c, req.parent), req.spec);
      return;
    }
    var n := CreateOutcome(c, op, env);
    PrefixedLinksNameIds(AfterAlloc(c, req, env), Attaching, log, keys, NqnAt(c, req.parent), req.spec.hostNsid, n);
    SameIdsNamed(c, AfterAlloc(c, req, env).core, log, keys, 1);
  }

  lemma NoLinks(c: Core, keys: seq<string>, before: nat)
    ensures LinksNameIds(c, [], keys, before)
  {
  }

  lemma OnlyAllocates(c: Core, log: seq<Command>, keys: seq<string>, nqn: string, spec: NamespaceSpec)
    requires |log| == 1 && CarriesNamespace(log[0], nqn, spec)
    ensures LinksNameIds(c, log, keys, 1)
  {
  }

  lemma SameIdsNamed(c: Core, c': Core, log: seq<Command>, keys: seq<string>, before: nat)
    requires c'.store == c.store && LinksNameIds(c', log, keys, before)
    ensures LinksNameIds(c, log, keys, before)
  {
    assert forall k :: StoresController(c', k) <==> StoresController(c, k);
    assert forall k :: StoresController(c, k) ==> IdAt(c', k) == IdAt(c, k);
  }

  lemma KnownSendsNothing(c: Core, op: Op, env: Env)
    requires op.CreateNamespaceOp? && NewKey(op) in c.store
    ensures Result(c, op, env).0.log == []
  {
  }

  lemma PrefixedLinksNameIds(
      s: Session, link: Link, log: seq<Command>, keys: seq<string>, nqn: string, nsid: int, n: nat)
    requires n <= |keys| && Stored(s.core, keys[..n]) && |s.log| == 1 && !IsLink(s.log[0])
    requires log == s.log + SentBy(s, link, keys, nqn, nsid, n)
    ensures LinksNameIds(s.core, log, keys, 1)
  {
    forall i | 0 <= i < |log| && IsLink(log[i])
      ensures 1 <= i < 1 + |keys| && StoresController(s.core, keys[i - 1])
      ensures log[i].ctrlrId == IdAt(s.core, keys[i - 1])
    {
      SentAt(s, link, keys, nqn, nsid, n, i - 1);
    }
  }

  lemma DeleteLinksNameIds(c: Core, op: Op, env: Env)
    requires Shaped(c) && op.DeleteNamespaceOp? && OrderOk(c, op) && StoresNamespace(c, op.del.name)
    ensures LinksNameIds(c, Result(c, op, env).0.log, Met(op), 0)
  {
    var log, keys, name := Result(c, op, env).0.log, Met(op), op.del.name;
    if !op.del.accepted || !LookupsWork(env) || !StoresSubsystem(c, ParentName(name)) {
      DeleteTurnedAway(c, op, env);
      return;
    }
    var n := FailedDeleteLeavesExactly(c, op, env);
    if n >= |keys| { return; }
    forall i | 0 <= i < |log| && IsLink(log[i])
      ensures 0 <= i < |keys| && StoresController(c, keys[i]) && log[i].ctrlrId == IdAt(c, keys[i])
    {
      SentAt(AfterLookups(c, env), Detaching, keys, NqnAt(c, ParentName(name)), NsidAt(c, name), n, i);
    }
  }

  lemma MissingSendsNothing(c: Core, op: Op, env: Env)
    requires op.DeleteNamespaceOp? && !StoresNamespace(c, op.del.name)
    ensures Result(c, op, env).0.log == []
  {
  }

  lemma NamedIdIsRecorded(c: Core, op: Op, env: Env)
    requires (op.DeleteControllerOp? && StoresController(c, op.del.name)) || (op.GetControllerOp?
        && StoresController(c, op.get.name))
    ensures var key := if op.DeleteControllerOp? then op.del.name else op.get.name;
      forall cmd :: cmd in Result(c, op, env).0.log ==>
          (cmd.ControllerRemove? || cmd.ControllerInfo?) && cmd.ctrlrId == IdAt(c, key)
  {
  }

  lemma LinksCarry(c: Core, op: Op, env: Env)
    requires Shaped(c) && OrderOk(c, op) && (op.CreateNamespaceOp? || op.DeleteNamespaceOp?)
    ensures LinksNameIds(c, Result(c, op, env).0.log, Met(op), Before(op))
  {
    if op.CreateNamespaceOp? { CreateLinksNameIds(c, op, env); return; }
    if StoresNamespace(c, op.del.name) { DeleteLinksNameIds(c, op, env); } else { MissingSendsNothing(c, op, env); }
  }

  /** Every command for this controller carries this id: the removals and queries of a request for it, and each
      attach or detach of a loop that meets it. */
  ghost predicate Carries(c: Core, op: Op, log: seq<Command>, key: string, id: int) {
    if op.DeleteControllerOp? || op.GetControllerOp? then
      forall cmd :: cmd in log ==> (cmd.ControllerRemove? || cmd.ControllerInfo?) && cmd.ctrlrId == id
    else
      forall i :: 0 <= i < |log| && IsLink(log[i]) ==>
        Before(op) <= i < Before(op) + |Met(op)| && (Met(op)[i - Before(op)] == key ==> log[i].ctrlrId == id)
  }

  /** The id the device answers to the last create or update of a controller that succeeds survives the conversions, and
      every later removal, query, attach or detach of the controller carries it, whatever run lies between: updates and
      deletes of it that fail included. */
  lemma AnsweredIdIsCarried(c: Core, e: Event, events: seq<Event>, later: Op, env: Env, key: string, id: int)
    requires Shaped(c) && Plausible(e) && Answers(c, e, key, id)
    requires AllSpare(Step(c, e), events, key) && forall f :: f in events ==> Plausible(f)
    requires Mentions(later, key) && OrderOk(Run(Step(c, e), events), later)
    ensures var c' := Run(Step(c, e), events);
      InRange(id) && StoresController(c', key) && IdAt(c', key) == id
          && Carries(c', later, Result(c', later, env).0.log, key, id)
  {
    if e.op.CreateControllerOp? { CreateRecordsAnswer(c, e.op, e.env); } else { UpdateRecordsAnswer(c, e.op, e.env); }
    ShapeStep(c, e);
    StoredStays(Step(c, e), events, key);
    var c' := Run(Step(c, e), events);
    if later.DeleteControllerOp? || later.GetControllerOp? {
      NamedIdIsRecorded(c', later, env);
      return;
    }
    RunsStayShaped(Step(c, e), events);
    LinksCarry(c', later, env);
  }
}
