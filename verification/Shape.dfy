/** What holds in every reachable state whatever fails: every object is stored under its own name, every key has one
    of the three shapes, every controller record is complete, and no request dereferences a missing field. */
module Shape {
  import opened Names
  import opened Device
  import opened Bridge
  import opened Handlers
  import opened Runs

  predicate InRange(id: int) {
    0 <= id <= 256
  }

  /** A controller record the program can serve: PCIe, with an endpoint and an id in the device's range. */
  predicate RecordComplete(spec: ControllerSpec) {
    AcceptsControllerSpec(spec) && spec.ctrlrId.Some? && InRange(spec.ctrlrId.value)
  }

  predicate StoredWell(key: string, o: Object) {
    && NameOf(o) == key
    && match o
       case SubsystemObject(_) => IsSubsystemName(key)
       case ControllerObject(c) => IsControllerName(key) && RecordComplete(c.spec)
       case NamespaceObject(_) => IsNamespaceName(key)
  }

  ghost predicate DeviceShaped(d: Device) {
    forall n :: n in d.units ==>
      d.units[n].minId == 0 && d.units[n].maxId == 256 && forall id :: id in d.units[n].controllers ==> InRange(id)
  }

  ghost predicate Shaped(c: Core) {
    && (forall k :: k in c.store ==> StoredWell(k, c.store[k]))
    && (forall k :: k in c.index ==> IsResourceName(k))
    && DeviceShaped(c.device)
  }

  predicate StoresSubsystem(c: Core, k: string) {
    k in c.store && c.store[k].SubsystemObject?
  }

  function NqnAt(c: Core, k: string): string
    requires StoresSubsystem(c, k)
  {
    c.store[k].subsystem.spec.nqn
  }

  predicate StoresController(c: Core, k: string) {
    k in c.store && c.store[k].ControllerObject?
  }

  /** The device id in a controller's record. */
  function IdAt(c: Core, k: string): int
    requires StoresController(c, k)
  {
    var id := c.store[k].controller.spec.ctrlrId;
    if id.Some? then id.value else AUTO_CTRLR_ID
  }

  predicate StoresNamespace(c: Core, k: string) {
    k in c.store && c.store[k].NamespaceObject?
  }

  function NsidAt(c: Core, k: string): int
    requires StoresNamespace(c, k)
  {
    c.store[k].namespace.spec.hostNsid
  }

  ghost predicate UniqueNqns(c: Core) {
    forall k, l :: StoresSubsystem(c, k) && StoresSubsystem(c, l) && NqnAt(c, k) == NqnAt(c, l) ==> k == l
  }

  predicate WellRanged(c: Command) {
    c.SubsystemCreate? ==> c.minId == 0 && c.maxId == 256
  }

  /** Device ids survive the conversion to int32 and back. */
  lemma IdSurvivesInt32(id: int)
    requires InRange(id)
    ensures Int32(id) == id
  {
  }

  lemma CallKeepsShape(s: Session, c: Command)
    requires DeviceShaped(s.core.device) && WellRanged(c)
    ensures DeviceShaped(Call(s, c).0.core.device)
    ensures Call(s, c).1.Good? && (c.ControllerCreate? || c.ControllerUpdate?) ==> InRange(Call(s, c).1.id)
  {
    if s.env.net == [] { return; }
    ExecuteKeepsShape(s.core.device, c, if s.env.net[0].Declined? then 0 else s.env.net[0].id);
  }

  lemma ExecuteKeepsShape(d: Device, c: Command, id: int)
    requires DeviceShaped(d) && WellRanged(c)
    ensures var ran := Execute(d, c, id);
      ran.Some? ==> DeviceShaped(ran.value) && (c.ControllerCreate? || c.ControllerUpdate? ==>
          InRange(AnsweredId(d, c, id)))
  {
    if Execute(d, c, id).None? { return; }
    var d' := Execute(d, c, id).value;
    forall n | n in d'.units
      ensures d'.units[n].minId == 0 && d'.units[n].maxId == 256 && forall i :: i in d'.units[n].controllers ==>
          InRange(i)
    {
      if n in d.units { assert d.units[n].minId == 0 && d.units[n].maxId == 256; }
    }
  }

  lemma {:induction false} VisitKeepsShape(
      s: Session, link: Link, order: seq<string>, subsys: Subsystem, subsysId: string, nsid: int,
      codec: Codec := Strict)
    requires Shaped(s.core)
    ensures var (s', stopped) := Visit(s, link, order, subsys, subsysId, nsid, codec);
      Shaped(s'.core) && (codec.Strict? ==> stopped != Some(NilDereference))
    decreases |order|
  {
    if order != [] {
      if ControllerPrefixTest(order[0], subsys.name) {
        var (s1, found) := GetController(s, order[0], codec);
        if found.Found? && SubsystemIdOf(found.value.name) == subsysId && found.value.spec.ctrlrId.Some? {
          var command := link.CommandFor(subsys.spec.nqn, found.value.spec.ctrlrId.value, nsid);
          CallKeepsShape(s1, command);
          VisitKeepsShape(Call(s1, command).0, link, order[1..], subsys, subsysId, nsid, codec);
        } else {
          VisitKeepsShape(s1, link, order[1..], subsys, subsysId, nsid, codec);
        }
      } else {
        VisitKeepsShape(s, link, order[1..], subsys, subsysId, nsid, codec);
      }
    }
  }

  lemma SaveKeepsShape(s: Session, name: string, o: Object)
    requires Shaped(s.core) && StoredWell(name, o)
    ensures Shaped(SaveNew(s, name, o).0.core)
  {
  }

  lemma RecordKeepsShape(s: Session, name: string, o: Object)
    requires Shaped(s.core) && StoredWell(name, o)
    ensures Shaped(Put(s, name, o).0.core)
  {
  }

  lemma ForgetKeepsShape(s: Session, name: string)
    requires Shaped(s.core)
    ensures Shaped(Forget(s, name).0.core)
  {
  }

  lemma NewNameShaped(c: Core, parent: string, userId: string, freshId: string)
    requires Shaped(c) && parent in c.store
    requires AcceptableId(userId) && ValidId(freshId)
    ensures IsControllerName(ControllerName(SubsystemIdOf(parent), ChosenId(userId, freshId)))
    ensures IsNamespaceName(NamespaceName(SubsystemIdOf(parent), ChosenId(userId, freshId)))
  {
    NameIsRebuilt(parent);
    ControllerNameParses(SubsystemIdOf(parent), ChosenId(userId, freshId));
    NamespaceNameParses(SubsystemIdOf(parent), ChosenId(userId, freshId));
  }

  /** Well shaped after the request, which was answered without a missing field: with a codec that never decodes
      a record as another kind, that is. */
  ghost predicate Fine(c: Core, r: Response, codec: Codec) {
    Shaped(c) && (codec.Strict? ==> r != Rejected(NilDereference))
  }

  lemma CreateSubsystemFine(s: Session, req: CreateSubsystemRequest, order: seq<string>, codec: Codec := Strict)
    requires Shaped(s.core) && ValidId(req.freshId)
    ensures var (s', r) := CreateSubsystem(s, req, order, codec); Shaped(s'.core) && r != Rejected(NilDereference)
  {
    var name := NewSubsystemName(req);
    var (s1, found) := GetSubsystem(s, name, codec);
    if AcceptsCreateSubsystem(req) && found.Missing? {
      SubsystemNameParses(ChosenId(req.userId, req.freshId));
      var (s2, objection) := ScanForNqn(s1, order, req.spec.nqn, codec);
      ScanNeverDereferences(s1, order, req.spec.nqn, codec);
      if objection.None? {
        var command := CreationCommand(req.spec);
        CallKeepsShape(s2, command);
        var (s3, reply) := Call(s2, command);
        CallKeepsShape(s3, GetVersion);
        var (s4, version) := Call(s3, GetVersion);
        SaveKeepsShape(s4, name, SubsystemObject(Subsystem(name, req.spec, FirstText(version))));
      }
    }
  }

  lemma {:induction false} ScanNeverDereferences(s: Session, order: seq<string>, nqn: string, codec: Codec := Strict)
    ensures ScanForNqn(s, order, nqn, codec).1 != Some(NilDereference)
    decreases |order|
  {
    if order != [] {
      if s.core.scan.Selects(order[0]) {
        ScanNeverDereferences(GetSubsystem(s, order[0], codec).0, order[1..], nqn, codec);
      } else {
        ScanNeverDereferences(s, order[1..], nqn, codec);
      }
    }
  }

  lemma DeleteSubsystemFine(s: Session, req: DeleteRequest, codec: Codec := Strict)
    requires Shaped(s.core)
    ensures var (s', r) := DeleteSubsystem(s, req, codec); Fine(s'.core, r, codec)
  {
    var (s1, found) := GetSubsystem(s, req.name, codec);
    if found.Found? {
      CallKeepsShape(s1, SubsystemDelete(found.value.spec.nqn));
      ForgetKeepsShape(Call(s1, SubsystemDelete(found.value.spec.nqn)).0, found.value.name);
    }
  }

  lemma CreateControllerFine(s: Session, req: CreateControllerRequest, codec: Codec := Strict)
    requires Shaped(s.core) && ValidId(req.freshId)
    ensures var (s', r) := CreateController(s, req, codec); Fine(s'.core, r, codec)
  {
    var name := NewControllerName(req);
    var (s1, found) := GetController(s, name, codec);
    if AcceptsCreateController(req) && found.Missing? {
      var (s2, parent) := GetSubsystem(s1, req.parent, codec);
      if parent.Found? {
        NewNameShaped(s.core, req.parent, req.userId, req.freshId);
        var command := ControllerCreate(parent.value.spec.nqn, ParamsOf(req.spec));
        CallKeepsShape(s2, command);
        var (s3, reply) := Call(s2, command);
        if reply.Good? {
          IdSurvivesInt32(reply.id);
          SaveKeepsShape(s3, name, ControllerObject(Controller(name, req.spec.(ctrlrId := Some(Int32(reply.id))),
            true)));
        }
      }
    }
  }

  lemma DeleteControllerFine(s: Session, req: DeleteRequest, codec: Codec := Strict)
    requires Shaped(s.core)
    ensures var (s', r) := DeleteController(s, req, codec); Fine(s'.core, r, codec)
  {
    var (s1, found) := GetController(s, req.name, codec);
    if found.Found? {
      var (s2, parent) := GetSubsystem(s1, ParentName(req.name), codec);
      if parent.Found? {
        if found.value.spec.ctrlrId.None? { return; }
        var command := ControllerRemove(parent.value.spec.nqn, found.value.spec.ctrlrId.value, 1);
        CallKeepsShape(s2, command);
        ForgetKeepsShape(Call(s2, command).0, found.value.name);
      }
    }
  }

  /** If it is a resource's name at all, a controller's. */
  predicate NamesController(name: string) {
    IsResourceName(name) ==> IsControllerName(name)
  }

  lemma UpdateControllerFine(s: Session, req: UpdateControllerRequest, codec: Codec := Strict)
    requires Shaped(s.core) && (codec.Strict? || NamesController(req.name))
    ensures var (s', r) := UpdateNvmeController(s, req, codec); Fine(s'.core, r, codec)
  {
    var (s1, found) := GetController(s, req.name, codec);
    if !req.accepted || !AcceptsControllerSpec(req.spec) || !found.Found? || !req.maskAccepted { return; }
    assert StoredWell(req.name, s.core.store[req.name]);
    var (s2, parent) := GetSubsystem(s1, ParentName(req.name), codec);
    if !parent.Found? { return; }
    var command := ControllerUpdate(parent.value.spec.nqn, ParamsOf(req.spec));
    CallKeepsShape(s2, command);
    var (s3, reply) := Call(s2, command);
    if !reply.Good? { return; }
    IdSurvivesInt32(reply.id);
    RecordKeepsShape(s3, req.name,
      ControllerObject(Controller(req.name, req.spec.(ctrlrId := Some(Int32(reply.id))), true)));
  }

  lemma CreateNamespaceFine(s: Session, req: CreateNamespaceRequest, order: seq<string>, codec: Codec := Strict)
    requires Shaped(s.core) && ValidId(req.freshId)
    ensures var (s', r) := CreateNamespace(s, req, order, codec); Fine(s'.core, r, codec)
  {
    var name := NewNamespaceName(req);
    var (s1, found) := GetNamespace(s, name, codec);
    if AcceptsCreateNamespace(req) && found.Missing? {
      var (s2, parent) := GetSubsystem(s1, req.parent, codec);
      if parent.Found? {
        NewNameShaped(s.core, req.parent, req.userId, req.freshId);
        var command := AllocCommand(parent.value.spec.nqn, req.spec);
        CallKeepsShape(s2, command);
        var (s3, reply) := Call(s2, command);
        if reply.Good? {
          VisitKeepsShape(s3, Attaching, order, parent.value, SubsystemIdOf(req.parent), req.spec.hostNsid, codec);
          var (s4, stopped) :=
              Visit(s3, Attaching, order, parent.value, SubsystemIdOf(req.parent), req.spec.hostNsid, codec);
          if stopped.None? { SaveKeepsShape(s4, name, NamespaceObject(Namespace(name, req.spec, true))); }
        }
      }
    }
  }

  lemma DeleteNamespaceFine(s: Session, req: DeleteRequest, order: seq<string>, codec: Codec := Strict)
    requires Shaped(s.core)
    ensures var (s', r) := DeleteNamespace(s, req, order, codec); Fine(s'.core, r, codec)
  {
    var (s1, found) := GetNamespace(s, req.name, codec);
    if found.Found? {
      var (s2, parent) := GetSubsystem(s1, ParentName(req.name), codec);
      if parent.Found? {
        var nsid := found.value.spec.hostNsid;
        VisitKeepsShape(s2, Detaching, order, parent.value, SubsystemIdOf(req.name), nsid, codec);
        var (s3, stopped) := Visit(s2, Detaching, order, parent.value, SubsystemIdOf(req.name), nsid, codec);
        CallKeepsShape(s3, NamespaceUnalloc(parent.value.spec.nqn, nsid));
        ForgetKeepsShape(Call(s3, NamespaceUnalloc(parent.value.spec.nqn, nsid)).0, found.value.name);
      }
    }
  }

  predicate IsQuery(op: Op) {
    op.GetSubsystemOp? || op.GetControllerOp? || op.GetNamespaceOp? || op.ListSubsystemsOp? || op.ListChildrenOp?
  }

  lemma QueryCommandsChangeNothing(s: Session, c: Command)
    requires || c.SubsystemList? || c.ControllerList? || c.NamespaceList?
             || c.ControllerInfo? || c.NamespaceInfo? || c.GetVersion?
    ensures Call(s, c).0.core == s.core
  {
  }

  lemma GetSubsystemChangesNothing(s: Session, req: GetRequest, codec: Codec := Strict)
    ensures var (s', r) := GetNvmeSubsystem(s, req, codec); s'.core == s.core && r != Rejected(NilDereference)
  {
    QueryCommandsChangeNothing(GetSubsystem(s, req.name).0, SubsystemList);
  }

  lemma GetControllerChangesNothing(s: Session, req: GetRequest, codec: Codec := Strict)
    ensures var (s', r) := GetNvmeController(s, req, codec); s'.core == s.core
    ensures var (s', r) := GetNvmeController(s, req, codec);
      Shaped(s.core) && codec.Strict? ==> r != Rejected(NilDereference)
  {
    var (s1, found) := GetController(s, req.name, codec);
    if found.Found? && found.value.spec.ctrlrId.Some? {
      var (s2, parent) := GetSubsystem(s1, ParentName(req.name), codec);
      if parent.Found? {
        QueryCommandsChangeNothing(s2, ControllerInfo(parent.value.spec.nqn, found.value.spec.ctrlrId.value));
      }
    }
  }

  lemma GetNamespaceChangesNothing(s: Session, req: GetRequest, codec: Codec := Strict)
    ensures var (s', r) := GetNvmeNamespace(s, req, codec); s'.core == s.core && r != Rejected(NilDereference)
  {
    var (s1, found) := GetNamespace(s, req.name, codec);
    if found.Found? {
      var (s2, parent) := GetSubsystem(s1, ParentName(req.name), codec);
      if parent.Found? {
        QueryCommandsChangeNothing(s2, NamespaceInfo(parent.value.spec.nqn, found.value.spec.hostNsid));
      }
    }
  }

  lemma ListSubsystemsOnlyPages(s: Session, req: ListRequest, token: string)
    ensures var (s', r) := ListSubsystemsPage(s, req, token);
      s'.core == s.core.(pagination := s'.core.pagination) && r != Rejected(NilDereference)
  {
    QueryCommandsChangeNothing(s, SubsystemList);
  }

  lemma ListChildrenOnlyPages(s: Session, what: Children, req: ListRequest, token: string, codec: Codec := Strict)
    ensures var (s', r) := ListChildrenPage(s, what, req, token, codec);
      s'.core == s.core.(pagination := s'.core.pagination) && r != Rejected(NilDereference)
  {
    var (s1, parent) := GetSubsystem(s, req.parent, codec);
    if parent.Found? { QueryCommandsChangeNothing(s1, what.Question(parent.value.spec.nqn)); }
  }

  lemma QueryFine(s: Session, op: Op, codec: Codec := Strict)
    requires IsQuery(op)
    ensures var (s', r) := Handle(s, op, codec);
      s'.core == s.core.(pagination := s'.core.pagination) && (Shaped(s.core) ==> Fine(s'.core, r, codec))
  {
    match op
    case GetSubsystemOp(req) => GetSubsystemChangesNothing(s, req, codec);
    case GetControllerOp(req) => GetControllerChangesNothing(s, req, codec);
    case GetNamespaceOp(req) => GetNamespaceChangesNothing(s, req, codec);
    case ListSubsystemsOp(req, token) => ListSubsystemsOnlyPages(s, req, token);
    case ListChildrenOp(what, req, token) => ListChildrenOnlyPages(s, what, req, token, codec);
  }

  /** The one request in which it matters to the shape what a record of another kind decodes to is the update. */
  predicate UpdatesItsKind(op: Op, codec: Codec) {
    codec.Strict? || (op.UpdateControllerOp? ==> NamesController(op.upd.name))
  }

  lemma HandleFine(s: Session, op: Op, codec: Codec := Strict)
    requires Shaped(s.core) && FreshIdOk(op) && UpdatesItsKind(op, codec)
    ensures var (s', r) := Handle(s, op, codec); Fine(s'.core, r, codec)
  {
    hide CreateSubsystem, DeleteSubsystem, CreateController, DeleteController, UpdateNvmeController;
    hide CreateNamespace, DeleteNamespace;
    match op
    case CreateSubsystemOp(req, order) => CreateSubsystemFine(s, req, order, codec);
    case DeleteSubsystemOp(req) => DeleteSubsystemFine(s, req, codec);
    case CreateControllerOp(req) => CreateControllerFine(s, req, codec);
    case DeleteControllerOp(req) => DeleteControllerFine(s, req, codec);
    case UpdateControllerOp(req) => UpdateControllerFine(s, req, codec);
    case CreateNamespaceOp(req, order) => CreateNamespaceFine(s, req, order, codec);
    case DeleteNamespaceOp(req, order) => DeleteNamespaceFine(s, req, order, codec);
    case _ => QueryFine(s, op, codec);
  }

  lemma ShapeStep(c: Core, e: Event, codec: Codec := Strict)
    requires Shaped(c) && Plausible(e) && (e.Serve? ==> UpdatesItsKind(e.op, codec))
    ensures Shaped(Step(c, e, codec))
  {
    if e.Serve? { HandleFine(Begin(c, e.env), e.op, codec); }
  }

  /** Whatever is requested, whatever fails and whenever the bridge restarts: the state stays well shaped, with any
      codec, as long as no update names a resource of another kind ... */
  lemma {:induction false} RunsStayShaped(c: Core, events: seq<Event>, codec: Codec := Strict)
    requires Shaped(c)
    requires forall e :: e in events ==> Plausible(e) && (e.Serve? ==> UpdatesItsKind(e.op, codec))
    ensures Shaped(Run(c, events, codec))
    decreases |events|
  {
    if events != [] {
      var e := events[0];
      assert e in events;
      ShapeStep(c, e, codec);
      RunsStayShaped(Step(c, e, codec), events[1..], codec);
    }
  }

  /** ... from the initial state on; and the next request, too, never dereferences a field that is not there. */
  lemma ReachableStatesAreShaped(
      scan: ScanFilter, contract: Contract, events: seq<Event>, op: Op, env: Env, codec: Codec := Strict)
    requires forall e :: e in events ==> Plausible(e) && (e.Serve? ==> UpdatesItsKind(e.op, codec))
    requires FreshIdOk(op) && UpdatesItsKind(op, codec)
    ensures var c := Run(Initial(scan, contract), events, codec);
      Shaped(c) && (codec.Strict? ==> Result(c, op, env, codec).1 != Rejected(NilDereference))
  {
    var c := Run(Initial(scan, contract), events, codec);
    RunsStayShaped(Initial(scan, contract), events, codec);
    HandleFine(Begin(c, env), op, codec);
  }
}
