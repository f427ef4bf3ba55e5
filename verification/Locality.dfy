/** Requests on the children of one subsystem read and write only that subsystem's keys and NQN, so requests under two
    subsystems do not interfere: in either order they give the same answers, the same commands and the same state. */
module Locality {
  import opened Names
  import opened Device
  import opened Bridge
  import opened Handlers
  import opened Runs
  import opened Shape
  import opened Effects
  import opened Sweep

  /** A controller or namespace request about something under the subsystem id. */
  predicate Under(op: Op, sid: string) {
    match op
    case CreateControllerOp(req) => SubsystemIdOf(req.parent) == sid
    case DeleteControllerOp(req) => SubsystemIdOf(req.name) == sid
    case UpdateControllerOp(req) => SubsystemIdOf(req.name) == sid
    case GetControllerOp(req) => SubsystemIdOf(req.name) == sid
    case CreateNamespaceOp(req, _) => SubsystemIdOf(req.parent) == sid
    case DeleteNamespaceOp(req, _) => SubsystemIdOf(req.name) == sid
    case GetNamespaceOp(req) => SubsystemIdOf(req.name) == sid
    case _ => false
  }

  /** The subsystem is stored, with this NQN. */
  predicate Is(c: Core, sid: string, n: string) {
    ValidId(sid) && StoresSubsystem(c, SubsystemName(sid)) && NqnAt(c, SubsystemName(sid)) == n
  }

  // ------------------------------------------------------------------ what a request can see

  /** Two states that look the same from the subsystem. */
  ghost predicate Agree(c: Core, d: Core, sid: string, n: string) {
    && (forall k :: SubsystemIdOf(k) == sid ==> (k in c.store <==> k in d.store))
    && (forall k :: SubsystemIdOf(k) == sid && k in c.store && k in d.store ==> c.store[k] == d.store[k])
    && (forall k :: SubsystemIdOf(k) == sid ==> (k in c.index <==> k in d.index))
    && (forall k :: SubsystemIdOf(k) == sid && k in c.index && k in d.index ==> c.index[k] == d.index[k])
    && SameUnit(c.device, d.device, n)
  }

  ghost predicate SameView(s: Session, t: Session, sid: string, n: string) {
    Agree(s.core, t.core, sid, n) && s.env == t.env && s.log == t.log
  }

  lemma SeesSameRecords(s: Session, t: Session, sid: string, n: string, key: string)
    requires SameView(s, t, sid, n) && SubsystemIdOf(key) == sid
    ensures SameView(GetSubsystem(s, key).0, GetSubsystem(t, key).0, sid, n)
    ensures GetSubsystem(s, key).1 == GetSubsystem(t, key).1
    ensures SameView(GetController(s, key).0, GetController(t, key).0, sid, n)
    ensures GetController(s, key).1 == GetController(t, key).1
    ensures SameView(GetNamespace(s, key).0, GetNamespace(t, key).0, sid, n)
    ensures GetNamespace(s, key).1 == GetNamespace(t, key).1
  {
  }

  ghost predicate SameUnit(d: Device, e: Device, n: string) {
    && d.contract == e.contract
    && (n in d.units <==> n in e.units)
    && (n in d.units ==> d.units[n] == e.units[n])
  }

  lemma ExecutesAlike(d: Device, e: Device, n: string, c: Command, id: int)
    requires SameUnit(d, e, n) && Concerns(c, n)
    ensures Execute(d, c, id).Some? <==> Execute(e, c, id).Some?
    ensures Execute(d, c, id).Some? ==> SameUnit(Execute(d, c, id).value, Execute(e, c, id).value, n)
    ensures AnsweredId(d, c, id) == AnsweredId(e, c, id)
  {
    match c
    case SubsystemCreate(_, _, _, _, _, _) =>
    case SubsystemDelete(_) =>
    case ControllerCreate(_, _) =>
    case ControllerUpdate(_, _) =>
    case ControllerRemove(_, _, _) =>
    case NamespaceAlloc(_, _, _, _, _, _) =>
    case NamespaceUnalloc(_, _) =>
    case Attach(_, _, _) =>
    case Detach(_, _, _) =>
    case _ =>
  }

  lemma RespondsAlike(d: Device, e: Device, n: string, c: Command, a: Answer)
    requires SameUnit(d, e, n) && Concerns(c, n)
    ensures SameUnit(Respond(d, c, a).0, Respond(e, c, a).0, n) && Respond(d, c, a).1 == Respond(e, c, a).1
  {
    match a
    case Declined =>
    case Lost(_, id) => ExecutesAlike(d, e, n, c, id);
    case Done(id, _, _) => ExecutesAlike(d, e, n, c, id);
  }

  lemma SeesSameAnswers(s: Session, t: Session, sid: string, n: string, c: Command)
    requires SameView(s, t, sid, n) && Concerns(c, n)
    ensures SameView(Call(s, c).0, Call(t, c).0, sid, n) && Call(s, c).1 == Call(t, c).1
  {
    var answer := if |s.env.net| == 0 then Lost(false, 0) else s.env.net[0];
    RespondsAlike(s.core.device, t.core.device, n, c, answer);
  }

  lemma SavesAlike(s: Session, t: Session, sid: string, n: string, key: string, o: Object)
    requires SameView(s, t, sid, n)
    ensures SameView(SaveNew(s, key, o).0, SaveNew(t, key, o).0, sid, n) && SaveNew(s, key, o).1 == SaveNew(t, key, o).1
    ensures SameView(Put(s, key, o).0, Put(t, key, o).0, sid, n) && Put(s, key, o).1 == Put(t, key, o).1
  {
  }

  lemma ForgetsAlike(s: Session, t: Session, sid: string, n: string, key: string)
    requires SameView(s, t, sid, n)
    ensures SameView(Forget(s, key).0, Forget(t, key).0, sid, n) && Forget(s, key).1 == Forget(t, key).1
  {
  }

  lemma {:induction false} VisitsAlike(
      s: Session, t: Session, link: Link, keys: seq<string>, subsys: Subsystem, sid: string, nsid: int)
    requires SameView(s, t, sid, subsys.spec.nqn) && forall k :: k in keys ==> SubsystemIdOf(k) == sid
    ensures var (s', a) := Visit(s, link, keys, subsys, sid, nsid);
      var (t', b) := Visit(t, link, keys, subsys, sid, nsid);
      SameView(s', t', sid, subsys.spec.nqn) && a == b
    decreases |keys|
  {
    if keys == [] { return; }
    var key, n := keys[0], subsys.spec.nqn;
    assert key in keys;
    if !ControllerPrefixTest(key, subsys.name) {
      VisitsAlike(s, t, link, keys[1..], subsys, sid, nsid);
      return;
    }
    SeesSameRecords(s, t, sid, n, key);
    var (s1, found) := GetController(s, key);
    var t1 := GetController(t, key).0;
    if !found.Found? { return; }
    if SubsystemIdOf(found.value.name) != sid {
      VisitsAlike(s1, t1, link, keys[1..], subsys, sid, nsid);
      return;
    }
    if found.value.spec.ctrlrId.None? { return; }
    var command := link.CommandFor(n, found.value.spec.ctrlrId.value, nsid);
    SeesSameAnswers(s1, t1, sid, n, command);
    var (s2, reply) := Call(s1, command);
    if !reply.Good? { return; }
    VisitsAlike(s2, Call(t1, command).0, link, keys[1..], subsys, sid, nsid);
  }

  /** The loop looks the same from both states when it meets the subsystem's own controllers in the same order. */
  lemma LoopsAlike(
      s: Session, t: Session, link: Link, order: seq<string>, order': seq<string>, sid: string, n: string, nsid: int)
    requires SameView(s, t, sid, n) && Is(s.core, sid, n) && Shaped(s.core)
    requires forall k :: k in order ==> IsResourceName(k)
    requires Targets(order, SubsystemName(sid)) == Targets(order', SubsystemName(sid))
    ensures var subsys := s.core.store[SubsystemName(sid)].subsystem;
      var (s', a) := Visit(s, link, order, subsys, sid, nsid); var (t', b) := Visit(t, link, order', subsys, sid, nsid);
      SameView(s', t', sid, n) && a == b
  {
    var key := SubsystemName(sid);
    var subsys := s.core.store[key].subsystem;
    assert StoredWell(key, s.core.store[key]);
    VisitOnlyTargets(s, link, order, subsys, sid, nsid);
    VisitOnlyTargets(t, link, order', subsys, sid, nsid);
    TargetsAre(order, key);
    forall k | k in Targets(order, key) ensures SubsystemIdOf(k) == sid { PrefixTestIsExact(k, sid); }
    VisitsAlike(s, t, link, Targets(order, key), subsys, sid, nsid);
  }

  // ------------------------------------------------------------------ each handler sees only its view

  ghost predicate Alike(a: (Session, Response), b: (Session, Response), sid: string, n: string) {
    SameView(a.0, b.0, sid, n) && a.1 == b.1
  }

  lemma CreateControllerLocal(s: Session, t: Session, sid: string, n: string, req: CreateControllerRequest)
    requires SameView(s, t, sid, n) && Is(s.core, sid, n) && Shaped(s.core) && Shaped(t.core)
    requires SubsystemIdOf(req.parent) == sid && ValidId(req.freshId)
    ensures Alike(CreateController(s, req), CreateController(t, req), sid, n)
  {
    if !AcceptsCreateController(req) { return; }
    var name := NewControllerName(req);
    ControllerNameParses(sid, ChosenId(req.userId, req.freshId));
    SeesSameRecords(s, t, sid, n, name);
    var (s1, found) := GetController(s, name);
    var t1 := GetController(t, name).0;
    if !found.Missing? { return; }
    SeesSameRecords(s1, t1, sid, n, req.parent);
    var (s2, parent) := GetSubsystem(s1, req.parent);
    var t2 := GetSubsystem(t1, req.parent).0;
    if !parent.Found? { return; }
    ParentIs(s.core, sid, n, req.parent);
    var command := ControllerCreate(n, ParamsOf(req.spec));
    SeesSameAnswers(s2, t2, sid, n, command);
    var (s3, reply) := Call(s2, command);
    if !reply.Good? { return; }
    SavesAlike(s3, Call(t2, command).0, sid, n, name,
               ControllerObject(Controller(name, req.spec.(ctrlrId := Some(Int32(reply.id))), true)));
  }

  lemma ParentIs(c: Core, sid: string, n: string, parent: string)
    requires Shaped(c) && Is(c, sid, n) && StoresSubsystem(c, parent) && SubsystemIdOf(parent) == sid
    ensures parent == SubsystemName(sid) && NqnAt(c, parent) == n
  {
    assert StoredWell(parent, c.store[parent]);
    NameIsRebuilt(parent);
  }

  lemma ParentInView(sid: string, name: string)
    requires ValidId(sid) && SubsystemIdOf(name) == sid
    ensures ParentName(name) == SubsystemName(sid) && SubsystemIdOf(ParentName(name)) == sid
  {
    SubsystemNameParses(sid);
  }

  lemma RemovesAlike(s: Session, t: Session, sid: string, n: string, id: int, key: string)
    requires SameView(s, t, sid, n)
    ensures var (s', a) := Call(s, ControllerRemove(n, id, 1)); var (t', b) := Call(t, ControllerRemove(n, id, 1));
      SameView(s', t', sid, n) && a == b
      && SameView(Forget(s', key).0, Forget(t', key).0, sid, n) && Forget(s', key).1 == Forget(t', key).1
  {
    var command := ControllerRemove(n, id, 1);
    SeesSameAnswers(s, t, sid, n, command);
    ForgetsAlike(Call(s, command).0, Call(t, command).0, sid, n, key);
  }

  lemma DeleteControllerLocal(s: Session, t: Session, sid: string, n: string, req: DeleteRequest)
    requires SameView(s, t, sid, n) && Is(s.core, sid, n) && SubsystemIdOf(req.name) == sid
    ensures Alike(DeleteController(s, req), DeleteController(t, req), sid, n)
  {
    SeesSameRecords(s, t, sid, n, req.name);
    var (s1, found) := GetController(s, req.name);
    var t1 := GetController(t, req.name).0;
    if !req.accepted || !found.Found? { return; }
    ParentInView(sid, req.name);
    SeesSameRecords(s1, t1, sid, n, ParentName(req.name));
    var (s2, parent) := GetSubsystem(s1, ParentName(req.name));
    var t2 := GetSubsystem(t1, ParentName(req.name)).0;
    if !parent.Found? || found.value.spec.ctrlrId.None? { return; }
    RemovesAlike(s2, t2, sid, n, found.value.spec.ctrlrId.value, found.value.name);
  }

  lemma UpdateControllerLocal(s: Session, t: Session, sid: string, n: string, req: UpdateControllerRequest)
    requires SameView(s, t, sid, n) && Is(s.core, sid, n) && SubsystemIdOf(req.name) == sid
    ensures Alike(UpdateNvmeController(s, req), UpdateNvmeController(t, req), sid, n)
  {
    if !req.accepted || !AcceptsControllerSpec(req.spec) { return; }
    SeesSameRecords(s, t, sid, n, req.name);
    var (s1, found) := GetController(s, req.name);
    var t1 := GetController(t, req.name).0;
    if !found.Found? || !req.maskAccepted { return; }
    ParentInView(sid, req.name);
    SeesSameRecords(s1, t1, sid, n, ParentName(req.name));
    var (s2, parent) := GetSubsystem(s1, ParentName(req.name));
    var t2 := GetSubsystem(t1, ParentName(req.name)).0;
    if !parent.Found? { return; }
    var command := ControllerUpdate(n, ParamsOf(req.spec));
    SeesSameAnswers(s2, t2, sid, n, command);
    var (s3, reply) := Call(s2, command);
    if !reply.Good? { return; }
    SavesAlike(s3, Call(t2, command).0, sid, n, req.name,
               ControllerObject(Controller(req.name, req.spec.(ctrlrId := Some(Int32(reply.id))), true)));
  }

  lemma GetControllerLocal(s: Session, t: Session, sid: string, n: string, req: GetRequest)
    requires SameView(s, t, sid, n) && Is(s.core, sid, n) && SubsystemIdOf(req.name) == sid
    ensures Alike(GetNvmeController(s, req), GetNvmeController(t, req), sid, n)
  {
    SeesSameRecords(s, t, sid, n, req.name);
    var (s1, found) := GetController(s, req.name);
    var t1 := GetController(t, req.name).0;
    if !found.Found? { return; }
    ParentInView(sid, req.name);
    SeesSameRecords(s1, t1, sid, n, ParentName(req.name));
    var (s2, parent) := GetSubsystem(s1, ParentName(req.name));
    var t2 := GetSubsystem(t1, ParentName(req.name)).0;
    if !parent.Found? || found.value.spec.ctrlrId.None? { return; }
    SeesSameAnswers(s2, t2, sid, n, ControllerInfo(n, found.value.spec.ctrlrId.value));
  }

  lemma GetNamespaceLocal(s: Session, t: Session, sid: string, n: string, req: GetRequest)
    requires SameView(s, t, sid, n) && Is(s.core, sid, n) && SubsystemIdOf(req.name) == sid
    ensures Alike(GetNvmeNamespace(s, req), GetNvmeNamespace(t, req), sid, n)
  {
    SeesSameRecords(s, t, sid, n, req.name);
    var (s1, found) := GetNamespace(s, req.name);
    var t1 := GetNamespace(t, req.name).0;
    if !found.Found? { return; }
    ParentInView(sid, req.name);
    SeesSameRecords(s1, t1, sid, n, ParentName(req.name));
    var (s2, parent) := GetSubsystem(s1, ParentName(req.name));
    var t2 := GetSubsystem(t1, ParentName(req.name)).0;
    if !parent.Found? { return; }
    SeesSameAnswers(s2, t2, sid, n, NamespaceInfo(n, found.value.spec.hostNsid));
  }

  lemma AllocatesAlike(
      s: Session, t: Session, sid: string, n: string, req: CreateNamespaceRequest, order: seq<string>,
          order': seq<string>)
    requires SameView(s, t, sid, n) && Is(s.core, sid, n) && Shaped(s.core)
    requires forall k :: k in order ==> IsResourceName(k)
    requires Targets(order, SubsystemName(sid)) == Targets(order', SubsystemName(sid))
    ensures var (s3, a) := Call(s, AllocCommand(n, req.spec)); var (t3, b) := Call(t, AllocCommand(n, req.spec));
      var subsys := s.core.store[SubsystemName(sid)].subsystem;
      SameView(s3, t3, sid, n) && a == b
      && SameView(Visit(s3, Attaching, order, subsys, sid, req.spec.hostNsid).0,
          Visit(t3, Attaching, order', subsys, sid, req.spec.hostNsid).0, sid, n)
      && Visit(s3, Attaching, order, subsys, sid, req.spec.hostNsid).1 == Visit(t3, Attaching, order', subsys, sid,
          req.spec.hostNsid).1
  {
    var command := AllocCommand(n, req.spec);
    SeesSameAnswers(s, t, sid, n, command);
    CallKeepsShape(s, command);
    LoopsAlike(Call(s, command).0, Call(t, command).0, Attaching, order, order', sid, n, req.spec.hostNsid);
  }

  lemma CreateNamespaceLocal(
      s: Session, t: Session, sid: string, n: string, req: CreateNamespaceRequest, order: seq<string>,
          order': seq<string>)
    requires SameView(s, t, sid, n) && Is(s.core, sid, n) && Shaped(s.core) && Shaped(t.core)
    requires SubsystemIdOf(req.parent) == sid && ValidId(req.freshId) && forall k :: k in order ==> IsResourceName(k)
    requires Targets(order, SubsystemName(sid)) == Targets(order', SubsystemName(sid))
    ensures Alike(CreateNamespace(s, req, order), CreateNamespace(t, req, order'), sid, n)
  {
    if !AcceptsCreateNamespace(req) { return; }
    var name := NewNamespaceName(req);
    NamespaceNameParses(sid, ChosenId(req.userId, req.freshId));
    SeesSameRecords(s, t, sid, n, name);
    var (s1, found) := GetNamespace(s, name);
    var t1 := GetNamespace(t, name).0;
    if !found.Missing? { return; }
    SeesSameRecords(s1, t1, sid, n, req.parent);
    var (s2, parent) := GetSubsystem(s1, req.parent);
    var t2 := GetSubsystem(t1, req.parent).0;
    if !parent.Found? { return; }
    ParentIs(s.core, sid, n, req.parent);
    AllocatesAlike(s2, t2, sid, n, req, order, order');
    var (s3, reply) := Call(s2, AllocCommand(n, req.spec));
    var t3 := Call(t2, AllocCommand(n, req.spec)).0;
    if !reply.Good? { return; }
    var (s4, stopped) := Visit(s3, Attaching, order, parent.value, sid, req.spec.hostNsid);
    var t4 := Visit(t3, Attaching, order', parent.value, sid, req.spec.hostNsid).0;
    if stopped.Some? { return; }
    SavesAlike(s4, t4, sid, n, name, NamespaceObject(Namespace(name, req.spec, true)));
  }

  lemma DeleteNamespaceLocal(
      s: Session, t: Session, sid: string, n: string, req: DeleteRequest, order: seq<string>, order': seq<string>)
    requires SameView(s, t, sid, n) && Is(s.core, sid, n) && Shaped(s.core)
    requires SubsystemIdOf(req.name) == sid && forall k :: k in order ==> IsResourceName(k)
    requires Targets(order, SubsystemName(sid)) == Targets(order', SubsystemName(sid))
    ensures Alike(DeleteNamespace(s, req, order), DeleteNamespace(t, req, order'), sid, n)
  {
    SeesSameRecords(s, t, sid, n, req.name);
    var (s1, found) := GetNamespace(s, req.name);
    var t1 := GetNamespace(t, req.name).0;
    if !req.accepted || !found.Found? { return; }
    ParentInView(sid, req.name);
    SeesSameRecords(s1, t1, sid, n, ParentName(req.name));
    var (s2, parent) := GetSubsystem(s1, ParentName(req.name));
    var t2 := GetSubsystem(t1, ParentName(req.name)).0;
    if !parent.Found? { return; }
    var nsid := found.value.spec.hostNsid;
    LoopsAlike(s2, t2, Detaching, order, order', sid, n, nsid);
    var (s3, stopped) := Visit(s2, Detaching, order, parent.value, sid, nsid);
    var t3 := Visit(t2, Detaching, order', parent.value, sid, nsid).0;
    if stopped.Some? { return; }
    var command := NamespaceUnalloc(n, nsid);
    SeesSameAnswers(s3, t3, sid, n, command);
    var (s4, reply) := Call(s3, command);
    if !reply.Good? { return; }
    ForgetsAlike(s4, Call(t3, command).0, sid, n, found.value.name);
  }

  /** From two states that agree on the subsystem's keys and NQN, a request under it gets the same answer, sends the
      same commands, and leaves states that agree again. */
  lemma RequestsAreLocal(c: Core, d: Core, sid: string, n: string, op: Op, order': seq<string>, env: Env)
    requires Shaped(c) && Shaped(d) && Agree(c, d, sid, n) && Is(c, sid, n) && Under(op, sid) && FreshIdOk(op)
    requires op.CreateNamespaceOp? || op.DeleteNamespaceOp? ==>
      && (forall k :: k in op.order ==> IsResourceName(k))
      && Targets(op.order, SubsystemName(sid)) == Targets(order', SubsystemName(sid))
    ensures Alike(Result(c, op, env), Result(d, Reordered(op, order'), env), sid, n)
  {
    var s, t := Begin(c, env), Begin(d, env);
    match op
    case CreateControllerOp(req) => CreateControllerLocal(s, t, sid, n, req);
    case DeleteControllerOp(req) => DeleteControllerLocal(s, t, sid, n, req);
    case UpdateControllerOp(req) => UpdateControllerLocal(s, t, sid, n, req);
    case GetControllerOp(req) => GetControllerLocal(s, t, sid, n, req);
    case CreateNamespaceOp(req, order) => CreateNamespaceLocal(s, t, sid, n, req, order, order');
    case DeleteNamespaceOp(req, order) => DeleteNamespaceLocal(s, t, sid, n, req, order, order');
    case GetNamespaceOp(req) => GetNamespaceLocal(s, t, sid, n, req);
  }

  // ------------------------------------------------------------------ what a request leaves alone

  ghost predicate OtherUnitsKept(d: Device, d': Device, n: string) {
    d'.contract == d.contract
    && forall m :: m != n ==>
        (m in d.units <==> m in d'.units) && (m in d.units && m in d'.units ==> d.units[m] == d'.units[m])
  }

  /** Only this NQN's side of the device has changed, and only commands carrying it were sent. */
  ghost predicate Contained(s: Session, s': Session, n: string) {
    && OtherUnitsKept(s.core.device, s'.core.device, n)
    && forall c :: c in s'.log ==> c in s.log || Concerns(c, n)
  }

  lemma ContainedTwice(a: Session, b: Session, c: Session, n: string)
    requires Contained(a, b, n) && Contained(b, c, n)
    ensures Contained(a, c, n)
  {
  }

  lemma CallContained(s: Session, c: Command, n: string)
    requires Concerns(c, n)
    ensures Contained(s, Call(s, c).0, n)
  {
  }

  lemma {:induction false} VisitContained(
      s: Session, link: Link, order: seq<string>, subsys: Subsystem, subsysId: string, nsid: int)
    ensures Contained(s, Visit(s, link, order, subsys, subsysId, nsid).0, subsys.spec.nqn)
    decreases |order|
  {
    if order == [] { return; }
    var n := subsys.spec.nqn;
    if !ControllerPrefixTest(order[0], subsys.name) {
      VisitContained(s, link, order[1..], subsys, subsysId, nsid);
      return;
    }
    var (s1, found) := GetController(s, order[0]);
    if !found.Found? { return; }
    if SubsystemIdOf(found.value.name) != subsysId {
      VisitContained(s1, link, order[1..], subsys, subsysId, nsid);
      return;
    }
    if found.value.spec.ctrlrId.None? { return; }
    var command := link.CommandFor(n, found.value.spec.ctrlrId.value, nsid);
    CallContained(s1, command, n);
    var (s2, reply) := Call(s1, command);
    VisitContained(s2, link, order[1..], subsys, subsysId, nsid);
    ContainedTwice(s, s2, Visit(s2, link, order[1..], subsys, subsysId, nsid).0, n);
  }

  lemma SaveContained(s: Session, s': Session, name: string, o: Object, n: string)
    requires Contained(s, s', n)
    ensures Contained(s, SaveNew(s', name, o).0, n)
    ensures Contained(s, Put(s', name, o).0, n) && Contained(s, Forget(s', name).0, n)
  {
  }

  lemma CreateControllerContained(s: Session, sid: string, n: string, req: CreateControllerRequest)
    requires Shaped(s.core) && Is(s.core, sid, n) && SubsystemIdOf(req.parent) == sid
    ensures Contained(s, CreateController(s, req).0, n)
  {
    var name := NewControllerName(req);
    var (s1, found) := GetController(s, name);
    if !AcceptsCreateController(req) || !found.Missing? { return; }
    var (s2, parent) := GetSubsystem(s1, req.parent);
    if !parent.Found? { return; }
    ParentIs(s.core, sid, n, req.parent);
    var command := ControllerCreate(n, ParamsOf(req.spec));
    CallContained(s2, command, n);
    var (s3, reply) := Call(s2, command);
    if !reply.Good? { return; }
    SaveContained(s, s3, name, ControllerObject(Controller(name, req.spec.(ctrlrId := Some(Int32(reply.id))), true)),
      n);
  }

  lemma DeleteControllerContained(s: Session, sid: string, n: string, req: DeleteRequest)
    requires Is(s.core, sid, n) && SubsystemIdOf(req.name) == sid
    ensures Contained(s, DeleteController(s, req).0, n)
  {
    var (s1, found) := GetController(s, req.name);
    if !req.accepted || !found.Found? { return; }
    var (s2, parent) := GetSubsystem(s1, ParentName(req.name));
    if !parent.Found? || found.value.spec.ctrlrId.None? { return; }
    var command := ControllerRemove(n, found.value.spec.ctrlrId.value, 1);
    CallContained(s2, command, n);
    SaveContained(s, Call(s2, command).0, found.value.name, ControllerObject(found.value), n);
  }

  lemma UpdateControllerContained(s: Session, sid: string, n: string, req: UpdateControllerRequest)
    requires Is(s.core, sid, n) && SubsystemIdOf(req.name) == sid
    ensures Contained(s, UpdateNvmeController(s, req).0, n)
  {
    var (s1, found) := GetController(s, req.name);
    if !found.Found? { return; }
    var (s2, parent) := GetSubsystem(s1, ParentName(req.name));
    if !parent.Found? { return; }
    var command := ControllerUpdate(n, ParamsOf(req.spec));
    CallContained(s2, command, n);
    var (s3, reply) := Call(s2, command);
    if !reply.Good? { return; }
    SaveContained(s, s3, req.name, ControllerObject(Controller(req.name, req.spec.(ctrlrId := Some(Int32(reply.id))),
      true)), n);
  }

  lemma GetsContained(s: Session, sid: string, n: string, req: GetRequest)
    requires Is(s.core, sid, n) && SubsystemIdOf(req.name) == sid
    ensures Contained(s, GetNvmeController(s, req).0, n) && Contained(s, GetNvmeNamespace(s, req).0, n)
  {
    GetControllerContained(s, sid, n, req);
    var (s1, found) := GetNamespace(s, req.name);
    if !found.Found? { return; }
    var (s2, parent) := GetSubsystem(s1, ParentName(req.name));
    if !parent.Found? { return; }
    CallContained(s2, NamespaceInfo(n, found.value.spec.hostNsid), n);
  }

  lemma GetControllerContained(s: Session, sid: string, n: string, req: GetRequest)
    requires Is(s.core, sid, n) && SubsystemIdOf(req.name) == sid
    ensures Contained(s, GetNvmeController(s, req).0, n)
  {
    var (s1, found) := GetController(s, req.name);
    if !found.Found? { return; }
    var (s2, parent) := GetSubsystem(s1, ParentName(req.name));
    if !parent.Found? || found.value.spec.ctrlrId.None? { return; }
    CallContained(s2, ControllerInfo(n, found.value.spec.ctrlrId.value), n);
  }

  lemma CreateNamespaceContained(s: Session, sid: string, n: string, req: CreateNamespaceRequest, order: seq<string>)
    requires Shaped(s.core) && Is(s.core, sid, n) && SubsystemIdOf(req.parent) == sid
    ensures Contained(s, CreateNamespace(s, req, order).0, n)
  {
    var name := NewNamespaceName(req);
    var (s1, found) := GetNamespace(s, name);
    if !AcceptsCreateNamespace(req) || !found.Missing? { return; }
    var (s2, parent) := GetSubsystem(s1, req.parent);
    if !parent.Found? { return; }
    ParentIs(s.core, sid, n, req.parent);
    var command := AllocCommand(n, req.spec);
    CallContained(s2, command, n);
    var (s3, reply) := Call(s2, command);
    if !reply.Good? { return; }
    VisitContained(s3, Attaching, order, parent.value, sid, req.spec.hostNsid);
    var (s4, stopped) := Visit(s3, Attaching, order, parent.value, sid, req.spec.hostNsid);
    ContainedTwice(s, s3, s4, n);
    if stopped.Some? { return; }
    SaveContained(s, s4, name, NamespaceObject(Namespace(name, req.spec, true)), n);
  }

  lemma DeleteNamespaceContained(s: Session, sid: string, n: string, req: DeleteRequest, order: seq<string>)
    requires Is(s.core, sid, n) && SubsystemIdOf(req.name) == sid
    ensures Contained(s, DeleteNamespace(s, req, order).0, n)
  {
    var (s1, found) := GetNamespace(s, req.name);
    if !req.accepted || !found.Found? { return; }
    var (s2, parent) := GetSubsystem(s1, ParentName(req.name));
    if !parent.Found? { return; }
    var nsid := found.value.spec.hostNsid;
    VisitContained(s2, Detaching, order, parent.value, sid, nsid);
    var (s3, stopped) := Visit(s2, Detaching, order, parent.value, sid, nsid);
    if stopped.Some? { return; }
    var command := NamespaceUnalloc(n, nsid);
    CallContained(s3, command, n);
    var (s4, reply) := Call(s3, command);
    ContainedTwice(s, s3, s4, n);
    if !reply.Good? { return; }
    SaveContained(s, s4, found.value.name, NamespaceObject(found.value), n);
  }

  /** A request under one subsystem changes no other subsystem's part of the device and sends no command that carries
      another NQN. */
  lemma RequestsAreContained(c: Core, sid: string, n: string, op: Op, env: Env)
    requires Shaped(c) && Is(c, sid, n) && Under(op, sid)
    ensures OtherUnitsKept(c.device, Step(c, Serve(op, env)).device, n)
    ensures forall command :: command in Result(c, op, env).0.log ==> Concerns(command, n)
  {
    var s := Begin(c, env);
    match op
    case CreateControllerOp(req) => CreateControllerContained(s, sid, n, req);
    case DeleteControllerOp(req) => DeleteControllerContained(s, sid, n, req);
    case UpdateControllerOp(req) => UpdateControllerContained(s, sid, n, req);
    case GetControllerOp(req) => GetControllerContained(s, sid, n, req);
    case CreateNamespaceOp(req, order) => CreateNamespaceContained(s, sid, n, req, order);
    case DeleteNamespaceOp(req, order) => DeleteNamespaceContained(s, sid, n, req, order);
    case GetNamespaceOp(req) => GetsContained(s, sid, n, req);
  }

  /** Nothing outside the subsystem's keys changes either. */
  ghost predicate OtherKeysKept(c: Core, c': Core, sid: string) {
    && c'.scan == c.scan && c'.pagination == c.pagination
    && (forall k :: SubsystemIdOf(k) != sid ==>
        (k in c.store <==> k in c'.store) && (k in c.store && k in c'.store ==> c.store[k] == c'.store[k]))
    && (forall k :: SubsystemIdOf(k) != sid ==>
        (k in c.index <==> k in c'.index) && (k in c.index && k in c'.index ==> c.index[k] == c'.index[k]))
  }

  lemma CreatesKeepOtherKeys(c: Core, sid: string, op: Op, env: Env)
    requires ValidId(sid) && Under(op, sid) && FreshIdOk(op) && IsCreate(op)
    ensures OtherKeysKept(c, Step(c, Serve(op, env)), sid)
  {
    if !Accepts(op) {
      RefusedCreate(c, op, env);
      return;
    }
    CreateEffects(c, op, env);
    NewKeyInView(sid, op);
  }

  lemma RequestsKeepOtherKeys(c: Core, sid: string, op: Op, env: Env)
    requires Shaped(c) && ValidId(sid) && Under(op, sid) && FreshIdOk(op)
    ensures OtherKeysKept(c, Step(c, Serve(op, env)), sid)
  {
    hide Handle, OtherKeysKept, DeleteEffect, UpdateEffect;
    var c', r := Step(c, Serve(op, env)), Result(c, op, env).1;
    if IsCreate(op) {
      CreatesKeepOtherKeys(c, sid, op, env);
    } else if IsDelete(op) {
      DeleteEffects(c, op, env);
      DeletesKeepOtherKeys(c, env, c', r, op.del.name, sid);
    } else if op.UpdateControllerOp? {
      UpdateEffects(c, op, env);
      UpdatesKeepOtherKeys(c, env, c', r, op.upd.name, sid);
    } else {
      GetsChangeNothing(c, op, env);
      NothingKeepsAll(c, sid);
    }
  }

  lemma DeletesKeepOtherKeys(c: Core, env: Env, c': Core, r: Response, key: string, sid: string)
    requires DeleteEffect(c, env, c', r, key) && SubsystemIdOf(key) == sid
    ensures OtherKeysKept(c, c', sid)
  {
  }

  lemma UpdatesKeepOtherKeys(c: Core, env: Env, c': Core, r: Response, key: string, sid: string)
    requires UpdateEffect(c, env, c', r, key) && SubsystemIdOf(key) == sid
    ensures OtherKeysKept(c, c', sid)
  {
  }

  lemma NothingKeepsAll(c: Core, sid: string)
    ensures OtherKeysKept(c, c, sid)
  {
  }

  lemma GetsChangeNothing(c: Core, op: Op, env: Env)
    requires op.GetControllerOp? || op.GetNamespaceOp?
    ensures Step(c, Serve(op, env)) == c
  {
    hide GetNvmeController, GetNvmeNamespace;
    if op.GetControllerOp? {
      GetControllerChangesNothing(Begin(c, env), op.get);
    } else {
      GetNamespaceChangesNothing(Begin(c, env), op.get);
    }
  }

  lemma RefusedCreate(c: Core, op: Op, env: Env)
    requires IsCreate(op) && !Accepts(op)
    ensures Step(c, Serve(op, env)) == c
  {
  }

  lemma NewKeyInView(sid: string, op: Op)
    requires ValidId(sid) && IsCreate(op) && Under(op, sid) && FreshIdOk(op) && Accepts(op)
    ensures SubsystemIdOf(NewKey(op)) == sid
  {
    if op.CreateControllerOp? {
      ControllerNameParses(sid, ChosenId(op.cctrl.userId, op.cctrl.freshId));
    } else {
      NamespaceNameParses(sid, ChosenId(op.cns.userId, op.cns.freshId));
    }
  }

  // ------------------------------------------------------------------ two subsystems

  /** The other subsystem's view is untouched. */
  lemma OthersSeeNoChange(c: Core, sid: string, n: string, op: Op, env: Env, other: string, m: string)
    requires Shaped(c) && Is(c, sid, n) && Is(c, other, m) && sid != other && n != m && Under(op, sid) && FreshIdOk(op)
    ensures Agree(c, Step(c, Serve(op, env)), other, m) && Is(Step(c, Serve(op, env)), other, m)
  {
    RequestsAreContained(c, sid, n, op, env);
    RequestsKeepOtherKeys(c, sid, op, env);
    SubsystemNameParses(other);
  }

  /** The orders in which the loops may run: on the subsystem's own controllers the same one. */
  ghost predicate SameLoop(c: Core, op: Op, order': seq<string>, sid: string) {
    op.CreateNamespaceOp? || op.DeleteNamespaceOp? ==>
      && (forall k :: k in op.order ==> k in c.index)
      && Targets(op.order, SubsystemName(sid)) == Targets(order', SubsystemName(sid))
  }

  /** Two requests under different subsystems with different NQNs commute: each gets the same answer and sends the same
      commands in either order, none of them carrying the other's NQN, and the two orders end in the same state. */
  lemma RequestsCommute(
      c: Core, a: string, n: string, p: Op, p': seq<string>, pe: Env, b: string, m: string, q: Op, q': seq<string>,
          qe: Env)
    requires Shaped(c) && Is(c, a, n) && Is(c, b, m) && a != b && n != m
    requires Under(p, a) && Under(q, b) && FreshIdOk(p) && FreshIdOk(q)
    requires SameLoop(c, p, p', a) && SameLoop(c, q, q', b)
    ensures var c1 := Step(c, Serve(p, pe)); var c2 := Step(c, Serve(q, qe));
      && Result(c2, Reordered(p, p'), pe).1 == Result(c, p, pe).1
          && Result(c2, Reordered(p, p'), pe).0.log == Result(c, p, pe).0.log
      && Result(c1, Reordered(q, q'), qe).1 == Result(c, q, qe).1
          && Result(c1, Reordered(q, q'), qe).0.log == Result(c, q, qe).0.log
      && Step(c1, Serve(Reordered(q, q'), qe)) == Step(c2, Serve(Reordered(p, p'), pe))
    ensures forall x :: x in Result(c, p, pe).0.log ==> Concerns(x, n) && !Concerns(x, m)
    ensures forall x :: x in Result(c, q, qe).0.log ==> Concerns(x, m) && !Concerns(x, n)
  {
    hide Handle;
    var c1, c2 := Step(c, Serve(p, pe)), Step(c, Serve(q, qe));
    ShapeStep(c, Serve(p, pe));
    ShapeStep(c, Serve(q, qe));
    OthersSeeNoChange(c, a, n, p, pe, b, m);
    OthersSeeNoChange(c, b, m, q, qe, a, n);
    RequestsAreLocal(c, c2, a, n, p, p', pe);
    RequestsAreLocal(c, c1, b, m, q, q', qe);
    RequestsAreContained(c, a, n, p, pe);
    RequestsAreContained(c, b, m, q, qe);
    SameEnd(c, a, n, p, p', pe, b, m, q, q', qe);
  }

  lemma SameEnd(
      c: Core, a: string, n: string, p: Op, p': seq<string>, pe: Env, b: string, m: string, q: Op, q': seq<string>,
          qe: Env)
    requires Shaped(c) && Is(c, a, n) && Is(c, b, m) && a != b && n != m
    requires Under(p, a) && Under(q, b) && FreshIdOk(p) && FreshIdOk(q)
    requires var c1 := Step(c, Serve(p, pe)); var c2 := Step(c, Serve(q, qe));
      && Shaped(c1) && Shaped(c2) && Is(c1, b, m) && Is(c2, a, n)
      && Agree(c1, Step(c2, Serve(Reordered(p, p'), pe)), a, n)
          && Agree(c2, Step(c1, Serve(Reordered(q, q'), qe)), b, m)
    ensures var c1 := Step(c, Serve(p, pe)); var c2 := Step(c, Serve(q, qe));
      Step(c1, Serve(Reordered(q, q'), qe)) == Step(c2, Serve(Reordered(p, p'), pe))
  {
    var c1, c2 := Step(c, Serve(p, pe)), Step(c, Serve(q, qe));
    var x, y := Step(c1, Serve(Reordered(q, q'), qe)), Step(c2, Serve(Reordered(p, p'), pe));
    RequestsKeepOtherKeys(c, a, p, pe);
    RequestsKeepOtherKeys(c, b, q, qe);
    RequestsKeepOtherKeys(c1, b, Reordered(q, q'), qe);
    RequestsKeepOtherKeys(c2, a, Reordered(p, p'), pe);
    RequestsAreContained(c, a, n, p, pe);
    RequestsAreContained(c, b, m, q, qe);
    RequestsAreContained(c1, b, m, Reordered(q, q'), qe);
    RequestsAreContained(c2, a, n, Reordered(p, p'), pe);
    SameStores(c, c1, c2, x, y, a, n, b, m);
    SameIndexes(c, c1, c2, x, y, a, n, b, m);
    SameDevices(c.device, c1.device, c2.device, x.device, y.device, n, m);
  }

  lemma SameStores(c: Core, c1: Core, c2: Core, x: Core, y: Core, a: string, n: string, b: string, m: string)
    requires a != b && Agree(c1, y, a, n) && Agree(c2, x, b, m)
    requires OtherKeysKept(c, c1, a) && OtherKeysKept(c, c2, b) && OtherKeysKept(c1, x, b) && OtherKeysKept(c2, y, a)
    ensures x.store == y.store
  {
    forall k ensures (k in x.store <==> k in y.store) && (k in x.store && k in y.store ==> x.store[k] == y.store[k]) {
      if SubsystemIdOf(k) == a { } else if SubsystemIdOf(k) == b { } else { }
    }
  }

  lemma SameIndexes(c: Core, c1: Core, c2: Core, x: Core, y: Core, a: string, n: string, b: string, m: string)
    requires a != b && Agree(c1, y, a, n) && Agree(c2, x, b, m)
    requires OtherKeysKept(c, c1, a) && OtherKeysKept(c, c2, b) && OtherKeysKept(c1, x, b) && OtherKeysKept(c2, y, a)
    ensures x.index == y.index
  {
    forall k ensures (k in x.index <==> k in y.index) && (k in x.index && k in y.index ==> x.index[k] == y.index[k]) {
      if SubsystemIdOf(k) == a { } else if SubsystemIdOf(k) == b { } else { }
    }
  }

  lemma SameDevices(c: Device, c1: Device, c2: Device, x: Device, y: Device, n: string, m: string)
    requires n != m && SameUnit(c1, y, n) && SameUnit(c2, x, m)
    requires OtherUnitsKept(c, c1, n) && OtherUnitsKept(c, c2, m)
    requires OtherUnitsKept(c1, x, m) && OtherUnitsKept(c2, y, n)
    ensures x == y
  {
    forall u ensures (u in x.units <==> u in y.units) && (u in x.units && u in y.units ==> x.units[u] == y.units[u]) {
      if u == n { } else if u == m { } else { }
    }
    assert x.units == y.units;
  }
}
