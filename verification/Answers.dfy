/** What each request is answered and what it sends, in terms of what is stored and of what the surroundings do: which
    of its reads, calls and writes is the first to go wrong, and what it says when none does. */
module Answers {
  import opened Names
  import opened Device
  import opened Bridge
  import opened Sorting
  import opened Handlers
  import opened Runs
  import opened Shape
  import opened Sweep
  import opened Namespaces
  import opened Requests
  import opened Wire
  import opened Pages
  import opened Scan

  // ------------------------------------------------------------------ what can go wrong

  predicate Reads(env: Env, i: nat) {
    i < |env.loads| ==> env.loads[i]
  }

  /** What the `i`-th read, of a key where a record of the kind asked for is stored or not, comes to. None: it is
      found. */
  function ReadTrouble(c: Core, env: Env, i: nat, key: string, fits: bool): Option<Error> {
    if !Reads(env, i) || (key in c.store && !fits) then Some(ReadFailed)
    else if key !in c.store then Some(NotFound)
    else None
  }

  /** The lookups of a child and of its subsystem. */
  function LookupTrouble(c: Core, env: Env, name: string, fits: bool): Option<Error> {
    var first := ReadTrouble(c, env, 0, name, fits);
    if first.Some? then first else ReadTrouble(c, env, 1, ParentName(name), StoresSubsystem(c, ParentName(name)))
  }

  /** What the next answer on the wire comes to, to a command the device is willing to run or not. None: it is heard. */
  function CallTrouble(net: seq<Answer>, willing: bool): Option<Error> {
    if net == [] || net[0].Lost? then Some(TransportFailed)
    else if net[0].Declined? || !willing then Some(DeviceRefused)
    else None
  }

  predicate Willing(d: Device, command: Command, net: seq<Answer>) {
    net != [] && net[0].Done? && Execute(d, command, net[0].id).Some?
  }

  lemma CallComesTo(s: Session, command: Command)
    ensures var (s', reply) := Call(s, command);
      var trouble := CallTrouble(s.env.net, Willing(s.core.device, command, s.env.net));
      && s'.log == s.log + [command] && s'.env.saves == s.env.saves && s'.env.net == Drop(s.env.net, 1)
      && s'.core == s.core.(device := s'.core.device)
      && (reply.Good? <==> trouble.None?)
      && (trouble.Some? ==> Refusal(reply) == trouble.value)
      && (trouble.None? ==> var d := s.core.device; var a := s.env.net[0];
            reply == Good(AnsweredId(d, command, a.id), a.ids, a.texts)
            && Some(s'.core.device) == Execute(d, command, a.id))
  {
  }

  /** A question is one the device is always willing to answer, unchanged. */
  lemma QuestionComesTo(s: Session, command: Command)
    requires command.SubsystemList? || command.ControllerList? || command.NamespaceList? || command.GetVersion?
             || command.ControllerInfo? || command.NamespaceInfo?
    ensures var (s', reply) := Call(s, command); var trouble := CallTrouble(s.env.net, true);
      && s'.core == s.core && s'.log == s.log + [command]
      && (reply.Good? <==> trouble.None?)
      && (trouble.Some? ==> Refusal(reply) == trouble.value)
      && (trouble.None? ==> reply == Good(s.env.net[0].id, s.env.net[0].ids, s.env.net[0].texts))
  {
    CallComesTo(s, command);
  }

  // ------------------------------------------------------------------ gets

  /** A subsystem that is found is answered exactly when the device lists its NQN. */
  lemma GetSubsystemAnswers(c: Core, req: GetRequest, env: Env)
    requires req.accepted
    ensures var (s, r) := Result(c, GetSubsystemOp(req), env);
      var unread := ReadTrouble(c, env, 0, req.name, StoresSubsystem(c, req.name));
      var unheard := CallTrouble(env.net, true);
      && s.core == c
      && (unread.Some? ==> r == Rejected(unread.value) && s.log == [])
      && (unread.None? ==> s.log == [SubsystemList])
      && (unread.None? && unheard.Some? ==> r == Rejected(unheard.value))
      && (unread.None? && unheard.None? ==> var nqn := NqnAt(c, req.name);
            && (Ok(r) <==> nqn in env.net[0].texts)
            && (Ok(r) ==> r == Returned(SubsystemObject(Subsystem([], SubsystemSpec(nqn, [], [], 0), "TBD"))))
            && (!Ok(r) ==> r == Rejected(DeviceRefused)))
  {
    var (s1, found) := GetSubsystem(Begin(c, env), req.name);
    QuestionComesTo(s1, SubsystemList);
    hide Call, Refusal;
  }

  /** A controller that is found is answered by its name and recorded id, when the device answers for that id under the
      NQN of its subsystem. */
  lemma GetControllerAnswers(c: Core, req: GetRequest, env: Env)
    requires Shaped(c) && req.accepted
    ensures var (s, r) := Result(c, GetControllerOp(req), env);
      var unread := LookupTrouble(c, env, req.name, StoresController(c, req.name));
      var unheard := CallTrouble(env.net, true);
      && s.core == c
      && (unread.Some? ==> r == Rejected(unread.value) && s.log == [])
      && (unread.None? ==> s.log == [ControllerInfo(NqnAt(c, ParentName(req.name)), IdAt(c, req.name))])
      && (unread.None? && unheard.Some? ==> r == Rejected(unheard.value))
      && (unread.None? && unheard.None? ==> var id := IdAt(c, req.name);
            r == Returned(ControllerObject(
                   Controller(req.name, ControllerSpec(Unspecified, None, Some(id), 0, 0, 0), true))))
  {
    var (s1, found) := GetController(Begin(c, env), req.name);
    var (s2, parent) := GetSubsystem(s1, ParentName(req.name));
    if !found.Found? || !parent.Found? { return; }
    assert StoredWell(req.name, c.store[req.name]);
    QuestionComesTo(s2, ControllerInfo(parent.value.spec.nqn, found.value.spec.ctrlrId.value));
    hide Call, Refusal, Shaped, StoredWell;
  }

  /** A namespace that is found is answered by its name and the first text the device answers for its HostNsid. */
  lemma GetNamespaceAnswers(c: Core, req: GetRequest, env: Env)
    requires req.accepted
    ensures var (s, r) := Result(c, GetNamespaceOp(req), env);
      var unread := LookupTrouble(c, env, req.name, StoresNamespace(c, req.name));
      var unheard := CallTrouble(env.net, true);
      && s.core == c
      && (unread.Some? ==> r == Rejected(unread.value) && s.log == [])
      && (unread.None? ==> s.log == [NamespaceInfo(NqnAt(c, ParentName(req.name)), NsidAt(c, req.name))])
      && (unread.None? && unheard.Some? ==> r == Rejected(unheard.value))
      && (unread.None? && unheard.None? ==> var texts := env.net[0].texts;
            var nguid := if texts != [] then texts[0] else [];
            r == Returned(NamespaceObject(Namespace(req.name, NamespaceSpec(0, nguid, 0, [], []), true))))
  {
    var (s1, found) := GetNamespace(Begin(c, env), req.name);
    var (s2, parent) := GetSubsystem(s1, ParentName(req.name));
    if !found.Found? || !parent.Found? { return; }
    QuestionComesTo(s2, NamespaceInfo(parent.value.spec.nqn, found.value.spec.hostNsid));
    hide Call, Refusal;
  }

  // ------------------------------------------------------------------ deletes

  /** A delete of what is not stored sends nothing and changes nothing, and is well exactly if that was allowed. */
  lemma MissingDeleteAnswers(c: Core, op: Op, env: Env)
    requires IsDelete(op) && op.del.accepted && op.del.name !in c.store && Reads(env, 0)
    ensures var (s, r) := Result(c, op, env);
      && s.core == c && s.log == []
      && (op.del.allowMissing ==> r == Acknowledged) && (!op.del.allowMissing ==> r == Rejected(NotFound))
  {
  }

  lemma DeleteForgets(s: Session, name: string)
    ensures var (s', r) := Forget(s, name);
      && (r == Acknowledged <==> SavesWork(s.env)) && (!SavesWork(s.env) ==> r == Rejected(WriteFailed))
      && (SavesWork(s.env) ==> s'.core.store == s.core.store - {name} && s'.core.index == s.core.index - {name})
      && s'.log == s.log
  {
  }

  lemma DeleteSubsystemAnswers(c: Core, req: DeleteRequest, env: Env)
    requires Shaped(c) && req.accepted
    ensures var (s, r) := Result(c, DeleteSubsystemOp(req), env);
      var unread := ReadTrouble(c, env, 0, req.name, StoresSubsystem(c, req.name));
      && (unread.Some? ==> s.core == c && s.log == [])
      && (unread == Some(ReadFailed) ==> r == Rejected(ReadFailed))
      && (unread.None? ==> var command := SubsystemDelete(NqnAt(c, req.name));
            var unheard := CallTrouble(env.net, Willing(c.device, command, env.net));
            && s.log == [command]
            && (unheard.Some? ==> r == Rejected(unheard.value) && s.core.store == c.store && s.core.index == c.index)
            && (unheard.None? && !SavesWork(env) ==> r == Rejected(WriteFailed) && s.core.store == c.store)
            && (unheard.None? && SavesWork(env) ==>
                  r == Acknowledged && s.core.store == c.store - {req.name} && s.core.index == c.index - {req.name}))
  {
    var (s1, found) := GetSubsystem(Begin(c, env), req.name);
    if !found.Found? { return; }
    assert StoredWell(req.name, c.store[req.name]);
    CallComesTo(s1, SubsystemDelete(found.value.spec.nqn));
    DeleteForgets(Call(s1, SubsystemDelete(found.value.spec.nqn)).0, req.name);
    hide Call, Refusal, Shaped, StoredWell, Execute, Willing;
  }

  /** The removal is forced. */
  lemma DeleteControllerAnswers(c: Core, req: DeleteRequest, env: Env)
    requires Shaped(c) && req.accepted
    ensures var (s, r) := Result(c, DeleteControllerOp(req), env);
      var unread := LookupTrouble(c, env, req.name, StoresController(c, req.name));
      && (unread.Some? ==> s.core == c && s.log == [])
      && (unread.Some? && req.name in c.store ==> r == Rejected(unread.value))
      && (unread.None? ==> var command := ControllerRemove(NqnAt(c, ParentName(req.name)), IdAt(c, req.name), 1);
            var unheard := CallTrouble(env.net, Willing(c.device, command, env.net));
            && s.log == [command]
            && (unheard.Some? ==> r == Rejected(unheard.value) && s.core.store == c.store && s.core.index == c.index)
            && (unheard.None? && !SavesWork(env) ==> r == Rejected(WriteFailed) && s.core.store == c.store)
            && (unheard.None? && SavesWork(env) ==>
                  r == Acknowledged && s.core.store == c.store - {req.name} && s.core.index == c.index - {req.name}))
  {
    var (s1, found) := GetController(Begin(c, env), req.name);
    var (s2, parent) := GetSubsystem(s1, ParentName(req.name));
    if !found.Found? || !parent.Found? { return; }
    assert StoredWell(req.name, c.store[req.name]);
    var command := ControllerRemove(parent.value.spec.nqn, found.value.spec.ctrlrId.value, 1);
    CallComesTo(s2, command);
    DeleteForgets(Call(s2, command).0, req.name);
    hide Call, Refusal, Shaped, StoredWell, Execute, Willing;
  }

  /** A delete of a namespace whose lookups fail; where they do not, its loop and unallocation decide. */
  lemma DeleteNamespaceAnswers(c: Core, op: Op, env: Env)
    requires op.DeleteNamespaceOp? && op.del.accepted && op.del.name in c.store
    ensures var (s, r) := Result(c, op, env);
      var unread := LookupTrouble(c, env, op.del.name, StoresNamespace(c, op.del.name));
      unread.Some? ==> r == Rejected(unread.value) && s.core == c && s.log == []
  {
    var (s1, found) := GetNamespace(Begin(c, env), op.del.name);
    var (s2, parent) := GetSubsystem(s1, ParentName(op.del.name));
  }

  lemma OkDeleteErases(c: Core, op: Op, env: Env)
    requires Shaped(c) && IsDelete(op) && OrderOk(c, op) && op.del.name in c.store && Ok(Result(c, op, env).1)
    ensures var c' := Step(c, Serve(op, env)); c'.store == c.store - {op.del.name} && op.del.name !in c'.index
    ensures Result(c, op, env).1 == Acknowledged
  {
    InvalidExactly(c, op, env);
    match op
    case DeleteSubsystemOp(req) => DeleteSubsystemAnswers(c, req, env);
    case DeleteControllerOp(req) => DeleteControllerAnswers(c, req, env);
    case DeleteNamespaceOp(req, _) =>
      DeleteNamespaceAnswers(c, op, env);
      hide Handle;
      DeleteInAnyOrder(c, op, env);
  }

  /** A delete that was not allowed to find nothing, and is well, has erased what was stored under its name. */
  lemma OkDeleteFoundSomething(c: Core, op: Op, env: Env)
    requires Shaped(c) && IsDelete(op) && OrderOk(c, op) && !op.del.allowMissing && Ok(Result(c, op, env).1)
    ensures op.del.name in c.store && Step(c, Serve(op, env)).store == c.store - {op.del.name}
    ensures op.del.name !in Step(c, Serve(op, env)).index
  {
    InvalidExactly(c, op, env);
    if op.del.name !in c.store {
      if Reads(env, 0) { MissingDeleteAnswers(c, op, env); } else { UnreadDelete(c, op, env); }
    }
    OkDeleteErases(c, op, env);
  }

  lemma UnreadDelete(c: Core, op: Op, env: Env)
    requires IsDelete(op) && op.del.accepted && !Reads(env, 0)
    ensures Result(c, op, env).1 == Rejected(ReadFailed) && Result(c, op, env).0.log == []
  {
  }

  // ------------------------------------------------------------------ creates and updates of controllers

  /** The id a device willing to run the command answers, where it picks the one in the next answer. */
  lemma AnsweredInRange(s: Session, command: Command)
    requires DeviceShaped(s.core.device) && (command.ControllerCreate? || command.ControllerUpdate?)
    requires Willing(s.core.device, command, s.env.net)
    ensures InRange(AnsweredId(s.core.device, command, s.env.net[0].id))
  {
    ExecuteKeepsShape(s.core.device, command, s.env.net[0].id);
  }

  /** What a controller create or update sends: one command under the subsystem's NQN with the request's fields. */
  predicate SendsController(log: seq<Command>, op: Op, nqn: string)
    requires op.CreateControllerOp? || op.UpdateControllerOp?
  {
    && |log| == 1 && (if op.CreateControllerOp? then log[0].ControllerCreate? else log[0].ControllerUpdate?)
    && log[0].nqn == nqn
    && CarriesController(log[0].params, if op.CreateControllerOp? then op.cctrl.spec else op.upd.spec)
  }

  /** The record of a controller: active, the request's fields, and the id the device answered. */
  function RecordOf(name: string, spec: ControllerSpec, id: int): Object {
    ControllerObject(
      Controller(
        name, ControllerSpec(spec.transport, spec.endpoint, Some(id), spec.maxNsq, spec.maxNcq, spec.sqes), true))
  }

  /** Whether the record of a controller command's answer could be kept, and the answer to match. */
  predicate Recorded(c: Core, s: Session, r: Response, env: Env, name: string, spec: ControllerSpec, command: Command) {
    env.net != [] && env.net[0].Done? &&
    var o := RecordOf(name, spec, AnsweredId(c.device, command, env.net[0].id));
    if SavesWork(env) then r == Returned(o) && s.core.store == c.store[name := o]
    else r == Rejected(WriteFailed) && s.core.store == c.store
  }

  lemma SaveNewComesTo(s: Session, name: string, o: Object)
    ensures var (s', r) := SaveNew(s, name, o);
      && s'.log == s.log
      && (if SavesWork(s.env) then r == Returned(o) && s'.core.store == s.core.store[name := o]
          else r == Rejected(WriteFailed) && s'.core.store == s.core.store)
  {
  }

  lemma PutComesTo(s: Session, name: string, o: Object)
    ensures var (s', ok) := Put(s, name, o);
      && s'.log == s.log && ok == SavesWork(s.env)
      && s'.core.store == if ok then s.core.store[name := o] else s.core.store
  {
  }

  lemma FieldsCarried(spec: ControllerSpec)
    requires spec.endpoint.Some?
    ensures CarriesController(ParamsOf(spec), spec)
  {
  }

  lemma CreateControllerAnswers(c: Core, op: Op, env: Env, key: string)
    requires Shaped(c) && op.CreateControllerOp? && Acceptable(op) && NamedAsAsked(op, key)
    ensures var (s, r) := Result(c, op, env); var parent := op.cctrl.parent;
      var known := ReadTrouble(c, env, 0, key, StoresController(c, key));
      var orphan := ReadTrouble(c, env, 1, parent, StoresSubsystem(c, parent));
      && (known == Some(ReadFailed) ==> r == Rejected(ReadFailed) && s.log == [] && s.core == c)
      && (known.None? ==> r == Returned(c.store[key]) && s.log == [] && s.core == c)
      && (known == Some(NotFound) && orphan.Some? ==> r == Rejected(orphan.value) && s.log == [] && s.core == c)
      && (known == Some(NotFound) && orphan.None? ==>
            && SendsController(s.log, op, NqnAt(c, parent))
            && var unheard := CallTrouble(env.net, Willing(c.device, s.log[0], env.net));
               if unheard.Some? then r == Rejected(unheard.value) && s.core.store == c.store
               else Recorded(c, s, r, env, key, op.cctrl.spec, s.log[0]))
  {
    NewKeyIsAsAsked(op);
    AcceptsSpelledOut(op);
    var req := op.cctrl;
    var (s1, found) := GetController(Begin(c, env), key);
    var (s2, parent) := GetSubsystem(s1, req.parent);
    if !found.Missing? || !parent.Found? { return; }
    var command := ControllerCreate(parent.value.spec.nqn, ParamsOf(req.spec));
    CallComesTo(s2, command);
    var (s3, reply) := Call(s2, command);
    assert s3.log == [command];
    FieldsCarried(req.spec);
    hide ParamsOf, CarriesController;
    if !reply.Good? { return; }
    AnsweredInRange(s2, command);
    IdSurvivesInt32(reply.id);
    SaveNewComesTo(s3, key, RecordOf(key, req.spec, reply.id));
    hide Call, Refusal, Shaped, Execute, Willing, SaveNew, NamedAsAsked, Acceptable, InRange, AnsweredId;
  }

  /** The one call of an update, under an NQN, and the record after it. */
  lemma UpdateFollows(c: Core, s: Session, op: Op, env: Env, nqn: string)
    requires op.UpdateControllerOp? && op.upd.spec.endpoint.Some? && DeviceShaped(c.device)
    requires s.core == c && s.log == [] && s.env.net == env.net && s.env.saves == env.saves
    ensures var name, spec := op.upd.name, op.upd.spec;
      var (s1, reply) := Call(s, ControllerUpdate(nqn, ParamsOf(spec)));
      var (s', r) :=
        if !reply.Good? then (s1, Rejected(Refusal(reply)))
        else
          var o := ControllerObject(Controller(name, spec.(ctrlrId := Some(Int32(reply.id))), true));
          var (s2, ok) := Put(s1, name, o);
          (s2, if ok then Returned(o) else Rejected(WriteFailed));
      && s'.core == c.(store := s'.core.store) && SendsController(s'.log, op, nqn)
      && var unheard := CallTrouble(env.net, Willing(c.device, s'.log[0], env.net));
         if unheard.Some? then r == Rejected(unheard.value) && s'.core.store == c.store
         else Recorded(c, s', r, env, name, spec, s'.log[0])
  {
    var spec, command := op.upd.spec, ControllerUpdate(nqn, ParamsOf(op.upd.spec));
    CallComesTo(s, command);
    var (s1, reply) := Call(s, command);
    assert s1.log == [command] && s1.core == c;
    FieldsCarried(spec);
    hide ParamsOf, CarriesController;
    if !reply.Good? { return; }
    AnsweredInRange(s, command);
    IdSurvivesInt32(reply.id);
    PutComesTo(s1, op.upd.name, RecordOf(op.upd.name, spec, reply.id));
    hide Call, Refusal, Execute, Willing, InRange, AnsweredId, DeviceShaped;
  }

  lemma UpdateControllerAnswers(c: Core, op: Op, env: Env)
    requires Shaped(c) && op.UpdateControllerOp? && Acceptable(op) && !MaskRefused(c, op, env)
    ensures var (s, r) := Result(c, op, env); var name := op.upd.name;
      var unread := LookupTrouble(c, env, name, StoresController(c, name));
      && s.core == c.(store := s.core.store)
      && (unread.Some? ==> r == Rejected(unread.value) && s.log == [] && s.core == c)
      && (unread.None? ==>
            && SendsController(s.log, op, NqnAt(c, ParentName(name)))
            && var unheard := CallTrouble(env.net, Willing(c.device, s.log[0], env.net));
               if unheard.Some? then r == Rejected(unheard.value) && s.core.store == c.store
               else Recorded(c, s, r, env, name, op.upd.spec, s.log[0]))
  {
    var req := op.upd;
    var (s1, found) := GetController(Begin(c, env), req.name);
    var (s2, parent) := GetSubsystem(s1, ParentName(req.name));
    if !found.Found? || !parent.Found? { return; }
    UpdateFollows(c, s2, op, env, parent.value.spec.nqn);
    hide Call, Put, Refusal, Shaped, Willing, Recorded, SendsController, CallTrouble, ParamsOf, Int32;
  }

  // ------------------------------------------------------------------ creates of subsystems

  /** The session of a subsystem create once its own key has been read. */
  function AfterKey(c: Core, env: Env): Session {
    Begin(c, env.(loads := Drop(env.loads, 1)))
  }

  lemma VersionComesTo(s: Session)
    ensures var (s', version) := Call(s, GetVersion);
      && s'.core == s.core && s'.log == s.log + [GetVersion] && s'.env.saves == s.env.saves
      && (version.NoReply? <==> s.env.net == [] || s.env.net[0].Lost?)
      && FirstText(version) ==
           if s.env.net != [] && s.env.net[0].Done? && s.env.net[0].texts != [] then s.env.net[0].texts[0] else []
  {
  }

  /** What becomes of a subsystem the device has taken: the version query, whose refusal does not matter, and the
      record. */
  predicate VersionFollows(c: Core, s: Session, r: Response, spec: SubsystemSpec, env: Env, key: string) {
    && |s.log| == 2 && s.log[1] == GetVersion
    && if |env.net| < 2 || env.net[1].Lost? then r == Rejected(TransportFailed) && s.core.store == c.store
       else
         var firmware := if env.net[1].Done? && env.net[1].texts != [] then env.net[1].texts[0] else [];
         var o := SubsystemObject(Subsystem(key, spec, firmware));
         if SavesWork(env) then r == Returned(o) && s.core.store == c.store[key := o]
         else r == Rejected(WriteFailed) && s.core.store == c.store
  }

  /** What becomes of a new subsystem after the scan: the creating command first. */
  predicate SubsystemFollows(c: Core, s: Session, r: Response, spec: SubsystemSpec, env: Env, key: string) {
    s.log != [] && CarriesSubsystem(s.log[0], spec) &&
    var unheard := CallTrouble(env.net, Willing(c.device, s.log[0], env.net));
    if unheard.Some? then r == Rejected(unheard.value) && |s.log| == 1 && s.core.store == c.store
    else VersionFollows(c, s, r, spec, env, key)
  }

  lemma TakenFollows(c: Core, s: Session, spec: SubsystemSpec, env: Env, key: string)
    requires s.core.store == c.store && |s.log| == 1 && s.env.net == Drop(env.net, 1) && s.env.saves == env.saves
    ensures var (s1, version) := Call(s, GetVersion);
      var o := SubsystemObject(Subsystem(key, spec, FirstText(version)));
      var (s', r) := if version.NoReply? then (s1, Rejected(TransportFailed)) else SaveNew(s1, key, o);
      s'.log != [] && s'.log[0] == s.log[0] && VersionFollows(c, s', r, spec, env, key)
  {
    VersionComesTo(s);
    var (s1, version) := Call(s, GetVersion);
    SaveNewComesTo(s1, key, SubsystemObject(Subsystem(key, spec, FirstText(version))));
    hide Call, SaveNew, FirstText;
  }

  lemma CreationFollows(c: Core, s: Session, spec: SubsystemSpec, env: Env, key: string)
    requires s.core == c && s.log == [] && s.env.net == env.net && s.env.saves == env.saves
    ensures var (s1, reply) := Call(s, CreationCommand(spec)); var (s2, version) := Call(s1, GetVersion);
      var o := SubsystemObject(Subsystem(key, spec, FirstText(version)));
      var (s', r) :=
        if !reply.Good? then (s1, Rejected(Refusal(reply)))
        else if version.NoReply? then (s2, Rejected(TransportFailed))
        else SaveNew(s2, key, o);
      SubsystemFollows(c, s', r, spec, env, key)
  {
    hide VersionFollows, Execute, SaveNew, FirstText;
    var command := CreationCommand(spec);
    CallComesTo(s, command);
    var (s1, reply) := Call(s, command);
    assert s1.log == [command];
    hide Call, Willing;
    if reply.Good? { TakenFollows(c, s1, spec, env, key); }
  }

  /** Which selected key the scan objects to first, if any, decides the rest. */
  lemma CreateSubsystemAnswers(c: Core, op: Op, env: Env, key: string) returns (n: nat)
    requires op.CreateSubsystemOp? && Acceptable(op) && NamedAsAsked(op, key)
    ensures var (s, r) := Result(c, op, env); var keys := Selected(c.scan, op.order);
      var known := ReadTrouble(c, env, 0, key, StoresSubsystem(c, key));
      && n <= |keys| && (forall i :: 0 <= i < n ==> Clear(AfterKey(c, env), keys, op.csub.spec.nqn, i))
      && (n < |keys| ==> !Clear(AfterKey(c, env), keys, op.csub.spec.nqn, n))
      && (known == Some(ReadFailed) ==> r == Rejected(ReadFailed) && s.log == [] && s.core == c)
      && (known.None? ==> r == Returned(c.store[key]) && s.log == [] && s.core == c)
      && (known == Some(NotFound) && n < |keys| ==>
            r == Rejected(Objection(AfterKey(c, env), keys, n)) && s.log == [] && s.core == c)
      && (known == Some(NotFound) && n == |keys| ==> SubsystemFollows(c, s, r, op.csub.spec, env, key))
  {
    NewKeyIsAsAsked(op);
    AcceptsSpelledOut(op);
    n := ScanStopsExactly(AfterKey(c, env), op.order, op.csub.spec.nqn);
    var (s1, found) := GetSubsystem(Begin(c, env), key);
    if !found.Missing? { return; }
    assert s1 == AfterKey(c, env);
    var (s2, objection) := ScanForNqn(s1, op.order, op.csub.spec.nqn);
    if objection.Some? { return; }
    CreationFollows(c, s2, op.csub.spec, env, key);
    hide Call, Refusal, SaveNew, FirstText, ScanForNqn, Clear, SubsystemFollows, Acceptable, NamedAsAsked;
  }

  /** A subsystem is created, or answered as it is, exactly when the request is acceptable and: it is there and can be
      read; or its read, the scan, both calls and the write go well and the device takes the NQN. */
  lemma CreateSubsystemSucceedsExactly(c: Core, op: Op, env: Env, key: string)
    requires op.CreateSubsystemOp? && NamedAsAsked(op, key)
    ensures var keys, nqn := Selected(c.scan, op.order), op.csub.spec.nqn;
      Ok(Result(c, op, env).1) <==>
        && Acceptable(op) && Reads(env, 0) && (key in c.store ==> StoresSubsystem(c, key))
        && (key !in c.store ==>
              && (forall i :: 0 <= i < |keys| ==> Clear(AfterKey(c, env), keys, nqn, i))
              && |env.net| >= 2 && env.net[0].Done? && !env.net[1].Lost? && SavesWork(env)
              && (nqn in c.device.units ==> !c.device.contract.refusesDuplicate))
  {
    InvalidExactly(c, op, env);
    if !Acceptable(op) { return; }
    var n := CreateSubsystemAnswers(c, op, env, key);
    var (s, r) := Result(c, op, env);
    if key !in c.store && Reads(env, 0) && n == |Selected(c.scan, op.order)| {
      FollowsWellExactly(c, s, r, op.csub.spec, env, key);
    }
    hide Handle, Acceptable, NamedAsAsked, Clear, SubsystemFollows;
  }

  lemma FollowsWellExactly(c: Core, s: Session, r: Response, spec: SubsystemSpec, env: Env, key: string)
    requires SubsystemFollows(c, s, r, spec, env, key)
    ensures Ok(r) <==>
      && |env.net| >= 2 && env.net[0].Done? && !env.net[1].Lost? && SavesWork(env)
      && (spec.nqn in c.device.units ==> !c.device.contract.refusesDuplicate)
  {
  }

  // ------------------------------------------------------------------ creates of namespaces

  /** Up to the allocation; what the loop and the record then come to is `FailedCreateLeavesExactly`. */
  lemma CreateNamespaceAnswers(c: Core, op: Op, env: Env, key: string)
    requires Shaped(c) && op.CreateNamespaceOp? && Acceptable(op) && NamedAsAsked(op, key) && OrderOk(c, op)
    ensures var (s, r) := Result(c, op, env); var parent, spec := op.cns.parent, op.cns.spec;
      var known := ReadTrouble(c, env, 0, key, StoresNamespace(c, key));
      var orphan := ReadTrouble(c, env, 1, parent, StoresSubsystem(c, parent));
      && (known == Some(ReadFailed) ==> r == Rejected(ReadFailed) && s.log == [] && s.core == c)
      && (known.None? ==> r == Returned(c.store[key]) && s.log == [] && s.core == c)
      && (known == Some(NotFound) && orphan.Some? ==> r == Rejected(orphan.value) && s.log == [] && s.core == c)
      && (known == Some(NotFound) && orphan.None? ==>
            && s.log != [] && CarriesNamespace(s.log[0], NqnAt(c, parent), spec)
            && var unheard := CallTrouble(env.net, Willing(c.device, s.log[0], env.net));
               && (unheard.Some? ==> r == Rejected(unheard.value) && |s.log| == 1 && s.core.store == c.store)
               && (Ok(r) ==> r == Returned(NamespaceObject(Namespace(key, spec, true)))
                             && s.core.store == c.store[key := NamespaceObject(Namespace(key, spec, true))]))
  {
    NewKeyIsAsAsked(op);
    AcceptsSpelledOut(op);
    var req := op.cns;
    var (s1, found) := GetNamespace(Begin(c, env), key);
    var (s2, parent) := GetSubsystem(s1, req.parent);
    if !found.Missing? || !parent.Found? { return; }
    var command := AllocCommand(parent.value.spec.nqn, req.spec);
    CallComesTo(s2, command);
    var (s3, reply) := Call(s2, command);
    assert s3.log == [command];
    AllocatedFollows(s3, req, op.order, parent.value, key);
    hide Call, Refusal, Visit, SaveNew, Shaped, Execute, Willing, Acceptable, NamedAsAsked, OrderOk, CarriesNamespace;
  }

  lemma AllocatedFollows(
      s: Session, req: CreateNamespaceRequest, order: seq<string>, subsys: Subsystem, key: string)
    requires s.log != []
    ensures var (s1, stopped) := Visit(s, Attaching, order, subsys, SubsystemIdOf(req.parent), req.spec.hostNsid);
      var o := NamespaceObject(Namespace(key, req.spec, true));
      var (s2, r) := if stopped.Some? then (s1, Rejected(stopped.value)) else SaveNew(s1, key, o);
      && s2.log != [] && s2.log[0] == s.log[0]
      && (Ok(r) ==> r == Returned(o) && s2.core.store == s.core.store[key := o])
  {
    var (s1, stopped) := Visit(s, Attaching, order, subsys, SubsystemIdOf(req.parent), req.spec.hostNsid);
    assert s.log <= s1.log && s1.log[0] == s.log[0];
    SaveNewComesTo(s1, key, NamespaceObject(Namespace(key, req.spec, true)));
  }

  // ------------------------------------------------------------------ lists

  /** Where a list request starts, if its token is known. */
  function Position(c: Core, req: ListRequest): Option<int> {
    if req.pageToken == [] then Some(0)
    else if req.pageToken in c.pagination then Some(c.pagination[req.pageToken])
    else None
  }

  /** Served when the position is within the list: so many elements from there on, in order; where they end is kept
      under the fresh token unless it is the end of the list. */
  ghost predicate ServesPage(c: Core, s: Session, r: Response, l: Listing, req: ListRequest, token: string, from: int)
    requires req.pageSize >= 0
  {
    var n := l.Length();
    var end := if from + SizeOf(req) < n then from + SizeOf(req) else n;
    && (Ok(r) <==> 0 <= from <= n) && (!Ok(r) ==> r == Rejected(OutOfRange) && s.core == c)
    && (Ok(r) ==> Shows(l, r, Stretch(from, end))
                  && s.core == if end < n then c.(pagination := c.pagination[token := end]) else c)
  }

  lemma PositionIs(c: Core, req: ListRequest)
    requires req.pageSize >= 0
    ensures ExtractPagination(req.pageSize, req.pageToken, c.pagination) ==
      if Position(c, req).None? then BadPaging(UnknownToken) else Window(SizeOf(req), Position(c, req).value)
  {
  }

  lemma NqnsServed(s: Session, texts: seq<string>, req: ListRequest, token: string, from: nat)
    requires req.pageSize >= 0 && from <= |texts|
    ensures var (page, more) := LimitPagination(texts, from, SizeOf(req));
      var s' := RememberNext(s, more, token, from + SizeOf(req));
      s'.log == s.log && ServesPage(s.core, s', ListedNqns(Sort(page, StringLe)), NqnList(texts), req, token, from)
  {
    hide Sort, AscendingTexts, LimitPagination, SizeOf, StringLe;
    var end := if from + SizeOf(req) < |texts| then from + SizeOf(req) else |texts|;
    Limited(texts, from, SizeOf(req), end);
    SortedTextsAscend(texts[from..end]);
    var (page, more) := LimitPagination(texts, from, SizeOf(req));
    assert page == texts[from..end];
  }

  lemma IdsServed(s: Session, what: Children, ids: seq<int>, req: ListRequest, token: string, from: nat)
    requires req.pageSize >= 0 && from <= |ids|
    ensures var (page, more) := LimitPagination(ids, from, SizeOf(req));
      var s' := RememberNext(s, more, token, from + SizeOf(req));
      && s'.log == s.log
      && ServesPage(s.core, s', ListedIds(Sort(Int32s(page), IntLe)), IdList(what, ids), req, token, from)
  {
    hide Sort, Ascending, LimitPagination, SizeOf, IntLe, Int32, Int32s;
    var end := if from + SizeOf(req) < |ids| then from + SizeOf(req) else |ids|;
    Limited(ids, from, SizeOf(req), end);
    SortedAscend(Int32s(ids[from..end]));
    var (page, more) := LimitPagination(ids, from, SizeOf(req));
    assert page == ids[from..end];
  }

  lemma BeyondIsOutOfRange(c: Core, s: Session, l: Listing, req: ListRequest, token: string, from: int)
    requires req.pageSize >= 0 && s.core == c && (from < 0 || from > l.Length())
    ensures ServesPage(c, s, Rejected(OutOfRange), l, req, token, from)
  {
  }

  /** The two list handlers once they have asked. */
  lemma NqnListIsQuestion(c: Core, req: ListRequest, token: string, env: Env)
    requires req.accepted && req.pageSize >= 0 && Position(c, req).Some?
    ensures var from, size := Position(c, req).value, SizeOf(req);
      var (s, reply) := Call(Begin(c, env), SubsystemList);
      Result(c, ListSubsystemsOp(req, token), env) ==
        if !reply.Good? then (s, Rejected(Refusal(reply)))
        else if from < 0 || from > |reply.texts| then (s, Rejected(OutOfRange))
        else
          var (page, more) := LimitPagination(reply.texts, from, size);
          (RememberNext(s, more, token, from + size), ListedNqns(Sort(page, StringLe)))
  {
    PositionIs(c, req);
    hide ExtractPagination, Call, LimitPagination, RememberNext, Sort, SizeOf;
  }

  lemma IdListIsQuestion(c: Core, what: Children, req: ListRequest, token: string, env: Env)
    requires req.accepted && req.pageSize >= 0 && Position(c, req).Some?
    requires ReadTrouble(c, env, 0, req.parent, StoresSubsystem(c, req.parent)).None?
    ensures var nqn, from, size := NqnAt(c, req.parent), Position(c, req).value, SizeOf(req);
      var (s, reply) :=
        Call(AfterKey(c, env), if what.Controllers? then ControllerList(nqn) else NamespaceList(nqn));
      Result(c, ListChildrenOp(what, req, token), env) ==
        if !reply.Good? then (s, Rejected(Refusal(reply)))
        else if from < 0 || from > |reply.ids| then (s, Rejected(OutOfRange))
        else
          var (page, more) := LimitPagination(reply.ids, from, size);
          (RememberNext(s, more, token, from + size), ListedIds(Sort(Int32s(page), IntLe)))
  {
    hide ExtractPagination, Call, LimitPagination, RememberNext, Sort, SizeOf, Int32s, Int32, IntLe;
    PositionIs(c, req);
    assert GetSubsystem(Begin(c, env), req.parent) == (AfterKey(c, env), Found(c.store[req.parent].subsystem));
  }

  lemma ListTurnedAway(c: Core, what: Children, req: ListRequest, token: string, env: Env)
    requires req.accepted && req.pageSize >= 0
    requires Position(c, req).None? || ReadTrouble(c, env, 0, req.parent, StoresSubsystem(c, req.parent)).Some?
    ensures var (s, r) := Result(c, ListChildrenOp(what, req, token), env);
      && s.core == c && s.log == []
      && r == if Position(c, req).None? then Rejected(UnknownToken)
              else Rejected(ReadTrouble(c, env, 0, req.parent, StoresSubsystem(c, req.parent)).value)
  {
    PositionIs(c, req);
    hide ExtractPagination;
  }

  lemma ListSubsystemsAnswers(c: Core, req: ListRequest, token: string, env: Env)
    requires req.accepted && req.pageSize >= 0
    ensures var (s, r) := Result(c, ListSubsystemsOp(req, token), env);
      var unheard := CallTrouble(env.net, true);
      && (Position(c, req).None? ==> r == Rejected(UnknownToken) && s.log == [] && s.core == c)
      && (Position(c, req).Some? ==> s.log == [SubsystemList])
      && (Position(c, req).Some? && unheard.Some? ==> r == Rejected(unheard.value) && s.core == c)
      && (Position(c, req).Some? && unheard.None? ==>
            ServesPage(c, s, r, NqnList(env.net[0].texts), req, token, Position(c, req).value))
  {
    if Position(c, req).None? {
      PositionIs(c, req);
      return;
    }
    hide Handle, Call, Sort, ServesPage, LimitPagination, RememberNext, SizeOf, Position, CallTrouble;
    NqnListIsQuestion(c, req, token, env);
    QuestionComesTo(Begin(c, env), SubsystemList);
    var from := Position(c, req).value;
    var (s, reply) := Call(Begin(c, env), SubsystemList);
    if !reply.Good? { return; }
    if 0 <= from <= |reply.texts| {
      NqnsServed(s, reply.texts, req, token, from);
    } else {
      BeyondIsOutOfRange(c, s, NqnList(reply.texts), req, token, from);
    }
  }

  lemma ListChildrenAnswers(c: Core, what: Children, req: ListRequest, token: string, env: Env)
    requires req.accepted && req.pageSize >= 0
    ensures var (s, r) := Result(c, ListChildrenOp(what, req, token), env);
      var unread := ReadTrouble(c, env, 0, req.parent, StoresSubsystem(c, req.parent));
      var unheard := CallTrouble(env.net, true);
      && (Position(c, req).None? ==> r == Rejected(UnknownToken) && s.log == [] && s.core == c)
      && (Position(c, req).Some? && unread.Some? ==> r == Rejected(unread.value) && s.log == [] && s.core == c)
      && (Position(c, req).Some? && unread.None? ==> var nqn := NqnAt(c, req.parent);
            && s.log == [if what.Controllers? then ControllerList(nqn) else NamespaceList(nqn)]
            && (unheard.Some? ==> r == Rejected(unheard.value) && s.core == c)
            && (unheard.None? ==>
                  ServesPage(c, s, r, IdList(what, env.net[0].ids), req, token, Position(c, req).value)))
  {
    hide Handle, Call, Sort, ServesPage, LimitPagination, RememberNext, SizeOf, Position, CallTrouble;
    var unread := ReadTrouble(c, env, 0, req.parent, StoresSubsystem(c, req.parent));
    if Position(c, req).None? || unread.Some? {
      ListTurnedAway(c, what, req, token, env);
      return;
    }
    var from, nqn := Position(c, req).value, NqnAt(c, req.parent);
    var command := if what.Controllers? then ControllerList(nqn) else NamespaceList(nqn);
    IdListIsQuestion(c, what, req, token, env);
    QuestionComesTo(AfterKey(c, env), command);
    var (s, reply) := Call(AfterKey(c, env), command);
    if !reply.Good? { return; }
    if 0 <= from <= |reply.ids| {
      IdsServed(s, what, reply.ids, req, token, from);
    } else {
      BeyondIsOutOfRange(c, s, IdList(what, reply.ids), req, token, from);
    }
  }
}
