/** Attachments over whole runs, restarts included: the device has a namespace attached to a controller exactly when the
    two belong to one subsystem and the controller was created first, with no restart in between. */
module History {
  import opened Names
  import opened Device
  import opened Bridge
  import opened Handlers
  import opened Runs
  import opened Shape
  import opened Effects
  import opened Backing
  import opened Orphans
  import opened Sweep
  import opened Namespaces

  /** A time, and the number of restarts before it. */
  datatype Moment = Moment(time: nat, era: nat)

  /** When each key was last created, and the moment now. */
  datatype History = History(born: map<string, Moment>, now: Moment)

  const DAWN := History(map[], Moment(0, 0))

  function Record(h: History, c: Core, e: Event): History {
    var time := h.now.time + 1;
    if e.Restart? then h.(now := Moment(time, h.now.era + 1))
    else if IsCreate(e.op) && Ok(Result(c, e.op, e.env).1) && NewKey(e.op) !in c.store
    then History(h.born[NewKey(e.op) := h.now], Moment(time, h.now.era))
    else h.(now := Moment(time, h.now.era))
  }

  function RecordAll(h: History, c: Core, events: seq<Event>): History
    decreases |events|
  {
    if events == [] then h else RecordAll(Record(h, c, events[0]), Step(c, events[0]), events[1..])
  }

  /** The first was created before the second, and the bridge has not restarted in between. */
  predicate Precedes(a: Moment, b: Moment) {
    a.era == b.era && a.time < b.time
  }

  /** Controller `k` and namespace `l` belong to the subsystem and the controller is the older. */
  predicate Older(c: Core, h: History, sid: string, k: string, l: string) {
    && StoresController(c, k) && StoresNamespace(c, l) && SubsystemIdOf(k) == sid && SubsystemIdOf(l) == sid
    && k in h.born && l in h.born && Precedes(h.born[k], h.born[l])
  }

  function OlderPairs(c: Core, h: History, sid: string): set<(int, int)> {
    set k, l | k in c.store && l in c.store && Older(c, h, sid, k, l) :: (IdAt(c, k), NsidAt(c, l))
  }

  function AttachedAt(c: Core, subsysKey: string): set<(int, int)>
    requires Present(c, subsysKey)
  {
    c.device.units[NqnAt(c, subsysKey)].attached
  }

  ghost predicate Dated(c: Core, h: History) {
    forall k :: k in c.store ==> k in h.born && h.born[k].time < h.now.time && h.born[k].era <= h.now.era
  }

  ghost predicate AttachmentsAreHistory(c: Core, h: History) {
    forall s :: StoresSubsystem(c, s) ==> Present(c, s) && AttachedAt(c, s) == OlderPairs(c, h, SubsystemIdOf(s))
  }

  ghost predicate Followed(c: Core, h: History) {
    Shaped(c) && Backed(c) && Dated(c, h) && AttachmentsAreHistory(c, h)
  }

  /** Created since the last restart. */
  predicate Recent(h: History, k: string) {
    k in h.born && h.born[k].era == h.now.era
  }

  /** The index knows what is stored and was created since the last restart, and nothing else. */
  ghost predicate IndexIsRecent(c: Core, h: History) {
    forall k :: k in c.index <==> k in c.store && Recent(h, k)
  }

  ghost predicate Tracked(c: Core, h: History) {
    Followed(c, h) && IndexIsRecent(c, h)
  }

  /** The id an update that succeeds records. */
  function UpdatedId(c: Core, req: UpdateControllerRequest, env: Env): int
    requires env.net != [] && env.net[0].Done?
  {
    AnsweredId(c.device, ControllerUpdate([], ParamsOf(req.spec)), env.net[0].id)
  }

  predicate Unattached(c: Core, name: string)
    requires StoresController(c, name) && HasParent(c, name)
  {
    forall p :: p in ParentUnit(c, name).attached ==> p.0 != IdAt(c, name)
  }

  /** No controller holds the namespace but those the index knows. */
  predicate HeldByKnown(c: Core, name: string)
    requires StoresNamespace(c, name) && HasParent(c, name)
  {
    Holders(ParentUnit(c, name), NsidAt(c, name)) <= IdsUnder(c, SubsystemIdOf(name))
  }

  /** Where a controller goes, or gets another id, its attachments go with it or there are none. (An echoing device
      refuses an id it does not have.) Where a namespace goes that was created before the last restart, the device
      drops its attachments, or insists on their being gone, or they are to controllers the index knows. */
  predicate LinksFollow(c: Core, h: History, e: Event) {
    e.Serve? ==>
      && (e.op.DeleteControllerOp? && StoresController(c, e.op.del.name) && HasParent(c, e.op.del.name) ==>
            c.device.contract.dropsAttachments || Unattached(c, e.op.del.name))
      && (e.op.UpdateControllerOp? && StoresController(c, e.op.upd.name) && HasParent(c, e.op.upd.name)
            && e.env.net != [] && e.env.net[0].Done? ==>
            || UpdatedId(c, e.op.upd, e.env) == IdAt(c, e.op.upd.name)
            || (c.device.contract.echoesUpdate
                && UpdatedId(c, e.op.upd, e.env) !in ParentUnit(c, e.op.upd.name).controllers)
            || Unattached(c, e.op.upd.name))
      && (e.op.DeleteNamespaceOp? && StoresNamespace(c, e.op.del.name) && HasParent(c, e.op.del.name)
            && !Recent(h, e.op.del.name) ==>
            c.device.contract.dropsAttachments || c.device.contract.refusesAttached || HeldByKnown(c, e.op.del.name))
  }

  /** The request completes: it succeeds, or it is turned away without a trace. */
  predicate Completes(c: Core, e: Event) {
    e.Serve? ==> Ok(Result(c, e.op, e.env).1) || Step(c, e) == c
  }

  // ------------------------------------------------------------------ what a success leaves behind

  lemma CreatedSubsystemIs(c: Core, op: Op, env: Env)
    requires op.CreateSubsystemOp? && NewKey(op) !in c.store
    requires Ok(Result(c, op, env).1) && c.device.contract.refusesDuplicate
    ensures op.csub.spec.nqn !in c.device.units
    ensures Step(c, Serve(op, env)).device ==
      c.device.(units := c.device.units[op.csub.spec.nqn := Unit(0, 256, {}, {}, {})])
  {
    var s, req := Begin(c, env), op.csub;
    var (s1, found) := GetSubsystem(s, NewSubsystemName(req));
    var (s2, objection) := ScanForNqn(s1, op.order, req.spec.nqn);
    var (s3, reply) := Call(s2, CreationCommand(req.spec));
    var (s4, version) := Call(s3, GetVersion);
    assert s4.core.device == s3.core.device;
  }

  lemma DeletedSubsystemIs(c: Core, op: Op, env: Env)
    requires Shaped(c) && op.DeleteSubsystemOp? && StoresSubsystem(c, op.del.name)
    requires Ok(Result(c, op, env).1)
    ensures Step(c, Serve(op, env)).store == c.store - {op.del.name}
    ensures Step(c, Serve(op, env)).device == c.device.(units := c.device.units - {NqnAt(c, op.del.name)})
  {
    var s := Begin(c, env);
    assert StoredWell(op.del.name, c.store[op.del.name]);
    var (s1, found) := GetSubsystem(s, op.del.name);
  }

  lemma CreatedControllerIs(c: Core, op: Op, env: Env)
    requires Shaped(c) && FreshIdOk(op) && op.CreateControllerOp? && NewKey(op) !in c.store && Ok(Result(c, op, env).1)
    ensures Present(c, op.cctrl.parent) && ParentName(NewKey(op)) == op.cctrl.parent
    ensures var n := NqnAt(c, op.cctrl.parent); var d := Step(c, Serve(op, env)).device;
      n in d.units && d == WithUnit(c.device, n, c.device.units[n].(controllers := d.units[n].controllers))
  {
    var s, req := Begin(c, env), op.cctrl;
    var (s1, found) := GetController(s, NewControllerName(req));
    var (s2, parent) := GetSubsystem(s1, req.parent);
    ParentOfNewChild(c, req.parent, NewKey(op), ChosenId(req.userId, req.freshId));
    var (s3, reply) := Call(s2, ControllerCreate(parent.value.spec.nqn, ParamsOf(req.spec)));
  }

  function WithoutController(c: Core, name: string): Device
    requires StoresController(c, name) && HasParent(c, name)
  {
    var u, id := ParentUnit(c, name), IdAt(c, name);
    var left := if c.device.contract.dropsAttachments then set p | p in u.attached && p.0 != id else u.attached;
    WithUnit(c.device, NqnAt(c, ParentName(name)), u.(controllers := u.controllers - {id}, attached := left))
  }

  lemma RemovalIs(s: Session, name: string)
    requires StoresController(s.core, name) && StoresSubsystem(s.core, ParentName(name))
    ensures var (s', reply) := Call(s, ControllerRemove(NqnAt(s.core, ParentName(name)), IdAt(s.core, name), 1));
      reply.Good? ==> HasParent(s.core, name) && s'.core.device == WithoutController(s.core, name)
  {
  }

  lemma DeletedControllerIs(c: Core, op: Op, env: Env)
    requires Shaped(c) && op.DeleteControllerOp? && StoresController(c, op.del.name)
    requires Ok(Result(c, op, env).1)
    ensures HasParent(c, op.del.name) && Step(c, Serve(op, env)).store == c.store - {op.del.name}
    ensures Step(c, Serve(op, env)).device == WithoutController(c, op.del.name)
  {
    var s, name := Begin(c, env), op.del.name;
    assert StoredWell(name, c.store[name]);
    var (s1, found) := GetController(s, name);
    var (s2, parent) := GetSubsystem(s1, ParentName(name));
    assert StoresSubsystem(c, ParentName(name));
    RemovalIs(s2, name);
    hide Shaped, StoredWell, ParentName, Execute, WithoutController;
  }

  lemma UpdatedControllerIs(c: Core, op: Op, env: Env)
    requires Shaped(c) && op.UpdateControllerOp? && StoresController(c, op.upd.name) && Ok(Result(c, op, env).1)
    ensures var c' := Step(c, Serve(op, env));
      && env.net != [] && env.net[0].Done? && HasParent(c, op.upd.name)
      && (c.device.contract.echoesUpdate ==> ParamsOf(op.upd.spec).ctrlrId in ParentUnit(c, op.upd.name).controllers)
      && c'.device == c.device && StoresController(c', op.upd.name)
          && IdAt(c', op.upd.name) == UpdatedId(c, op.upd, env)
      && c'.store == c.store[op.upd.name := c'.store[op.upd.name]]
  {
    var s, name := Begin(c, env), op.upd.name;
    assert StoredWell(name, c.store[name]);
    var (s1, found) := GetController(s, name);
    var (s2, parent) := GetSubsystem(s1, ParentName(name));
    CallKeepsShape(s2, ControllerUpdate(parent.value.spec.nqn, ParamsOf(op.upd.spec)));
    var (s3, reply) := Call(s2, ControllerUpdate(parent.value.spec.nqn, ParamsOf(op.upd.spec)));
    IdSurvivesInt32(reply.id);
  }

  // ------------------------------------------------------------------ the pairs before and after

  /** Whatever happens to other keys, the pairs of a subsystem are those of its stored children. */
  lemma SamePairs(c: Core, c': Core, h: History, h': History, sid: string)
    requires forall k, l :: Older(c, h, sid, k, l) <==> Older(c', h', sid, k, l)
    requires forall k, l :: Older(c, h, sid, k, l) ==>
      Older(c', h', sid, k, l) && IdAt(c, k) == IdAt(c', k) && NsidAt(c, l) == NsidAt(c', l)
    ensures OlderPairs(c, h, sid) == OlderPairs(c', h', sid)
  {
    forall p | p in OlderPairs(c, h, sid) ensures p in OlderPairs(c', h', sid) {
      var k, l :| k in c.store && l in c.store && Older(c, h, sid, k, l) && p == (IdAt(c, k), NsidAt(c, l));
      assert Older(c', h', sid, k, l);
    }
    forall p | p in OlderPairs(c', h', sid) ensures p in OlderPairs(c, h, sid) {
      var k, l :| k in c'.store && l in c'.store && Older(c', h', sid, k, l) && p == (IdAt(c', k), NsidAt(c', l));
      assert Older(c, h, sid, k, l);
    }
  }

  lemma PairsWithoutController(c: Core, c': Core, h: History, h': History, sid: string, name: string)
    requires ControllersBacked(c) && StoresController(c, name) && SubsystemIdOf(name) == sid
    requires c'.store == c.store - {name} && h'.born == h.born
    ensures OlderPairs(c', h', sid) == set p | p in OlderPairs(c, h, sid) && p.0 != IdAt(c, name)
  {
    forall p | p in OlderPairs(c', h', sid) ensures p in OlderPairs(c, h, sid) && p.0 != IdAt(c, name) {
      var k, l :| k in c'.store && l in c'.store && Older(c', h', sid, k, l) && p == (IdAt(c', k), NsidAt(c', l));
      assert Older(c, h, sid, k, l) && Siblings(k, name);
    }
    forall p | p in OlderPairs(c, h, sid) && p.0 != IdAt(c, name) ensures p in OlderPairs(c', h', sid) {
      var k, l :| k in c.store && l in c.store && Older(c, h, sid, k, l) && p == (IdAt(c, k), NsidAt(c, l));
      assert Older(c', h', sid, k, l);
    }
  }

  lemma PairsWithoutNamespace(c: Core, c': Core, h: History, h': History, sid: string, name: string)
    requires NamespacesBacked(c) && StoresNamespace(c, name) && SubsystemIdOf(name) == sid
    requires c'.store == c.store - {name} && h'.born == h.born
    ensures OlderPairs(c', h', sid) == set p | p in OlderPairs(c, h, sid) && p.1 != NsidAt(c, name)
  {
    forall p | p in OlderPairs(c', h', sid) ensures p in OlderPairs(c, h, sid) && p.1 != NsidAt(c, name) {
      var k, l :| k in c'.store && l in c'.store && Older(c', h', sid, k, l) && p == (IdAt(c', k), NsidAt(c', l));
      assert Older(c, h, sid, k, l) && Siblings(l, name);
    }
    forall p | p in OlderPairs(c, h, sid) && p.1 != NsidAt(c, name) ensures p in OlderPairs(c', h', sid) {
      var k, l :| k in c.store && l in c.store && Older(c, h, sid, k, l) && p == (IdAt(c, k), NsidAt(c, l));
      assert Older(c', h', sid, k, l);
    }
  }

  /** Of the subsystem's stored controllers, the index knows those created since the last restart. */
  ghost predicate RecentIndexed(c: Core, h: History, sid: string) {
    forall k :: StoresController(c, k) && SubsystemIdOf(k) == sid ==> (k in c.index <==> Recent(h, k))
  }

  /** A new namespace is preceded by every controller of its subsystem the index knows. */
  lemma PairsWithNamespace(c: Core, c': Core, h: History, h': History, sid: string, name: string, o: Object)
    requires Shaped(c) && RecentIndexed(c, h, sid) && Dated(c, h) && name !in c.store
    requires o.NamespaceObject? && SubsystemIdOf(name) == sid
    requires c'.store == c.store[name := o] && h'.born == h.born[name := h.now]
    ensures OlderPairs(c', h', sid) == OlderPairs(c, h, sid) + Pairs(IdsUnder(c, sid), o.namespace.spec.hostNsid)
  {
    var nsid := o.namespace.spec.hostNsid;
    forall p | p in OlderPairs(c', h', sid) ensures p in OlderPairs(c, h, sid) + Pairs(IdsUnder(c, sid), nsid) {
      var k, l :| k in c'.store && l in c'.store && Older(c', h', sid, k, l) && p == (IdAt(c', k), NsidAt(c', l));
      assert StoresController(c, k) && StoredWell(k, c.store[k]);
      if l == name { assert k in ControllerKeys(c, sid); } else { assert Older(c, h, sid, k, l); }
    }
    forall p | p in OlderPairs(c, h, sid) ensures p in OlderPairs(c', h', sid) {
      var k, l :| k in c.store && l in c.store && Older(c, h, sid, k, l) && p == (IdAt(c, k), NsidAt(c, l));
      assert Older(c', h', sid, k, l);
    }
    KnownControllersPrecede(c, c', h, h', sid, name);
  }

  lemma KnownControllersPrecede(c: Core, c': Core, h: History, h': History, sid: string, name: string)
    requires Dated(c, h) && RecentIndexed(c, h, sid) && name !in c.store && SubsystemIdOf(name) == sid
    requires StoresNamespace(c', name) && c'.store == c.store[name := c'.store[name]]
    requires h'.born == h.born[name := h.now]
    ensures Pairs(IdsUnder(c, sid), NsidAt(c', name)) <= OlderPairs(c', h', sid)
  {
    forall p | p in Pairs(IdsUnder(c, sid), NsidAt(c', name)) ensures p in OlderPairs(c', h', sid) {
      var k :| k in ControllerKeys(c, sid) && StoresController(c, k) && p == (IdAt(c, k), NsidAt(c', name));
      assert Older(c', h', sid, k, name);
    }
  }

  // ------------------------------------------------------------------ subsystems other than the one concerned

  ghost predicate ChangedOnlyAt(c: Core, c': Core, h: History, h': History, key: string) {
    && (forall k :: k != key ==>
        (k in c.store <==> k in c'.store) && (k in c.store && k in c'.store ==> c.store[k] == c'.store[k]))
    && (forall k :: k != key ==>
        (k in h.born <==> k in h'.born) && (k in h.born && k in h'.born ==> h.born[k] == h'.born[k]))
  }

  predicate NoChild(c: Core, key: string) {
    key in c.store ==> c.store[key].SubsystemObject?
  }

  lemma PairsElsewhere(c: Core, c': Core, h: History, h': History, key: string, sid: string)
    requires ChangedOnlyAt(c, c', h, h', key)
    requires SubsystemIdOf(key) != sid || (NoChild(c, key) && NoChild(c', key))
    ensures OlderPairs(c, h, sid) == OlderPairs(c', h', sid)
  {
    forall k, l ensures Older(c, h, sid, k, l) <==> Older(c', h', sid, k, l) {
      if k != key && l != key { }
    }
    SamePairs(c, c', h, h', sid);
  }

  /** The attachments of a subsystem whose unit and children have not changed. */
  lemma KeptSubsystem(c: Core, c': Core, h: History, h': History, key: string, s: string)
    requires Followed(c, h) && ChangedOnlyAt(c, c', h, h', key) && StoresSubsystem(c, s) && s != key
    requires NqnAt(c, s) in c'.device.units && c'.device.units[NqnAt(c, s)].attached == AttachedAt(c, s)
    requires SubsystemIdOf(key) != SubsystemIdOf(s) || (NoChild(c, key) && NoChild(c', key))
    ensures StoresSubsystem(c', s) && Present(c', s) && AttachedAt(c', s) == OlderPairs(c', h', SubsystemIdOf(s))
  {
    PairsElsewhere(c, c', h, h', key, SubsystemIdOf(s));
  }

  /** A child's subsystem is its parent and no other. */
  lemma OnlyParentShares(c: Core, key: string, s: string)
    requires Shaped(c) && StoresSubsystem(c, s) && IsResourceName(key) && SubsystemIdOf(key) == SubsystemIdOf(s)
    ensures s == ParentName(key)
  {
    assert StoredWell(s, c.store[s]);
    NameIsRebuilt(s);
  }

  // ------------------------------------------------------------------ one step

  lemma AfterSubsystemCreate(c: Core, c': Core, h: History, h': History, key: string, s: string)
    requires Followed(c, h) && key !in c.store && IsSubsystemName(key) && h'.born == h.born[key := h.now]
    requires StoresSubsystem(c', key) && c'.store == c.store[key := c'.store[key]]
    requires NqnAt(c', key) !in c.device.units
    requires c'.device == c.device.(units := c.device.units[NqnAt(c', key) := Unit(0, 256, {}, {}, {})])
    requires StoresSubsystem(c', s)
    ensures Present(c', s) && AttachedAt(c', s) == OlderPairs(c', h', SubsystemIdOf(s))
  {
    if s == key {
      NewSubsystemHasNoPairs(c, c', h', key);
      return;
    }
    assert ChangedOnlyAt(c, c', h, h', key);
    assert StoresSubsystem(c, s) && Present(c, s);
    KeptSubsystem(c, c', h, h', key, s);
  }

  lemma SubsystemCreateTracked(c: Core, h: History, op: Op, env: Env)
    requires Tracked(c, h) && op.CreateSubsystemOp? && FreshIdOk(op) && c.device.contract.refusesDuplicate
    requires Ok(Result(c, op, env).1) && NewKey(op) !in c.store
    ensures AttachmentsAreHistory(Step(c, Serve(op, env)), Record(h, c, Serve(op, env)))
  {
    hide Handle;
    var e := Serve(op, env);
    var c', h', key := Step(c, e), Record(h, c, e), NewKey(op);
    CreatedHasItsNqn(c, op, env);
    CreatedIsOfItsKind(c, op, env);
    CreatedSubsystemIs(c, op, env);
    SubsystemNameParses(ChosenId(op.csub.userId, op.csub.freshId));
    forall s | StoresSubsystem(c', s)
      ensures Present(c', s) && AttachedAt(c', s) == OlderPairs(c', h', SubsystemIdOf(s))
    {
      AfterSubsystemCreate(c, c', h, h', key, s);
    }
  }

  lemma CreatedHasItsNqn(c: Core, op: Op, env: Env)
    requires op.CreateSubsystemOp? && NewKey(op) !in c.store && Ok(Result(c, op, env).1)
    ensures var c' := Step(c, Serve(op, env));
      StoresSubsystem(c', NewKey(op)) && NqnAt(c', NewKey(op)) == op.csub.spec.nqn
          && c'.store == c.store[NewKey(op) := c'.store[NewKey(op)]]
  {
    CreateEffects(c, op, env);
  }

  lemma NewSubsystemHasNoPairs(c: Core, c': Core, h': History, key: string)
    requires Shaped(c) && Backed(c) && key !in c.store && IsSubsystemName(key)
    requires key in c'.store && c'.store == c.store[key := c'.store[key]] && c'.store[key].SubsystemObject?
    ensures OlderPairs(c', h', SubsystemIdOf(key)) == {}
  {
    forall k | StoresController(c', k) ensures SubsystemIdOf(k) != SubsystemIdOf(key) {
      assert StoresController(c, k);
      NameIsRebuilt(key);
    }
  }

  lemma AfterSubsystemDelete(c: Core, c': Core, h: History, h': History, key: string, s: string)
    requires Followed(c, h) && StoresSubsystem(c, key) && h'.born == h.born
    requires c'.store == c.store - {key} && c'.device == c.device.(units := c.device.units - {NqnAt(c, key)})
    requires StoresSubsystem(c', s)
    ensures Present(c', s) && AttachedAt(c', s) == OlderPairs(c', h', SubsystemIdOf(s))
  {
    assert StoresSubsystem(c, s) && Present(c, s);
    assert ChangedOnlyAt(c, c', h, h', key);
    KeptSubsystem(c, c', h, h', key, s);
  }

  lemma SubsystemDeleteTracked(c: Core, h: History, op: Op, env: Env)
    requires Tracked(c, h) && op.DeleteSubsystemOp? && StoresSubsystem(c, op.del.name)
    requires Ok(Result(c, op, env).1)
    ensures AttachmentsAreHistory(Step(c, Serve(op, env)), Record(h, c, Serve(op, env)))
  {
    hide Handle;
    var e := Serve(op, env);
    var c', h' := Step(c, e), Record(h, c, e);
    DeletedSubsystemIs(c, op, env);
    forall s | StoresSubsystem(c', s)
      ensures Present(c', s) && AttachedAt(c', s) == OlderPairs(c', h', SubsystemIdOf(s))
    {
      AfterSubsystemDelete(c, c', h, h', op.del.name, s);
    }
  }

  lemma AfterControllerCreate(c: Core, c': Core, h: History, h': History, key: string, s: string)
    requires Followed(c, h) && key !in c.store && h'.born == h.born[key := h.now]
    requires StoresController(c', key) && c'.store == c.store[key := c'.store[key]]
    requires forall n :: n in c.device.units ==>
      n in c'.device.units && c'.device.units[n].attached == c.device.units[n].attached
    requires StoresSubsystem(c', s)
    ensures Present(c', s) && AttachedAt(c', s) == OlderPairs(c', h', SubsystemIdOf(s))
  {
    assert StoresSubsystem(c, s) && Present(c, s);
    NewControllerAddsNoPairs(c, c', h, h', key, SubsystemIdOf(s));
  }

  lemma ControllerCreateTracked(c: Core, h: History, op: Op, env: Env)
    requires Tracked(c, h) && op.CreateControllerOp? && FreshIdOk(op)
    requires Ok(Result(c, op, env).1) && NewKey(op) !in c.store
    ensures AttachmentsAreHistory(Step(c, Serve(op, env)), Record(h, c, Serve(op, env)))
  {
    hide Handle;
    var e := Serve(op, env);
    var c', h' := Step(c, e), Record(h, c, e);
    CreateEffects(c, op, env);
    CreatedIsOfItsKind(c, op, env);
    CreatedControllerIs(c, op, env);
    forall s | StoresSubsystem(c', s)
      ensures Present(c', s) && AttachedAt(c', s) == OlderPairs(c', h', SubsystemIdOf(s))
    {
      AfterControllerCreate(c, c', h, h', NewKey(op), s);
    }
  }

  lemma NewControllerAddsNoPairs(c: Core, c': Core, h: History, h': History, key: string, sid: string)
    requires Dated(c, h) && key !in c.store && key in c'.store
    requires c'.store == c.store[key := c'.store[key]] && c'.store[key].ControllerObject?
    requires h'.born == h.born[key := h.now]
    ensures OlderPairs(c, h, sid) == OlderPairs(c', h', sid)
  {
    forall k, l ensures Older(c, h, sid, k, l) <==> Older(c', h', sid, k, l) {
      if k == key && l in c.store { }
    }
    SamePairs(c, c', h, h', sid);
  }

  /** A controller without attachments has no pairs. */
  lemma UnattachedHasNoPairs(c: Core, h: History, name: string)
    requires Followed(c, h) && StoresController(c, name) && HasParent(c, name) && Unattached(c, name)
    ensures forall l :: !Older(c, h, SubsystemIdOf(name), name, l)
    ensures forall p :: p in OlderPairs(c, h, SubsystemIdOf(name)) ==> p.0 != IdAt(c, name)
  {
    var s := ParentName(name);
    assert StoredWell(name, c.store[name]);
    ParentNameParses(name);
    assert StoresSubsystem(c, s) && AttachedAt(c, s) == OlderPairs(c, h, SubsystemIdOf(s));
    forall k, l | Older(c, h, SubsystemIdOf(name), k, l) ensures k != name {
      assert (IdAt(c, k), NsidAt(c, l)) in OlderPairs(c, h, SubsystemIdOf(name));
    }
  }

  lemma AfterControllerDelete(c: Core, c': Core, h: History, h': History, key: string, s: string)
    requires Followed(c, h) && StoresController(c, key) && HasParent(c, key)
    requires h'.born == h.born && c'.store == c.store - {key}
    requires c'.device == WithoutController(c, key) && (c.device.contract.dropsAttachments || Unattached(c, key))
    requires StoresSubsystem(c', s)
    ensures Present(c', s) && AttachedAt(c', s) == OlderPairs(c', h', SubsystemIdOf(s))
  {
    assert StoredWell(key, c.store[key]);
    assert StoresSubsystem(c, s) && Present(c, s);
    if SubsystemIdOf(key) == SubsystemIdOf(s) {
      OnlyParentShares(c, key, s);
      PairsWithoutController(c, c', h, h', SubsystemIdOf(s), key);
      if !c.device.contract.dropsAttachments { UnattachedHasNoPairs(c, h, key); }
      return;
    }
    assert ChangedOnlyAt(c, c', h, h', key);
    DifferentParent(c, key, s);
    KeptSubsystem(c, c', h, h', key, s);
  }

  lemma ControllerDeleteTracked(c: Core, h: History, op: Op, env: Env)
    requires Followed(c, h) && op.DeleteControllerOp?
    requires StoresController(c, op.del.name) && LinksFollow(c, h, Serve(op, env))
    requires Ok(Result(c, op, env).1)
    ensures AttachmentsAreHistory(Step(c, Serve(op, env)), Record(h, c, Serve(op, env)))
  {
    hide Handle;
    var e := Serve(op, env);
    var c', h' := Step(c, e), Record(h, c, e);
    DeletedControllerIs(c, op, env);
    forall s | StoresSubsystem(c', s)
      ensures Present(c', s) && AttachedAt(c', s) == OlderPairs(c', h', SubsystemIdOf(s))
    {
      AfterControllerDelete(c, c', h, h', op.del.name, s);
    }
  }

  lemma DifferentParent(c: Core, key: string, s: string)
    requires Shaped(c) && UniqueNqns(c) && StoresSubsystem(c, s)
    requires IsResourceName(key) && SubsystemIdOf(key) != SubsystemIdOf(s)
    requires StoresSubsystem(c, ParentName(key))
    ensures NqnAt(c, s) != NqnAt(c, ParentName(key))
  {
    ParentNameParses(key);
  }

  lemma AfterControllerUpdate(c: Core, c': Core, h: History, h': History, key: string, s: string)
    requires Followed(c, h) && StoresController(c, key) && StoresController(c', key) && HasParent(c, key)
    requires IdAt(c', key) == IdAt(c, key) || Unattached(c, key)
    requires h'.born == h.born && c'.device == c.device && c'.store == c.store[key := c'.store[key]]
    requires StoresSubsystem(c', s)
    ensures Present(c', s) && AttachedAt(c', s) == OlderPairs(c', h', SubsystemIdOf(s))
  {
    assert StoresSubsystem(c, s) && Present(c, s);
    if IdAt(c', key) == IdAt(c, key) {
      NewRecordKeepsPairs(c, c', h, h', key, SubsystemIdOf(s));
    } else {
      UnattachedHasNoPairs(c, h, key);
      NewIdWithoutPairs(c, c', h, h', key, SubsystemIdOf(s));
    }
  }

  lemma NewIdWithoutPairs(c: Core, c': Core, h: History, h': History, key: string, sid: string)
    requires StoresController(c, key) && StoresController(c', key)
    requires forall l :: !Older(c, h, SubsystemIdOf(key), key, l)
    requires h'.born == h.born && c'.store == c.store[key := c'.store[key]]
    ensures OlderPairs(c, h, sid) == OlderPairs(c', h', sid)
  {
    forall k, l ensures Older(c, h, sid, k, l) <==> Older(c', h', sid, k, l) {
      if k == key { }
    }
    SamePairs(c, c', h, h', sid);
  }

  lemma NewRecordKeepsPairs(c: Core, c': Core, h: History, h': History, key: string, sid: string)
    requires StoresController(c, key) && StoresController(c', key) && IdAt(c', key) == IdAt(c, key)
    requires h'.born == h.born && c'.store == c.store[key := c'.store[key]]
    ensures OlderPairs(c, h, sid) == OlderPairs(c', h', sid)
  {
    forall k, l ensures Older(c, h, sid, k, l) <==> Older(c', h', sid, k, l) {
      if k == key { }
    }
    SamePairs(c, c', h, h', sid);
  }

  lemma ControllerUpdateTracked(c: Core, h: History, op: Op, env: Env)
    requires Followed(c, h) && op.UpdateControllerOp? && StoresController(c, op.upd.name)
    requires Ok(Result(c, op, env).1) && LinksFollow(c, h, Serve(op, env))
    ensures AttachmentsAreHistory(Step(c, Serve(op, env)), Record(h, c, Serve(op, env)))
  {
    hide Handle;
    var e := Serve(op, env);
    var c', h' := Step(c, e), Record(h, c, e);
    UpdatedControllerIs(c, op, env);
    forall s | StoresSubsystem(c', s)
      ensures Present(c', s) && AttachedAt(c', s) == OlderPairs(c', h', SubsystemIdOf(s))
    {
      AfterControllerUpdate(c, c', h, h', op.upd.name, s);
    }
  }

  lemma AfterNamespaceCreate(
      c: Core, c': Core, h: History, h': History, req: CreateNamespaceRequest, allocId: int, s: string)
    requires Followed(c, h) && Present(c, req.parent) && c' == Created(c, req, allocId)
    requires RecentIndexed(c, h, SubsystemIdOf(NewNamespaceName(req)))
    requires NewNamespaceName(req) !in c.store && IsNamespaceName(NewNamespaceName(req))
    requires ParentName(NewNamespaceName(req)) == req.parent
    requires h'.born == h.born[NewNamespaceName(req) := h.now] && StoresSubsystem(c', s)
    ensures Present(c', s) && AttachedAt(c', s) == OlderPairs(c', h', SubsystemIdOf(s))
  {
    var key := NewNamespaceName(req);
    assert StoresSubsystem(c, s) && Present(c, s);
    ParentNameParses(key);
    if SubsystemIdOf(key) == SubsystemIdOf(s) {
      OnlyParentShares(c, key, s);
      PairsWithNamespace(c, c', h, h', SubsystemIdOf(s), key, NewNamespace(req));
      return;
    }
    assert ChangedOnlyAt(c, c', h, h', key);
    DifferentParent(c, key, s);
    KeptSubsystem(c, c', h, h', key, s);
  }

  lemma NamespaceNameIsFine(c: Core, op: Op, env: Env)
    requires Shaped(c) && op.CreateNamespaceOp? && FreshIdOk(op)
    requires StoresSubsystem(c, op.cns.parent) && Ok(Result(c, op, env).1)
    ensures IsNamespaceName(NewKey(op)) && ParentName(NewKey(op)) == op.cns.parent
    ensures SubsystemIdOf(NewKey(op)) == SubsystemIdOf(op.cns.parent)
  {
    hide Handle;
    CreatedIsOfItsKind(c, op, env);
    NewNameShaped(c, op.cns.parent, op.cns.userId, op.cns.freshId);
    ParentOfNewChild(c, op.cns.parent, NewKey(op), ChosenId(op.cns.userId, op.cns.freshId));
    ParentNameParses(NewKey(op));
  }

  lemma HistoryAfterCreate(c: Core, c': Core, h: History, h': History, req: CreateNamespaceRequest, allocId: int)
    requires Followed(c, h) && Present(c, req.parent) && c' == Created(c, req, allocId)
    requires RecentIndexed(c, h, SubsystemIdOf(NewNamespaceName(req)))
    requires NewNamespaceName(req) !in c.store && IsNamespaceName(NewNamespaceName(req))
    requires ParentName(NewNamespaceName(req)) == req.parent
    requires h'.born == h.born[NewNamespaceName(req) := h.now]
    ensures AttachmentsAreHistory(c', h')
  {
    forall s | StoresSubsystem(c', s)
      ensures Present(c', s) && AttachedAt(c', s) == OlderPairs(c', h', SubsystemIdOf(s))
    {
      AfterNamespaceCreate(c, c', h, h', req, allocId, s);
    }
  }

  lemma NamespaceCreateTracked(c: Core, h: History, op: Op, env: Env)
    requires Tracked(c, h) && op.CreateNamespaceOp? && FreshIdOk(op) && OrderOk(c, op)
    requires Ok(Result(c, op, env).1) && NewKey(op) !in c.store
    ensures AttachmentsAreHistory(Step(c, Serve(op, env)), Record(h, c, Serve(op, env)))
  {
    hide Handle;
    CreateInAnyOrder(c, op, env);
    NamespaceNameIsFine(c, op, env);
    HistoryAfterCreate(c, Step(c, Serve(op, env)), h, Record(h, c, Serve(op, env)), op.cns, env.net[0].id);
  }

  /** Every attachment of a namespace created since the last restart is to a controller the index knows. */
  lemma RecentIsHeldByKnown(c: Core, h: History, key: string)
    requires Followed(c, h) && StoresNamespace(c, key) && HasParent(c, key)
    requires RecentIndexed(c, h, SubsystemIdOf(key)) && Recent(h, key)
    ensures HeldByKnown(c, key)
  {
    var s, u, nsid, sid := ParentName(key), ParentUnit(c, key), NsidAt(c, key), SubsystemIdOf(key);
    assert StoredWell(key, c.store[key]);
    ParentNameParses(key);
    assert StoresSubsystem(c, s) && AttachedAt(c, s) == OlderPairs(c, h, sid);
    forall p | p in u.attached && p.1 == nsid ensures p.0 in IdsUnder(c, sid) {
      var k, l :| k in c.store && l in c.store && Older(c, h, sid, k, l) && p == (IdAt(c, k), NsidAt(c, l));
      assert StoredWell(k, c.store[k]) && Siblings(l, key) && l == key;
      assert k in ControllerKeys(c, sid);
    }
  }

  /** Detaching those leaves none. */
  lemma DetachingLeavesNone(u: Unit, ids: set<int>, nsid: int)
    requires Holders(u, nsid) <= ids
    ensures u.attached - Pairs(ids, nsid) == Without(u, nsid)
  {
    forall p | p in u.attached && p.1 == nsid ensures p in Pairs(ids, nsid) {
      var i := p.0;
      assert i in Holders(u, nsid);
      assert (i, nsid) in Pairs(ids, nsid) && p == (i, nsid);
    }
  }

  lemma AfterNamespaceDelete(c: Core, c': Core, h: History, h': History, key: string, s: string)
    requires Followed(c, h) && StoresNamespace(c, key) && HasParent(c, key)
    requires c.device.contract.dropsAttachments || HeldByKnown(c, key)
    requires h'.born == h.born && c' == Deleted(c, key) && StoresSubsystem(c', s)
    ensures Present(c', s) && AttachedAt(c', s) == OlderPairs(c', h', SubsystemIdOf(s))
  {
    assert StoredWell(key, c.store[key]);
    assert StoresSubsystem(c, s) && Present(c, s);
    if SubsystemIdOf(key) == SubsystemIdOf(s) {
      OnlyParentShares(c, key, s);
      if HeldByKnown(c, key) {
        DetachingLeavesNone(ParentUnit(c, key), IdsUnder(c, SubsystemIdOf(key)), NsidAt(c, key));
      }
      PairsWithoutNamespace(c, c', h, h', SubsystemIdOf(s), key);
      return;
    }
    assert ChangedOnlyAt(c, c', h, h', key);
    DifferentParent(c, key, s);
    KeptSubsystem(c, c', h, h', key, s);
  }

  lemma HistoryAfterDelete(c: Core, c': Core, h: History, h': History, key: string)
    requires Followed(c, h) && StoresNamespace(c, key) && HasParent(c, key)
    requires c.device.contract.dropsAttachments || HeldByKnown(c, key)
    requires h'.born == h.born && c' == Deleted(c, key)
    ensures AttachmentsAreHistory(c', h')
  {
    forall s | StoresSubsystem(c', s)
      ensures Present(c', s) && AttachedAt(c', s) == OlderPairs(c', h', SubsystemIdOf(s))
    {
      AfterNamespaceDelete(c, c', h, h', key, s);
    }
  }

  lemma NamespaceDeleteTracked(c: Core, h: History, op: Op, env: Env)
    requires Tracked(c, h) && op.DeleteNamespaceOp? && StoresNamespace(c, op.del.name) && OrderOk(c, op)
    requires Ok(Result(c, op, env).1) && LinksFollow(c, h, Serve(op, env))
    ensures AttachmentsAreHistory(Step(c, Serve(op, env)), Record(h, c, Serve(op, env)))
  {
    hide Handle;
    DeleteInAnyOrder(c, op, env);
    if Recent(h, op.del.name) { RecentIsHeldByKnown(c, h, op.del.name); }
    HistoryAfterDelete(c, Step(c, Serve(op, env)), h, Record(h, c, Serve(op, env)), op.del.name);
  }

  lemma UnchangedTracked(c: Core, h: History, e: Event)
    requires AttachmentsAreHistory(c, h) && Step(c, e).store == c.store && Step(c, e).device == c.device
    requires Record(h, c, e).born == h.born
    ensures AttachmentsAreHistory(Step(c, e), Record(h, c, e))
  {
    hide Handle;
    var c', h' := Step(c, e), Record(h, c, e);
    forall s | StoresSubsystem(c', s)
      ensures Present(c', s) && AttachedAt(c', s) == OlderPairs(c', h', SubsystemIdOf(s))
    {
      assert StoresSubsystem(c, s) && Present(c, s);
      SamePairs(c, c', h, h', SubsystemIdOf(s));
    }
  }

  // ------------------------------------------------------------------ every run

  /** A success that creates or deletes nothing leaves no trace: the resource existed already, or was missing anyway. */
  lemma IdleSuccess(c: Core, op: Op, env: Env)
    requires Ok(Result(c, op, env).1)
    requires (IsCreate(op) && NewKey(op) in c.store)
      || (op.DeleteSubsystemOp? && !StoresSubsystem(c, op.del.name))
      || (op.DeleteControllerOp? && !StoresController(c, op.del.name))
      || (op.DeleteNamespaceOp? && !StoresNamespace(c, op.del.name))
    ensures Step(c, Serve(op, env)) == c
  {
  }

  lemma UpdatedWasStored(c: Core, op: Op, env: Env)
    requires op.UpdateControllerOp? && Ok(Result(c, op, env).1)
    ensures StoresController(c, op.upd.name)
  {
  }

  lemma SuccessTracked(c: Core, h: History, op: Op, env: Env)
    requires Tracked(c, h) && Reliable(c.device.contract) && Trusted(c, Serve(op, env)) && OrderOk(c, op)
    requires Ok(Result(c, op, env).1) && LinksFollow(c, h, Serve(op, env))
    ensures AttachmentsAreHistory(Step(c, Serve(op, env)), Record(h, c, Serve(op, env)))
  {
    hide Handle;
    if IsQuery(op) {
      QueryEffects(c, op, env);
      UnchangedTracked(c, h, Serve(op, env));
      return;
    }
    if op.UpdateControllerOp? {
      UpdatedWasStored(c, op, env);
      ControllerUpdateTracked(c, h, op, env);
      return;
    }
    if IsCreate(op) {
      CreateTracked(c, h, op, env);
    } else {
      DeleteTracked(c, h, op, env);
    }
  }

  lemma CreateTracked(c: Core, h: History, op: Op, env: Env)
    requires Tracked(c, h) && Reliable(c.device.contract) && IsCreate(op)
    requires FreshIdOk(op) && OrderOk(c, op) && Ok(Result(c, op, env).1)
    ensures AttachmentsAreHistory(Step(c, Serve(op, env)), Record(h, c, Serve(op, env)))
  {
    hide Handle;
    if NewKey(op) in c.store {
      IdleSuccess(c, op, env);
      UnchangedTracked(c, h, Serve(op, env));
      return;
    }
    match op
    case CreateSubsystemOp(_, _) => SubsystemCreateTracked(c, h, op, env);
    case CreateControllerOp(_) => ControllerCreateTracked(c, h, op, env);
    case CreateNamespaceOp(_, _) => NamespaceCreateTracked(c, h, op, env);
  }

  lemma DeleteTracked(c: Core, h: History, op: Op, env: Env)
    requires Tracked(c, h) && IsDelete(op) && OrderOk(c, op) && Ok(Result(c, op, env).1)
    requires LinksFollow(c, h, Serve(op, env))
    ensures AttachmentsAreHistory(Step(c, Serve(op, env)), Record(h, c, Serve(op, env)))
  {
    hide Handle;
    if op.DeleteSubsystemOp? && StoresSubsystem(c, op.del.name) { SubsystemDeleteTracked(c, h, op, env); return; }
    if op.DeleteControllerOp? && StoresController(c, op.del.name) { ControllerDeleteTracked(c, h, op, env); return; }
    if op.DeleteNamespaceOp? && StoresNamespace(c, op.del.name) { NamespaceDeleteTracked(c, h, op, env); return; }
    IdleSuccess(c, op, env);
    UnchangedTracked(c, h, Serve(op, env));
  }

  lemma StaysDated(c: Core, h: History, e: Event)
    requires Shaped(c) && Dated(c, h)
    ensures Dated(Step(c, e), Record(h, c, e))
  {
    hide Handle;
    if e.Restart? { return; }
    if IsCreate(e.op) { CreateEffects(c, e.op, e.env); }
    else if IsDelete(e.op) { DeleteEffects(c, e.op, e.env); }
    else if e.op.UpdateControllerOp? { UpdateEffects(c, e.op, e.env); }
    else { QueryEffects(c, e.op, e.env); }
  }

  lemma IndexStaysRecent(c: Core, h: History, e: Event)
    requires Shaped(c) && Dated(c, h) && IndexIsRecent(c, h) && Completes(c, e)
    ensures IndexIsRecent(Step(c, e), Record(h, c, e))
  {
    hide Handle;
    if e.Restart? { return; }
    if IsCreate(e.op) { CreateEffects(c, e.op, e.env); }
    else if IsDelete(e.op) { DeleteEffects(c, e.op, e.env); }
    else if e.op.UpdateControllerOp? { UpdateEffects(c, e.op, e.env); }
    else { QueryEffects(c, e.op, e.env); }
  }

  lemma TrackedStep(c: Core, h: History, e: Event)
    requires Tracked(c, h) && Reliable(c.device.contract) && Completes(c, e)
    requires Trusted(c, e) && (e.Serve? ==> OrderOk(c, e.op)) && LinksFollow(c, h, e)
    ensures Tracked(Step(c, e), Record(h, c, e))
  {
    hide Handle;
    BackedStep(c, e);
    ShapeStep(c, e);
    StaysDated(c, h, e);
    IndexStaysRecent(c, h, e);
    if e.Serve? && Ok(Result(c, e.op, e.env).1) {
      SuccessTracked(c, h, e.op, e.env);
    } else {
      UnchangedTracked(c, h, e);
    }
  }

  /** In each state of the run the next request completes, and links follow. */
  ghost predicate AllComplete(c: Core, h: History, events: seq<Event>)
    decreases |events|
  {
    events == [] ||
    (&& Completes(c, events[0]) && LinksFollow(c, h, events[0])
     && AllComplete(Step(c, events[0]), Record(h, c, events[0]), events[1..]))
  }

  lemma {:induction false} TrackedRun(c: Core, h: History, events: seq<Event>)
    requires Tracked(c, h) && Reliable(c.device.contract)
    requires AllComplete(c, h, events) && AllTrusted(c, events) && OrdersOk(c, events)
    ensures Tracked(Run(c, events), RecordAll(h, c, events))
    decreases |events|
  {
    hide Handle;
    if events != [] {
      var e := events[0];
      TrackedStep(c, h, e);
      ContractStep(c, e);
      TrackedRun(Step(c, e), Record(h, c, e), events[1..]);
    }
  }

  /** From the start, in every run in which each request completes, restarts included: the attachments on the device
      are exactly the pairs of a stored controller and a stored namespace of one subsystem of which the controller was
      created first, with no restart in between. A controller created after a namespace never gets it, nor does one
      created before a restart get what is created after it. And the index knows exactly what was created since the
      last restart. */
  lemma AttachmentHistory(scan: ScanFilter, contract: Contract, events: seq<Event>, s: string)
    requires Reliable(contract)
    requires var c := Initial(scan, contract);
      AllComplete(c, DAWN, events) && AllTrusted(c, events) && OrdersOk(c, events)
    ensures var c := Run(Initial(scan, contract), events);
      var h := RecordAll(DAWN, Initial(scan, contract), events);
      && (StoresSubsystem(c, s) ==> Present(c, s) && AttachedAt(c, s) == OlderPairs(c, h, SubsystemIdOf(s)))
      && IndexIsRecent(c, h)
  {
    hide Handle;
    TrackedRun(Initial(scan, contract), DAWN, events);
  }

  // ------------------------------------------------------------------ why links must follow their controllers

  lemma LinkedIsAttached(c: Core, h: History, name: string) returns (p: (int, int))
    requires Followed(c, h) && StoresController(c, name) && HasParent(c, name) && !Unattached(c, name)
    ensures StoresSubsystem(c, ParentName(name)) && Present(c, ParentName(name))
    ensures SubsystemIdOf(ParentName(name)) == SubsystemIdOf(name) && ParentName(name) != name
    ensures p in AttachedAt(c, ParentName(name)) && p.0 == IdAt(c, name)
  {
    assert StoredWell(name, c.store[name]);
    ParentNameParses(name);
    p :| p in ParentUnit(c, name).attached && p.0 == IdAt(c, name);
  }

  /** A successful delete of a controller keeps the attachments equal to the history exactly when the device drops
      them or there are none. */
  lemma DeleteKeepsHistoryExactly(c: Core, h: History, op: Op, env: Env)
    requires Followed(c, h) && op.DeleteControllerOp? && StoresController(c, op.del.name)
    requires Ok(Result(c, op, env).1)
    ensures HasParent(c, op.del.name)
    ensures AttachmentsAreHistory(Step(c, Serve(op, env)), Record(h, c, Serve(op, env))) <==>
              c.device.contract.dropsAttachments || Unattached(c, op.del.name)
  {
    hide Handle;
    var name, c', h' := op.del.name, Step(c, Serve(op, env)), Record(h, c, Serve(op, env));
    DeletedControllerIs(c, op, env);
    if c.device.contract.dropsAttachments || Unattached(c, name) {
      ControllerDeleteTracked(c, h, op, env);
      return;
    }
    var p := LinkedIsAttached(c, h, name);
    PairsWithoutController(c, c', h, h', SubsystemIdOf(name), name);
    assert StoresSubsystem(c', ParentName(name)) && p in AttachedAt(c', ParentName(name));
  }

  /** A successful delete of a namespace keeps the attachments equal to the history exactly when the device drops
      them or they are to controllers the index knows, which it does not after a restart. On a device that neither
      drops them nor insists on their being gone they stay, and the next namespace with the id has them. */
  lemma NamespaceDeleteKeepsHistoryExactly(c: Core, h: History, op: Op, env: Env)
    requires Followed(c, h) && op.DeleteNamespaceOp? && StoresNamespace(c, op.del.name) && OrderOk(c, op)
    requires Ok(Result(c, op, env).1)
    ensures HasParent(c, op.del.name)
    ensures AttachmentsAreHistory(Step(c, Serve(op, env)), Record(h, c, Serve(op, env))) <==>
              c.device.contract.dropsAttachments || HeldByKnown(c, op.del.name)
  {
    hide Handle;
    var name, c', h' := op.del.name, Step(c, Serve(op, env)), Record(h, c, Serve(op, env));
    DeleteInAnyOrder(c, op, env);
    if c.device.contract.dropsAttachments || HeldByKnown(c, name) {
      HistoryAfterDelete(c, c', h, h', name);
      return;
    }
    LeftAttachedBreaksHistory(c, c', h, h', name);
  }

  lemma LeftAttachedBreaksHistory(c: Core, c': Core, h: History, h': History, name: string)
    requires Followed(c, h) && StoresNamespace(c, name) && HasParent(c, name) && c' == Deleted(c, name)
    requires h'.born == h.born && !c.device.contract.dropsAttachments && !HeldByKnown(c, name)
    ensures !AttachmentsAreHistory(c', h')
  {
    var u, nsid, sid := ParentUnit(c, name), NsidAt(c, name), SubsystemIdOf(name);
    var i :| i in Holders(u, nsid) && i !in IdsUnder(c, sid);
    assert StoredWell(name, c.store[name]);
    ParentNameParses(name);
    PairsWithoutNamespace(c, c', h, h', sid, name);
    assert StoresSubsystem(c', ParentName(name));
    assert (i, nsid) in AttachedAt(c', ParentName(name)) && (i, nsid) !in OlderPairs(c', h', sid);
  }

  lemma RenamedLosesPairs(c: Core, c': Core, h': History, name: string)
    requires ControllersBacked(c) && StoresController(c, name)
    requires StoresController(c', name) && IdAt(c', name) != IdAt(c, name)
    requires c'.store == c.store[name := c'.store[name]]
    ensures forall p :: p in OlderPairs(c', h', SubsystemIdOf(name)) ==> p.0 != IdAt(c, name)
  {
    forall p | p in OlderPairs(c', h', SubsystemIdOf(name)) ensures p.0 != IdAt(c, name) {
      var k, l :| k in c'.store && l in c'.store && Older(c', h', SubsystemIdOf(name), k, l)
          && p == (IdAt(c', k), NsidAt(c', l));
      assert k != name ==> StoresController(c, k) && Siblings(k, name);
    }
  }

  /** A successful update keeps the attachments equal to the history exactly when it records the id the controller
      had, or the controller has no attachments. */
  lemma UpdateKeepsHistoryExactly(c: Core, h: History, op: Op, env: Env)
    requires Followed(c, h) && op.UpdateControllerOp? && StoresController(c, op.upd.name) && Ok(Result(c, op, env).1)
    ensures HasParent(c, op.upd.name) && env.net != [] && env.net[0].Done?
    ensures AttachmentsAreHistory(Step(c, Serve(op, env)), Record(h, c, Serve(op, env))) <==>
              UpdatedId(c, op.upd, env) == IdAt(c, op.upd.name) || Unattached(c, op.upd.name)
  {
    hide Handle;
    var name, c', h' := op.upd.name, Step(c, Serve(op, env)), Record(h, c, Serve(op, env));
    UpdatedControllerIs(c, op, env);
    if UpdatedId(c, op.upd, env) == IdAt(c, name) || Unattached(c, name) {
      ControllerUpdateTracked(c, h, op, env);
      return;
    }
    var p := LinkedIsAttached(c, h, name);
    RenamedLosesPairs(c, c', h', name);
    assert StoresSubsystem(c', ParentName(name)) && p in AttachedAt(c', ParentName(name));
  }

  // ------------------------------------------------------------------ why a restart comes in between

  /** The device id of a stored controller is among those the loop attaches exactly when the index knows it. */
  lemma IndexedExactly(c: Core, sid: string, k: string)
    requires Shaped(c) && ControllersBacked(c) && StoresController(c, k) && SubsystemIdOf(k) == sid
    ensures IdAt(c, k) in IdsUnder(c, sid) <==> k in c.index
  {
    assert StoredWell(k, c.store[k]);
    if k in c.index { assert k in ControllerKeys(c, sid); }
    forall l | l in ControllerKeys(c, sid) && StoresController(c, l) && IdAt(c, l) == IdAt(c, k) ensures k == l {
      assert Siblings(k, l);
    }
  }

  /** Of the pairs after the creation, those under the new namespace's id are its own. */
  lemma PairsOfNew(c': Core, h': History, sid: string, key: string, k: string)
    requires Backed(c') && StoresNamespace(c', key) && SubsystemIdOf(key) == sid
    requires StoresController(c', k) && SubsystemIdOf(k) == sid
    ensures (IdAt(c', k), NsidAt(c', key)) in OlderPairs(c', h', sid) <==> Older(c', h', sid, k, key)
  {
    var p := (IdAt(c', k), NsidAt(c', key));
    if p in OlderPairs(c', h', sid) {
      var i, l :| i in c'.store && l in c'.store && Older(c', h', sid, i, l) && p == (IdAt(c', i), NsidAt(c', l));
      assert Siblings(i, k) && Siblings(l, key);
    }
  }

  /** No namespace of the subsystem was attached under the id of a new one. */
  lemma NewNsidIsUnpaired(c: Core, c': Core, h: History, sid: string, key: string)
    requires NamespacesBacked(c') && StoresNamespace(c', key)
    requires key !in c.store && c'.store == c.store[key := c'.store[key]]
    requires SubsystemIdOf(key) == sid
    ensures forall p :: p in OlderPairs(c, h, sid) ==> p.1 != NsidAt(c', key)
  {
    forall p | p in OlderPairs(c, h, sid) ensures p.1 != NsidAt(c', key) {
      var k, l :| k in c.store && l in c.store && Older(c, h, sid, k, l) && p == (IdAt(c, k), NsidAt(c, l));
      assert StoresNamespace(c', l) && Siblings(l, key);
    }
  }

  lemma UnindexedBreaksHistory(
      c: Core, c': Core, h: History, h': History, req: CreateNamespaceRequest, allocId: int, k: string)
    requires Followed(c, h) && Present(c, req.parent) && c' == Created(c, req, allocId) && Backed(c')
    requires NewNamespaceName(req) !in c.store && h'.born == h.born[NewNamespaceName(req) := h.now]
    requires SubsystemIdOf(NewNamespaceName(req)) == SubsystemIdOf(req.parent)
    requires StoresController(c, k) && SubsystemIdOf(k) == SubsystemIdOf(req.parent)
    requires !(k in c.index <==> Recent(h, k))
    ensures !AttachmentsAreHistory(c', h')
  {
    var key, sid, nsid := NewNamespaceName(req), SubsystemIdOf(req.parent), req.spec.hostNsid;
    assert StoresSubsystem(c', req.parent) && StoresNamespace(c', key) && StoresController(c', k);
    IndexedExactly(c, sid, k);
    NewNsidIsUnpaired(c, c', h, sid, key);
    assert (IdAt(c, k), nsid) in AttachedAt(c', req.parent) <==> k in c.index;
    PairsOfNew(c', h', sid, key, k);
    assert Older(c', h', sid, k, key) <==> Recent(h, k);
  }

  /** Creating a namespace keeps the attachments equal to the history exactly when, of the subsystem's stored
      controllers, the index knows those created since the last restart and no others. */
  lemma CreateKeepsHistoryExactly(c: Core, h: History, op: Op, env: Env)
    requires Followed(c, h) && c.device.contract.refusesDuplicate
    requires op.CreateNamespaceOp? && FreshIdOk(op) && OrderOk(c, op) && AllocHonoursNsid(op.cns, env)
    requires Ok(Result(c, op, env).1) && NewKey(op) !in c.store
    ensures AttachmentsAreHistory(Step(c, Serve(op, env)), Record(h, c, Serve(op, env))) <==>
      RecentIndexed(c, h, SubsystemIdOf(op.cns.parent))
  {
    hide Handle;
    var c', h' := Step(c, Serve(op, env)), Record(h, c, Serve(op, env));
    CreateInAnyOrder(c, op, env);
    BackedCreate(c, op, env);
    NamespaceNameIsFine(c, op, env);
    if RecentIndexed(c, h, SubsystemIdOf(op.cns.parent)) {
      HistoryAfterCreate(c, c', h, h', op.cns, env.net[0].id);
      return;
    }
    var k :| StoresController(c, k) && SubsystemIdOf(k) == SubsystemIdOf(op.cns.parent)
             && !(k in c.index <==> Recent(h, k));
    UnindexedBreaksHistory(c, c', h, h', op.cns, env.net[0].id, k);
  }

  lemma BackedCreate(c: Core, op: Op, env: Env)
    requires Shaped(c) && Backed(c) && c.device.contract.refusesDuplicate
    requires op.CreateNamespaceOp? && FreshIdOk(op) && AllocHonoursNsid(op.cns, env)
    ensures Backed(Step(c, Serve(op, env)))
  {
    CreateNamespaceBacked(Begin(c, env), op.cns, op.order, BOTH);
  }
}
