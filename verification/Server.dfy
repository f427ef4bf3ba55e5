/** The server as the program has it: mutable maps, a store, a connection, handlers that change them step by step, loops
    over the key index in whatever order it gives. Each handler is proved to do what its function in Handlers says. */
module Frontend {
  import opened Names
  import opened Device
  import opened Bridge
  import opened Sorting
  import opened Handlers
  import opened Runs
  import opened Shape
  import opened Codecs
  import opened Backing
  import opened Orphans
  import opened Counts

  /** The persistent key/value store, with its codec and what becomes of its next reads and writes. */
  class Store {
    const codec: Codec
    var objects: map<string, Object>
    var loads: seq<bool>
    var saves: seq<bool>

    constructor (codec: Codec)
      ensures this.codec == codec && objects == map[] && loads == [] && saves == []
    {
      this.codec := codec;
      objects, loads, saves := map[], [], [];
    }

    method Get(key: string) returns (found: Lookup<Object>)
      modifies this`loads
      ensures loads == if old(loads) == [] then [] else old(loads)[1..]
      ensures old(loads) != [] && !old(loads)[0] ==> found == Unreadable
      ensures old(loads) == [] || old(loads)[0] ==> found == if key in objects then Found(objects[key]) else Missing
    {
      var works := true;
      if loads != [] { works, loads := loads[0], loads[1..]; }
      if !works { return Unreadable; }
      found := if key in objects then Found(objects[key]) else Missing;
    }

    method Set(key: string, o: Object) returns (ok: bool)
      modifies this`objects, this`saves
      ensures saves == if old(saves) == [] then [] else old(saves)[1..]
      ensures ok == (old(saves) == [] || old(saves)[0])
      ensures objects == if ok then old(objects)[key := o] else old(objects)
    {
      ok := true;
      if saves != [] { ok, saves := saves[0], saves[1..]; }
      if ok { objects := objects[key := o]; }
    }

    method Delete(key: string) returns (ok: bool)
      modifies this`objects, this`saves
      ensures saves == if old(saves) == [] then [] else old(saves)[1..]
      ensures ok == (old(saves) == [] || old(saves)[0])
      ensures objects == if ok then old(objects) - {key} else old(objects)
    {
      ok := true;
      if saves != [] { ok, saves := saves[0], saves[1..]; }
      if ok { objects := objects - {key}; }
    }
  }

  /** The connection to the device, with the answers it will give and the commands sent during the request. */
  class Connection {
    var device: Device
    var net: seq<Answer>
    var log: seq<Command>

    constructor (contract: Contract)
      ensures device == Device(contract, map[]) && net == [] && log == []
    {
      device, net, log := Device(contract, map[]), [], [];
    }

    method Call(c: Command) returns (reply: Reply)
      modifies this
      ensures log == old(log) + [c]
      ensures net == if old(net) == [] then [] else old(net)[1..]
      ensures (device, reply) == Respond(old(device), c, if old(net) == [] then Lost(false, 0) else old(net)[0])
    {
      var answer := Lost(false, 0);
      if net != [] { answer, net := net[0], net[1..]; }
      log := log + [c];
      var (d, r) := Respond(device, c, answer);
      device, reply := d, r;
    }
  }

  // ------------------------------------------------------------------ the records of a page, filled in and sorted

  /** The same texts, each coming before the next byte by byte. */
  ghost predicate OrderedTexts(sorted: seq<string>, page: seq<string>) {
    AscendingTexts(sorted) && multiset(sorted) == multiset(page)
  }

  /** The same numbers, each no greater than the next. */
  ghost predicate OrderedNumbers(sorted: seq<int>, page: seq<int>) {
    Ascending(sorted) && multiset(sorted) == multiset(page)
  }

  method SortedNqns(page: seq<string>) returns (sorted: seq<string>)
    ensures sorted == Sort(page, StringLe)
    ensures OrderedTexts(sorted, page)
  {
    var blobs := new string[|page|];
    for i := 0 to |page|
      invariant blobs[..i] == page[..i]
    {
      blobs[i] := page[i];
    }
    assert blobs[..] == page;
    SortInPlace(blobs, StringLe);
    SortedTextsAscend(page);
    sorted := blobs[..];
  }

  method SortedIds(page: seq<int>) returns (sorted: seq<int>)
    ensures sorted == Sort(Int32s(page), IntLe)
    ensures OrderedNumbers(sorted, Int32s(page))
  {
    var blobs := new int[|page|];
    for i := 0 to |page|
      invariant forall k :: 0 <= k < i ==> blobs[k] == Int32(page[k])
    {
      blobs[i] := Int32(page[i]);
    }
    assert blobs[..] == Int32s(page);
    SortInPlace(blobs, IntLe);
    SortedAscend(Int32s(page));
    sorted := blobs[..];
  }

  // ------------------------------------------------------------------ loops, a key at a time

  lemma {:induction false} VisitAppend(
      s: Session, link: Link, a: seq<string>, b: seq<string>, subsys: Subsystem, subsysId: string, nsid: int,
      codec: Codec)
    ensures var (s', stopped) := Visit(s, link, a, subsys, subsysId, nsid, codec);
      Visit(s, link, a + b, subsys, subsysId, nsid, codec) ==
        if stopped.Some? then (s', stopped) else Visit(s', link, b, subsys, subsysId, nsid, codec)
    decreases |a|
  {
    if a == [] {
      assert a + b == b;
      return;
    }
    assert (a + b)[1..] == a[1..] + b;
    if !ControllerPrefixTest(a[0], subsys.name) {
      VisitAppend(s, link, a[1..], b, subsys, subsysId, nsid, codec);
      return;
    }
    var (s1, found) := GetController(s, a[0], codec);
    if !found.Found? { return; }
    if SubsystemIdOf(found.value.name) != subsysId {
      VisitAppend(s1, link, a[1..], b, subsys, subsysId, nsid, codec);
      return;
    }
    if found.value.spec.ctrlrId.None? { return; }
    var (s2, reply) := Call(s1, link.CommandFor(subsys.spec.nqn, found.value.spec.ctrlrId.value, nsid));
    VisitAppend(s2, link, a[1..], b, subsys, subsysId, nsid, codec);
  }

  lemma {:induction false} ScanAppend(s: Session, a: seq<string>, b: seq<string>, nqn: string, codec: Codec)
    ensures var (s', objection) := ScanForNqn(s, a, nqn, codec);
      ScanForNqn(s, a + b, nqn, codec) ==
        if objection.Some? then (s', objection) else ScanForNqn(s', b, nqn, codec)
    decreases |a|
  {
    if a == [] {
      assert a + b == b;
      return;
    }
    assert (a + b)[1..] == a[1..] + b;
    if s.core.scan.Selects(a[0]) {
      ScanAppend(GetSubsystem(s, a[0], codec).0, a[1..], b, nqn, codec);
    } else {
      ScanAppend(s, a[1..], b, nqn, codec);
    }
  }

  /** The keys a loop did not come to can be put in some order. */
  lemma SomeOrder(keys: set<string>) returns (order: seq<string>)
    ensures Enumerates(order, keys)
  {
    order := [];
    if keys != {} {
      var key :| key in keys;
      var rest := SomeOrder(keys - {key});
      order := [key] + rest;
    }
  }

  /** Met so far, and still to come. */
  ghost predicate Underway(met: seq<string>, remaining: set<string>, keys: set<string>) {
    remaining <= keys && Enumerates(met, keys - remaining)
  }

  lemma OneMoreMet(met: seq<string>, key: string, remaining: set<string>, keys: set<string>)
    requires Underway(met, remaining, keys) && key in remaining
    ensures Underway(met + [key], remaining - {key}, keys)
  {
    forall k ensures k in met + [key] <==> k in keys - (remaining - {key}) {
      assert k in met <==> k in keys - remaining;
    }
  }

  lemma AllMet(met: seq<string>, rest: seq<string>, remaining: set<string>, keys: set<string>)
    requires Underway(met, remaining, keys) && Enumerates(rest, remaining)
    ensures Enumerates(met + rest, keys)
  {
    forall k ensures k in met + rest <==> k in keys {
      assert k in met + rest <==> k in met || k in rest;
    }
    forall i, j | 0 <= i < j < |met + rest| ensures (met + rest)[i] != (met + rest)[j] {
      if i < |met| <= j { assert met[i] in met && rest[j - |met|] in rest; }
    }
  }

  /** The request names its own kind, so that with any codec it is served as the theorems say. */
  ghost predicate Plain(c: Core, op: Op, codec: Codec) {
    FreshIdOk(op) && (codec.Strict? || (NamesOwnKind(op) && (op.CreateSubsystemOp? ==> SparesOthers(c.scan))))
  }

  lemma StepKeeps(c: Core, op: Op, env: Env, codec: Codec, w: Kinds)
    ensures var e := Event.Serve(op, env); var c' := Step(c, e, codec);
      && (Shaped(c) && FreshIdOk(op) && UpdatesItsKind(op, codec) ==> Shaped(c'))
      && (Shaped(c) && Backed(c, w) && Reliable(c.device.contract, w) && Plain(c, op, codec) && Trusted(c, e, w) ==>
            Backed(c', w))
      && (Shaped(c) && Accounted(c) && Reliable(c.device.contract) && Plain(c, op, codec) && Sound(e) ==>
            Accounted(c'))
  {
    hide Handle;
    var e := Event.Serve(op, env);
    if !Shaped(c) || !FreshIdOk(op) { return; }
    if UpdatesItsKind(op, codec) { ShapeStep(c, e, codec); }
    if !Plain(c, op, codec) { return; }
    if !codec.Strict? { CodecImmaterial(c, op, env, codec); }
    if Backed(c, w) && Reliable(c.device.contract, w) && Trusted(c, e, w) { BackedStep(c, e, w); }
    if Accounted(c) && Reliable(c.device.contract) && Sound(e) { AccountedStep(c, e); }
  }

  class Server {
    const scan: ScanFilter
    const store: Store
    const rpc: Connection
    var listHelper: map<string, bool>
    var pagination: map<string, int>

    ghost function State(): Core
      reads this, store, rpc
    {
      Core(scan, listHelper, pagination, store.objects, rpc.device)
    }

    ghost function Snapshot(): Session
      reads this, store, rpc
    {
      Session(State(), Env(rpc.net, store.loads, store.saves), rpc.log)
    }

    /** A new server over an existing store and device knows no key and no position. */
    constructor (scan: ScanFilter, rpc: Connection, store: Store)
      ensures this.scan == scan && this.rpc == rpc && this.store == store
      ensures State() == Core(scan, map[], map[], store.objects, rpc.device)
    {
      this.scan, this.rpc, this.store := scan, rpc, store;
      listHelper, pagination := map[], map[];
    }

    // ---------------------------------------------------------------- reading the store, calling the device

    method FetchSubsystem(key: string) returns (found: Lookup<Subsystem>)
      modifies store`loads
      ensures (Snapshot(), found) == GetSubsystem(old(Snapshot()), key, store.codec)
    {
      var o := store.Get(key);
      found := match o
        case Found(SubsystemObject(x)) => Found(x)
        case Found(other) => if store.codec.Strict? then Unreadable else Decoded(store.codec.asSubsystem(other))
        case Missing => Missing
        case Unreadable => Unreadable;
    }

    method FetchController(key: string) returns (found: Lookup<Controller>)
      modifies store`loads
      ensures (Snapshot(), found) == GetController(old(Snapshot()), key, store.codec)
    {
      var o := store.Get(key);
      found := match o
        case Found(ControllerObject(x)) => Found(x)
        case Found(other) => if store.codec.Strict? then Unreadable else Decoded(store.codec.asController(other))
        case Missing => Missing
        case Unreadable => Unreadable;
    }

    method FetchNamespace(key: string) returns (found: Lookup<Namespace>)
      modifies store`loads
      ensures (Snapshot(), found) == GetNamespace(old(Snapshot()), key, store.codec)
    {
      var o := store.Get(key);
      found := match o
        case Found(NamespaceObject(x)) => Found(x)
        case Found(other) => if store.codec.Strict? then Unreadable else Decoded(store.codec.asNamespace(other))
        case Missing => Missing
        case Unreadable => Unreadable;
    }

    method Send(c: Command) returns (reply: Reply)
      modifies rpc
      ensures (Snapshot(), reply) == Call(old(Snapshot()), c)
    {
      reply := rpc.Call(c);
    }

    /** The end of every create. */
    method Keep(name: string, o: Object) returns (r: Response)
      modifies this`listHelper, store`objects, store`saves
      ensures (Snapshot(), r) == SaveNew(old(Snapshot()), name, o)
    {
      listHelper := listHelper[name := false];
      var ok := store.Set(name, o);
      r := if ok then Returned(o) else Rejected(WriteFailed);
    }

    /** The end of every delete. */
    method Drop(name: string) returns (r: Response)
      modifies this`listHelper, store`objects, store`saves
      ensures (Snapshot(), r) == Forget(old(Snapshot()), name)
    {
      listHelper := listHelper - {name};
      var ok := store.Delete(name);
      r := if ok then Acknowledged else Rejected(WriteFailed);
    }

    // ---------------------------------------------------------------- subsystems

    method ScanForDuplicate(nqn: string) returns (objection: Option<Error>, ghost order: seq<string>)
      modifies store`loads
      ensures Enumerates(order, listHelper.Keys)
      ensures (Snapshot(), objection) == ScanForNqn(old(Snapshot()), order, nqn, store.codec)
    {
      ghost var s0, met := Snapshot(), [];
      var remaining := listHelper.Keys;
      while remaining != {}
        invariant Underway(met, remaining, listHelper.Keys)
        invariant ScanForNqn(s0, met, nqn, store.codec) == (Snapshot(), None)
        decreases |remaining|
      {
        var key :| key in remaining;
        OneMoreMet(met, key, remaining, listHelper.Keys);
        ScanAppend(s0, met, [key], nqn, store.codec);
        met, remaining := met + [key], remaining - {key};
        if !scan.Selects(key) { continue; }
        var found := FetchSubsystem(key);
        objection := match found
          case Unreadable => Some(ReadFailed)
          case Missing => Some(NotFound)
          case Found(x) => if x.spec.nqn == nqn then Some(AlreadyExists) else None;
        if objection.Some? {
          ghost var rest := SomeOrder(remaining);
          AllMet(met, rest, remaining, listHelper.Keys);
          ScanAppend(s0, met, rest, nqn, store.codec);
          order := met + rest;
          return;
        }
      }
      objection, order := None, met;
    }

    method CreateNvmeSubsystem(req: CreateSubsystemRequest) returns (r: Response, ghost order: seq<string>)
      modifies this`listHelper, store, rpc
      ensures Enumerates(order, old(listHelper.Keys))
      ensures (Snapshot(), r) == CreateSubsystem(old(Snapshot()), req, order, store.codec)
    {
      order := SomeOrder(listHelper.Keys);
      if !AcceptsCreateSubsystem(req) { return Rejected(InvalidRequest), order; }
      var name := NewSubsystemName(req);
      var found := FetchSubsystem(name);
      if found.Unreadable? { return Rejected(ReadFailed), order; }
      if found.Found? { return Returned(SubsystemObject(found.value)), order; }
      var objection;
      objection, order := ScanForDuplicate(req.spec.nqn);
      if objection.Some? { return Rejected(objection.value), order; }
      var reply := Send(CreationCommand(req.spec));
      if !reply.Good? { return Rejected(Refusal(reply)), order; }
      var version := Send(GetVersion);
      if version.NoReply? { return Rejected(TransportFailed), order; }
      r := Keep(name, SubsystemObject(Subsystem(name, req.spec, FirstText(version))));
    }

    method DeleteNvmeSubsystem(req: DeleteRequest) returns (r: Response)
      modifies this`listHelper, store, rpc
      ensures (Snapshot(), r) == DeleteSubsystem(old(Snapshot()), req, store.codec)
    {
      if !req.accepted { return Rejected(InvalidRequest); }
      var found := FetchSubsystem(req.name);
      if found.Unreadable? { return Rejected(ReadFailed); }
      if found.Missing? { return if req.allowMissing then Acknowledged else Rejected(NotFound); }
      var reply := Send(SubsystemDelete(found.value.spec.nqn));
      if !reply.Good? { return Rejected(Refusal(reply)); }
      r := Drop(found.value.name);
    }

    method GetNvmeSubsystem(req: GetRequest) returns (r: Response)
      modifies store`loads, rpc
      ensures (Snapshot(), r) == Handlers.GetNvmeSubsystem(old(Snapshot()), req, store.codec)
    {
      if !req.accepted { return Rejected(InvalidRequest); }
      var found := FetchSubsystem(req.name);
      if found.Unreadable? { return Rejected(ReadFailed); }
      if found.Missing? { return Rejected(NotFound); }
      var reply := Send(SubsystemList);
      if !reply.Good? { return Rejected(Refusal(reply)); }
      for i := 0 to |reply.texts|
        invariant found.value.spec.nqn !in reply.texts[..i]
      {
        if reply.texts[i] == found.value.spec.nqn {
          return Returned(SubsystemObject(Subsystem([], SubsystemSpec(reply.texts[i], [], [], 0), "TBD")));
        }
        assert reply.texts[..i + 1] == reply.texts[..i] + [reply.texts[i]];
      }
      assert reply.texts[..|reply.texts|] == reply.texts;
      r := Rejected(DeviceRefused);
    }

    method ListNvmeSubsystems(req: ListRequest, freshToken: string) returns (r: Response)
      modifies this`pagination, rpc
      ensures (Snapshot(), r) == ListSubsystemsPage(old(Snapshot()), req, freshToken)
    {
      hide Sort, OrderedTexts;
      if !req.accepted { return Rejected(InvalidRequest); }
      var paging := ExtractPagination(req.pageSize, req.pageToken, pagination);
      if paging.BadPaging? { return Rejected(paging.error); }
      var size, offset := paging.size, paging.offset;
      var reply := Send(SubsystemList);
      if !reply.Good? { return Rejected(Refusal(reply)); }
      if offset < 0 || offset > |reply.texts| { return Rejected(OutOfRange); }
      var (page, more) := LimitPagination(reply.texts, offset, size);
      if more { pagination := pagination[freshToken := offset + size]; }
      var nqns := SortedNqns(page);
      r := ListedNqns(nqns);
    }

    // ---------------------------------------------------------------- controllers

    method CreateNvmeController(req: CreateControllerRequest) returns (r: Response)
      modifies this`listHelper, store, rpc
      ensures (Snapshot(), r) == CreateController(old(Snapshot()), req, store.codec)
    {
      if !AcceptsCreateController(req) { return Rejected(InvalidRequest); }
      var name := NewControllerName(req);
      var found := FetchController(name);
      if found.Unreadable? { return Rejected(ReadFailed); }
      if found.Found? { return Returned(ControllerObject(found.value)); }
      var subsys := FetchSubsystem(req.parent);
      if subsys.Unreadable? { return Rejected(ReadFailed); }
      if subsys.Missing? { return Rejected(NotFound); }
      var reply := Send(ControllerCreate(subsys.value.spec.nqn, ParamsOf(req.spec)));
      if !reply.Good? { return Rejected(Refusal(reply)); }
      r := Keep(name, ControllerObject(Controller(name, req.spec.(ctrlrId := Some(Int32(reply.id))), true)));
    }

    method DeleteNvmeController(req: DeleteRequest) returns (r: Response)
      modifies this`listHelper, store, rpc
      ensures (Snapshot(), r) == DeleteController(old(Snapshot()), req, store.codec)
    {
      if !req.accepted { return Rejected(InvalidRequest); }
      var found := FetchController(req.name);
      if found.Unreadable? { return Rejected(ReadFailed); }
      if found.Missing? { return if req.allowMissing then Acknowledged else Rejected(NotFound); }
      var subsys := FetchSubsystem(ParentName(req.name));
      if subsys.Unreadable? { return Rejected(ReadFailed); }
      if subsys.Missing? { return Rejected(NotFound); }
      if found.value.spec.ctrlrId.None? { return Rejected(NilDereference); }
      var reply := Send(ControllerRemove(subsys.value.spec.nqn, found.value.spec.ctrlrId.value, 1));
      if !reply.Good? { return Rejected(Refusal(reply)); }
      r := Drop(found.value.name);
    }

    method UpdateNvmeController(req: UpdateControllerRequest) returns (r: Response)
      modifies store, rpc
      ensures (Snapshot(), r) == Handlers.UpdateNvmeController(old(Snapshot()), req, store.codec)
    {
      if !req.accepted || !AcceptsControllerSpec(req.spec) { return Rejected(InvalidRequest); }
      var found := FetchController(req.name);
      if found.Unreadable? { return Rejected(ReadFailed); }
      if found.Missing? { return Rejected(NotFound); }
      if !req.maskAccepted { return Rejected(InvalidRequest); }
      var subsys := FetchSubsystem(ParentName(req.name));
      if subsys.Unreadable? { return Rejected(ReadFailed); }
      if subsys.Missing? { return Rejected(NotFound); }
      var reply := Send(ControllerUpdate(subsys.value.spec.nqn, ParamsOf(req.spec)));
      if !reply.Good? { return Rejected(Refusal(reply)); }
      var response := ControllerObject(Controller(req.name, req.spec.(ctrlrId := Some(Int32(reply.id))), true));
      var ok := store.Set(req.name, response);
      r := if ok then Returned(response) else Rejected(WriteFailed);
    }

    method GetNvmeController(req: GetRequest) returns (r: Response)
      modifies store`loads, rpc
      ensures (Snapshot(), r) == Handlers.GetNvmeController(old(Snapshot()), req, store.codec)
    {
      if !req.accepted { return Rejected(InvalidRequest); }
      var found := FetchController(req.name);
      if found.Unreadable? { return Rejected(ReadFailed); }
      if found.Missing? { return Rejected(NotFound); }
      var subsys := FetchSubsystem(ParentName(req.name));
      if subsys.Unreadable? { return Rejected(ReadFailed); }
      if subsys.Missing? { return Rejected(NotFound); }
      if found.value.spec.ctrlrId.None? { return Rejected(NilDereference); }
      var reply := Send(ControllerInfo(subsys.value.spec.nqn, found.value.spec.ctrlrId.value));
      if !reply.Good? { return Rejected(Refusal(reply)); }
      r := Returned(ControllerObject(
        Controller(req.name, ControllerSpec(Unspecified, None, found.value.spec.ctrlrId, 0, 0, 0), true)));
    }

    /** Controllers and namespaces are listed alike. */
    method ListNvmeChildren(what: Children, req: ListRequest, freshToken: string) returns (r: Response)
      modifies this`pagination, store`loads, rpc
      ensures (Snapshot(), r) == ListChildrenPage(old(Snapshot()), what, req, freshToken, store.codec)
    {
      hide Sort, OrderedNumbers, Int32s, Int32;
      if !req.accepted { return Rejected(InvalidRequest); }
      var paging := ExtractPagination(req.pageSize, req.pageToken, pagination);
      if paging.BadPaging? { return Rejected(paging.error); }
      var size, offset := paging.size, paging.offset;
      var subsys := FetchSubsystem(req.parent);
      if subsys.Unreadable? { return Rejected(ReadFailed); }
      if subsys.Missing? { return Rejected(NotFound); }
      var reply := Send(what.Question(subsys.value.spec.nqn));
      if !reply.Good? { return Rejected(Refusal(reply)); }
      if offset < 0 || offset > |reply.ids| { return Rejected(OutOfRange); }
      var (page, more) := LimitPagination(reply.ids, offset, size);
      if more { pagination := pagination[freshToken := offset + size]; }
      var ids := SortedIds(page);
      r := ListedIds(ids);
    }

    // ---------------------------------------------------------------- namespaces

    /** The loop over the key index that attaches a namespace to, or detaches it from, each controller. */
    method LinkEachController(link: Link, subsys: Subsystem, subsysId: string, nsid: int)
      returns (stopped: Option<Error>, ghost order: seq<string>)
      modifies store`loads, rpc
      ensures Enumerates(order, listHelper.Keys)
      ensures (Snapshot(), stopped) == Visit(old(Snapshot()), link, order, subsys, subsysId, nsid, store.codec)
    {
      ghost var s0, met := Snapshot(), [];
      var remaining := listHelper.Keys;
      while remaining != {}
        invariant Underway(met, remaining, listHelper.Keys)
        invariant Visit(s0, link, met, subsys, subsysId, nsid, store.codec) == (Snapshot(), None)
        decreases |remaining|
      {
        var key :| key in remaining;
        OneMoreMet(met, key, remaining, listHelper.Keys);
        VisitAppend(s0, link, met, [key], subsys, subsysId, nsid, store.codec);
        met, remaining := met + [key], remaining - {key};
        if !ControllerPrefixTest(key, subsys.name) { continue; }
        stopped := LinkController(link, key, subsys, subsysId, nsid);
        if stopped.Some? {
          ghost var rest := SomeOrder(remaining);
          AllMet(met, rest, remaining, listHelper.Keys);
          VisitAppend(s0, link, met, rest, subsys, subsysId, nsid, store.codec);
          order := met + rest;
          return;
        }
      }
      stopped, order := None, met;
    }

    method LinkController(
        link: Link, key: string, subsys: Subsystem, subsysId: string, nsid: int) returns (stopped: Option<Error>)
      requires ControllerPrefixTest(key, subsys.name)
      modifies store`loads, rpc
      ensures (Snapshot(), stopped) == Visit(old(Snapshot()), link, [key], subsys, subsysId, nsid, store.codec)
    {
      var found := FetchController(key);
      if found.Unreadable? { return Some(ReadFailed); }
      if found.Missing? { return Some(NotFound); }
      if SubsystemIdOf(found.value.name) != subsysId { return None; }
      if found.value.spec.ctrlrId.None? { return Some(NilDereference); }
      var reply := Send(link.CommandFor(subsys.spec.nqn, found.value.spec.ctrlrId.value, nsid));
      if !reply.Good? { return Some(Refusal(reply)); }
      stopped := None;
    }

    method CreateNvmeNamespace(req: CreateNamespaceRequest) returns (r: Response, ghost order: seq<string>)
      modifies this`listHelper, store, rpc
      ensures Enumerates(order, old(listHelper.Keys))
      ensures (Snapshot(), r) == CreateNamespace(old(Snapshot()), req, order, store.codec)
    {
      order := SomeOrder(listHelper.Keys);
      if !AcceptsCreateNamespace(req) { return Rejected(InvalidRequest), order; }
      var name := NewNamespaceName(req);
      var found := FetchNamespace(name);
      if found.Unreadable? { return Rejected(ReadFailed), order; }
      if found.Found? { return Returned(NamespaceObject(found.value)), order; }
      var subsys := FetchSubsystem(req.parent);
      if subsys.Unreadable? { return Rejected(ReadFailed), order; }
      if subsys.Missing? { return Rejected(NotFound), order; }
      var reply := Send(AllocCommand(subsys.value.spec.nqn, req.spec));
      if !reply.Good? { return Rejected(Refusal(reply)), order; }
      var stopped;
      stopped, order := LinkEachController(Attaching, subsys.value, SubsystemIdOf(req.parent), req.spec.hostNsid);
      if stopped.Some? { return Rejected(stopped.value), order; }
      r := Keep(name, NamespaceObject(Namespace(name, req.spec, true)));
    }

    method DeleteNvmeNamespace(req: DeleteRequest) returns (r: Response, ghost order: seq<string>)
      modifies this`listHelper, store, rpc
      ensures Enumerates(order, old(listHelper.Keys))
      ensures (Snapshot(), r) == DeleteNamespace(old(Snapshot()), req, order, store.codec)
    {
      order := SomeOrder(listHelper.Keys);
      if !req.accepted { return Rejected(InvalidRequest), order; }
      var found := FetchNamespace(req.name);
      if found.Unreadable? { return Rejected(ReadFailed), order; }
      if found.Missing? { return if req.allowMissing then Acknowledged else Rejected(NotFound), order; }
      var subsys := FetchSubsystem(ParentName(req.name));
      if subsys.Unreadable? { return Rejected(ReadFailed), order; }
      if subsys.Missing? { return Rejected(NotFound), order; }
      var stopped;
      stopped, order := LinkEachController(Detaching, subsys.value, SubsystemIdOf(req.name), found.value.spec.hostNsid);
      if stopped.Some? { return Rejected(stopped.value), order; }
      var reply := Send(NamespaceUnalloc(subsys.value.spec.nqn, found.value.spec.hostNsid));
      if !reply.Good? { return Rejected(Refusal(reply)), order; }
      r := Drop(found.value.name);
    }

    method GetNvmeNamespace(req: GetRequest) returns (r: Response)
      modifies store`loads, rpc
      ensures (Snapshot(), r) == Handlers.GetNvmeNamespace(old(Snapshot()), req, store.codec)
    {
      if !req.accepted { return Rejected(InvalidRequest); }
      var found := FetchNamespace(req.name);
      if found.Unreadable? { return Rejected(ReadFailed); }
      if found.Missing? { return Rejected(NotFound); }
      var subsys := FetchSubsystem(ParentName(req.name));
      if subsys.Unreadable? { return Rejected(ReadFailed); }
      if subsys.Missing? { return Rejected(NotFound); }
      var reply := Send(NamespaceInfo(subsys.value.spec.nqn, found.value.spec.hostNsid));
      if !reply.Good? { return Rejected(Refusal(reply)); }
      r := Returned(NamespaceObject(Namespace(req.name, NamespaceSpec(0, FirstText(reply), 0, [], []), true)));
    }

    // ---------------------------------------------------------------- one request

    /** The handler for a request. */
    method Dispatch(op: Op) returns (r: Response, ghost order: seq<string>)
      modifies this, store, rpc
      ensures OrderOk(old(State()), Reordered(op, order))
      ensures (Snapshot(), r) == Handle(old(Snapshot()), Reordered(op, order), store.codec)
    {
      order := [];
      match op
      case CreateSubsystemOp(req, _) => r, order := CreateNvmeSubsystem(req);
      case DeleteSubsystemOp(req) => r := DeleteNvmeSubsystem(req);
      case GetSubsystemOp(req) => r := GetNvmeSubsystem(req);
      case CreateControllerOp(req) => r := CreateNvmeController(req);
      case DeleteControllerOp(req) => r := DeleteNvmeController(req);
      case UpdateControllerOp(req) => r := UpdateNvmeController(req);
      case GetControllerOp(req) => r := GetNvmeController(req);
      case CreateNamespaceOp(req, _) => r, order := CreateNvmeNamespace(req);
      case DeleteNamespaceOp(req, _) => r, order := DeleteNvmeNamespace(req);
      case GetNamespaceOp(req) => r := GetNvmeNamespace(req);
      case ListSubsystemsOp(req, token) => r := ListNvmeSubsystems(req, token);
      case ListChildrenOp(what, req, token) => r := ListNvmeChildren(what, req, token);
    }

    /** Serving a request is a step of the run, with the loop in the order it happened to take. It keeps the state well
        shaped; and where the request names its own kind, what is backed stays so and what is accounted for too. */
    method Serve(op: Op, env: Env, ghost w: Kinds) returns (r: Response, ghost order: seq<string>)
      modifies this, store, rpc
      ensures OrderOk(old(State()), Reordered(op, order))
      ensures State() == Step(old(State()), Event.Serve(Reordered(op, order), env), store.codec)
      ensures r == Result(old(State()), Reordered(op, order), env, store.codec).1
      ensures var served := Reordered(op, order);
        old(Shaped(State())) && FreshIdOk(served) && UpdatesItsKind(served, store.codec) ==> Shaped(State())
      ensures var served := Reordered(op, order);
        old(Shaped(State()) && Backed(State(), w) && Reliable(State().device.contract, w)) ==>
          Plain(old(State()), served, store.codec) && Trusted(old(State()), Event.Serve(served, env), w) ==>
            Backed(State(), w)
      ensures var served := Reordered(op, order);
        old(Shaped(State()) && Accounted(State()) && Reliable(State().device.contract)) ==>
          Plain(old(State()), served, store.codec) && Sound(Event.Serve(served, env)) ==> Accounted(State())
    {
      hide Handle, Shaped, Backed, Trusted, Accounted, Sound, Plain, OrderOk, FreshIdOk, UpdatesItsKind, Reordered;
      store.loads, store.saves, rpc.net, rpc.log := env.loads, env.saves, env.net, [];
      assert Snapshot() == Begin(old(State()), env);
      r, order := Dispatch(op);
      StepKeeps(old(State()), Reordered(op, order), env, store.codec, w);
    }
  }
}
