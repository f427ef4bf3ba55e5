/** Runs: requests served one after another, each in surroundings of its own, and restarts of the bridge. */
module Runs {
  import opened Names
  import opened Device
  import opened Bridge
  import opened Handlers

  datatype Op =
    | CreateSubsystemOp(csub: CreateSubsystemRequest, order: seq<string>)
    | DeleteSubsystemOp(del: DeleteRequest)
    | GetSubsystemOp(get: GetRequest)
    | CreateControllerOp(cctrl: CreateControllerRequest)
    | DeleteControllerOp(del: DeleteRequest)
    | UpdateControllerOp(upd: UpdateControllerRequest)
    | GetControllerOp(get: GetRequest)
    | CreateNamespaceOp(cns: CreateNamespaceRequest, order: seq<string>)
    | DeleteNamespaceOp(del: DeleteRequest, order: seq<string>)
    | GetNamespaceOp(get: GetRequest)
    | ListSubsystemsOp(list: ListRequest, freshToken: string)
    | ListChildrenOp(what: Children, list: ListRequest, freshToken: string)

  /** The same request with its loop in another order. */
  function Reordered(op: Op, order: seq<string>): Op {
    match op
    case CreateSubsystemOp(req, _) => CreateSubsystemOp(req, order)
    case CreateNamespaceOp(req, _) => CreateNamespaceOp(req, order)
    case DeleteNamespaceOp(req, _) => DeleteNamespaceOp(req, order)
    case _ => op
  }

  datatype Event = Serve(op: Op, env: Env) | Restart

  function Handle(s: Session, op: Op, codec: Codec := Strict): (Session, Response) {
    match op
    case CreateSubsystemOp(req, order) => CreateSubsystem(s, req, order, codec)
    case DeleteSubsystemOp(req) => DeleteSubsystem(s, req, codec)
    case GetSubsystemOp(req) => GetNvmeSubsystem(s, req, codec)
    case CreateControllerOp(req) => CreateController(s, req, codec)
    case DeleteControllerOp(req) => DeleteController(s, req, codec)
    case UpdateControllerOp(req) => UpdateNvmeController(s, req, codec)
    case GetControllerOp(req) => GetNvmeController(s, req, codec)
    case CreateNamespaceOp(req, order) => CreateNamespace(s, req, order, codec)
    case DeleteNamespaceOp(req, order) => DeleteNamespace(s, req, order, codec)
    case GetNamespaceOp(req) => GetNvmeNamespace(s, req, codec)
    case ListSubsystemsOp(req, token) => ListSubsystemsPage(s, req, token)
    case ListChildrenOp(what, req, token) => ListChildrenPage(s, what, req, token, codec)
  }

  function Begin(c: Core, env: Env): Session {
    Session(c, env, [])
  }

  function Result(c: Core, op: Op, env: Env, codec: Codec := Strict): (Session, Response) {
    Handle(Begin(c, env), op, codec)
  }

  function Restarted(c: Core): Core {
    c.(index := map[], pagination := map[])
  }

  function Step(c: Core, e: Event, codec: Codec := Strict): Core {
    match e
    case Serve(op, env) => Result(c, op, env, codec).0.core
    case Restart => Restarted(c)
  }

  function Run(c: Core, events: seq<Event>, codec: Codec := Strict): Core
    decreases |events|
  {
    if events == [] then c else Run(Step(c, events[0], codec), events[1..], codec)
  }

  function Initial(scan: ScanFilter, contract: Contract): Core {
    Core(scan, map[], map[], map[], Device(contract, map[]))
  }

  // ------------------------------------------------------------------ what the surroundings may and may not do

  /** A loop over a Go map meets every key once, in some order. */
  ghost predicate Enumerates(order: seq<string>, keys: set<string>) {
    && (forall k :: k in order <==> k in keys)
    && (forall i, j :: 0 <= i < j < |order| ==> order[i] != order[j])
  }

  /** The generated ids are well formed (they are UUIDs). */
  ghost predicate FreshIdOk(op: Op) {
    && (op.CreateSubsystemOp? ==> ValidId(op.csub.freshId))
    && (op.CreateControllerOp? ==> ValidId(op.cctrl.freshId))
    && (op.CreateNamespaceOp? ==> ValidId(op.cns.freshId))
  }

  ghost predicate Plausible(e: Event) {
    e.Serve? ==> FreshIdOk(e.op)
  }

  ghost predicate OrderOk(c: Core, op: Op) {
    op.CreateSubsystemOp? || op.CreateNamespaceOp? || op.DeleteNamespaceOp? ==> Enumerates(op.order, c.index.Keys)
  }

  /** Every write to the store succeeds. */
  predicate WritesSucceed(env: Env) {
    forall w :: w in env.saves ==> w
  }

  /** The first two reads of the store succeed. */
  predicate LookupsWork(env: Env) {
    forall i :: 0 <= i < 2 && i < |env.loads| ==> env.loads[i]
  }

  /** The first write to the store succeeds. */
  predicate SavesWork(env: Env) {
    env.saves == [] || env.saves[0]
  }

  /** The first answer on the wire is to a command the device runs, if it is willing. */
  predicate TakesEffect(net: seq<Answer>) {
    net != [] && (net[0].Done? || (net[0].Lost? && net[0].applied))
  }

  /** A call that ends in a transport error had no effect on the device. */
  predicate NoHiddenEffects(env: Env) {
    forall a :: a in env.net && a.Lost? ==> !a.applied
  }

  predicate IsDelete(op: Op) {
    op.DeleteSubsystemOp? || op.DeleteControllerOp? || op.DeleteNamespaceOp?
  }

  /** Each loop meets the keys the index then has. */
  ghost predicate OrdersOk(c: Core, events: seq<Event>)
    decreases |events|
  {
    events == [] || ((events[0].Serve? ==> OrderOk(c, events[0].op)) && OrdersOk(Step(c, events[0]), events[1..]))
  }

  ghost predicate NoRestart(events: seq<Event>) {
    forall e :: e in events ==> e.Serve?
  }
}
