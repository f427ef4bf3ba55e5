/** What each request does, as a function of the session it is served in. `order` is the order in which the loop
    over ListHelper happens to run; `freshId` and `freshToken` are what the id and token generators return. */
module Handlers {
  import opened Names
  import opened Device
  import opened Bridge
  import opened Sorting
  import Nqn

  // ------------------------------------------------------------------ requests

  /** `accepted` is the verdict of the library checks: required fields and resource-name syntax. */
  datatype CreateSubsystemRequest = CreateSubsystemRequest(accepted: bool, userId: string, freshId: string,
      spec: SubsystemSpec)
  datatype CreateControllerRequest = CreateControllerRequest(accepted: bool, parent: string, userId: string,
      freshId: string, spec: ControllerSpec)
  datatype CreateNamespaceRequest = CreateNamespaceRequest(accepted: bool, parent: string, userId: string,
      freshId: string, spec: NamespaceSpec)
  datatype UpdateControllerRequest = UpdateControllerRequest(accepted: bool, name: string, spec: ControllerSpec,
      maskAccepted: bool)
  datatype DeleteRequest = DeleteRequest(accepted: bool, name: string, allowMissing: bool)
  datatype GetRequest = GetRequest(accepted: bool, name: string)
  datatype ListRequest = ListRequest(accepted: bool, parent: string, pageSize: int, pageToken: string)

  function ChosenId(userId: string, freshId: string): string {
    if userId == [] then freshId else userId
  }

  /** A user-set id may be absent but may not be malformed. */
  predicate AcceptableId(userId: string) {
    userId == [] || ValidId(userId)
  }

  const AUTO_CTRLR_ID := NO_ID
  const MIN_CTRLR_ID := 0
  const MAX_CTRLR_ID := 256

  predicate AcceptsCreateSubsystem(req: CreateSubsystemRequest) {
    req.accepted && AcceptableId(req.userId) && Nqn.Check(req.spec.nqn, req.spec.serial, req.spec.model).Accepted?
  }

  predicate AcceptsControllerSpec(spec: ControllerSpec) {
    spec.transport.Pcie? && spec.endpoint.Some?
  }

  predicate AcceptsCreateController(req: CreateControllerRequest) {
    req.accepted && AcceptableId(req.userId) && AcceptsControllerSpec(req.spec)
  }

  predicate AcceptsCreateNamespace(req: CreateNamespaceRequest) {
    req.accepted && AcceptableId(req.userId)
  }

  function NewSubsystemName(req: CreateSubsystemRequest): string {
    SubsystemName(ChosenId(req.userId, req.freshId))
  }

  function NewControllerName(req: CreateControllerRequest): string {
    ControllerName(SubsystemIdOf(req.parent), ChosenId(req.userId, req.freshId))
  }

  function NewNamespaceName(req: CreateNamespaceRequest): string {
    NamespaceName(SubsystemIdOf(req.parent), ChosenId(req.userId, req.freshId))
  }

  function ParentName(name: string): string {
    SubsystemName(SubsystemIdOf(name))
  }

  function ParamsOf(spec: ControllerSpec): ControllerParams {
    var e := if spec.endpoint.Some? then spec.endpoint.value else PcieEndpoint(0, 0, 0);
    ControllerParams(
      e.port, e.physicalFunction, e.virtualFunction,
      if spec.ctrlrId.Some? then spec.ctrlrId.value else AUTO_CTRLR_ID,
      spec.maxNsq, spec.maxNcq, spec.sqes)
  }

  // ------------------------------------------------------------------ subsystems

  /** The duplicate-NQN scan. None: no objection. */
  function ScanForNqn(
      s: Session, order: seq<string>, nqn: string, codec: Codec := Strict): (r: (Session, Option<Error>))
    ensures r.0 == s.(env := r.0.env) && r.0.env == s.env.(loads := r.0.env.loads)
    decreases |order|
  {
    if order == [] then (s, None)
    else if !s.core.scan.Selects(order[0]) then ScanForNqn(s, order[1..], nqn, codec)
    else
      match GetSubsystem(s, order[0], codec)
      case (s1, Unreadable) => (s1, Some(ReadFailed))
      case (s1, Missing) => (s1, Some(NotFound))
      case (s1, Found(x)) =>
        if x.spec.nqn == nqn then (s1, Some(AlreadyExists)) else ScanForNqn(s1, order[1..], nqn, codec)
  }

  function CreationCommand(spec: SubsystemSpec): Command {
    SubsystemCreate(spec.nqn, spec.model, spec.serial, spec.maxNamespaces, MIN_CTRLR_ID, MAX_CTRLR_ID)
  }

  function CreateSubsystem(
      s: Session, req: CreateSubsystemRequest, order: seq<string>, codec: Codec := Strict): (Session, Response) {
    if !AcceptsCreateSubsystem(req) then (s, Rejected(InvalidRequest))
    else
      var name := NewSubsystemName(req);
      match GetSubsystem(s, name, codec)
      case (s1, Unreadable) => (s1, Rejected(ReadFailed))
      case (s1, Found(x)) => (s1, Returned(SubsystemObject(x)))
      case (s1, Missing) =>
        var (s2, objection) := ScanForNqn(s1, order, req.spec.nqn, codec);
        if objection.Some? then (s2, Rejected(objection.value))
        else
          var (s3, reply) := Call(s2, CreationCommand(req.spec));
          if !reply.Good? then (s3, Rejected(Refusal(reply)))
          else
            var (s4, version) := Call(s3, GetVersion);
            if version.NoReply? then (s4, Rejected(TransportFailed))
            else SaveNew(s4, name, SubsystemObject(Subsystem(name, req.spec, FirstText(version))))
  }

  function FirstText(r: Reply): string {
    if r.Good? && |r.texts| > 0 then r.texts[0] else []
  }

  function DeleteSubsystem(s: Session, req: DeleteRequest, codec: Codec := Strict): (Session, Response) {
    if !req.accepted then (s, Rejected(InvalidRequest))
    else
      match GetSubsystem(s, req.name, codec)
      case (s1, Unreadable) => (s1, Rejected(ReadFailed))
      case (s1, Missing) => (s1, if req.allowMissing then Acknowledged else Rejected(NotFound))
      case (s1, Found(x)) =>
        var (s2, reply) := Call(s1, SubsystemDelete(x.spec.nqn));
        if !reply.Good? then (s2, Rejected(Refusal(reply)))
        else Forget(s2, x.name)
  }

  function GetNvmeSubsystem(s: Session, req: GetRequest, codec: Codec := Strict): (Session, Response) {
    if !req.accepted then (s, Rejected(InvalidRequest))
    else
      match GetSubsystem(s, req.name, codec)
      case (s1, Unreadable) => (s1, Rejected(ReadFailed))
      case (s1, Missing) => (s1, Rejected(NotFound))
      case (s1, Found(x)) =>
        var (s2, reply) := Call(s1, SubsystemList);
        if !reply.Good? then (s2, Rejected(Refusal(reply)))
        else if x.spec.nqn in reply.texts then
          (s2, Returned(SubsystemObject(Subsystem([], SubsystemSpec(x.spec.nqn, [], [], 0), "TBD"))))
        else (s2, Rejected(DeviceRefused))
  }

  // ------------------------------------------------------------------ controllers

  function CreateController(s: Session, req: CreateControllerRequest, codec: Codec := Strict): (Session, Response) {
    if !AcceptsCreateController(req) then (s, Rejected(InvalidRequest))
    else
      var name := NewControllerName(req);
      match GetController(s, name, codec)
      case (s1, Unreadable) => (s1, Rejected(ReadFailed))
      case (s1, Found(x)) => (s1, Returned(ControllerObject(x)))
      case (s1, Missing) =>
        match GetSubsystem(s1, req.parent, codec)
        case (s2, Unreadable) => (s2, Rejected(ReadFailed))
        case (s2, Missing) => (s2, Rejected(NotFound))
        case (s2, Found(subsys)) =>
          var (s3, reply) := Call(s2, ControllerCreate(subsys.spec.nqn, ParamsOf(req.spec)));
          if !reply.Good? then (s3, Rejected(Refusal(reply)))
          else SaveNew(s3, name, ControllerObject(Controller(name, req.spec.(ctrlrId := Some(Int32(reply.id))), true)))
  }

  function DeleteController(s: Session, req: DeleteRequest, codec: Codec := Strict): (Session, Response) {
    if !req.accepted then (s, Rejected(InvalidRequest))
    else
      match GetController(s, req.name, codec)
      case (s1, Unreadable) => (s1, Rejected(ReadFailed))
      case (s1, Missing) => (s1, if req.allowMissing then Acknowledged else Rejected(NotFound))
      case (s1, Found(x)) =>
        match GetSubsystem(s1, ParentName(req.name), codec)
        case (s2, Unreadable) => (s2, Rejected(ReadFailed))
        case (s2, Missing) => (s2, Rejected(NotFound))
        case (s2, Found(subsys)) =>
          if x.spec.ctrlrId.None? then (s2, Rejected(NilDereference))
          else
            var (s3, reply) := Call(s2, ControllerRemove(subsys.spec.nqn, x.spec.ctrlrId.value, 1));
            if !reply.Good? then (s3, Rejected(Refusal(reply)))
            else Forget(s3, x.name)
  }

  function UpdateNvmeController(s: Session, req: UpdateControllerRequest, codec: Codec := Strict): (Session, Response) {
    if !req.accepted || !AcceptsControllerSpec(req.spec) then (s, Rejected(InvalidRequest))
    else
      match GetController(s, req.name, codec)
      case (s1, Unreadable) => (s1, Rejected(ReadFailed))
      case (s1, Missing) => (s1, Rejected(NotFound))
      case (s1, Found(_)) =>
        if !req.maskAccepted then (s1, Rejected(InvalidRequest))
        else
          match GetSubsystem(s1, ParentName(req.name), codec)
          case (s2, Unreadable) => (s2, Rejected(ReadFailed))
          case (s2, Missing) => (s2, Rejected(NotFound))
          case (s2, Found(subsys)) =>
            var (s3, reply) := Call(s2, ControllerUpdate(subsys.spec.nqn, ParamsOf(req.spec)));
            if !reply.Good? then (s3, Rejected(Refusal(reply)))
            else
              var response := ControllerObject(Controller(req.name, req.spec.(ctrlrId := Some(Int32(reply.id))), true));
              var (s4, ok) := Put(s3, req.name, response);
              (s4, if ok then Returned(response) else Rejected(WriteFailed))
  }

  function GetNvmeController(s: Session, req: GetRequest, codec: Codec := Strict): (Session, Response) {
    if !req.accepted then (s, Rejected(InvalidRequest))
    else
      match GetController(s, req.name, codec)
      case (s1, Unreadable) => (s1, Rejected(ReadFailed))
      case (s1, Missing) => (s1, Rejected(NotFound))
      case (s1, Found(x)) =>
        match GetSubsystem(s1, ParentName(req.name), codec)
        case (s2, Unreadable) => (s2, Rejected(ReadFailed))
        case (s2, Missing) => (s2, Rejected(NotFound))
        case (s2, Found(subsys)) =>
          if x.spec.ctrlrId.None? then (s2, Rejected(NilDereference))
          else
            var (s3, reply) := Call(s2, ControllerInfo(subsys.spec.nqn, x.spec.ctrlrId.value));
            if !reply.Good? then (s3, Rejected(Refusal(reply)))
            else (s3, Returned(ControllerObject(
                                 Controller(req.name, ControllerSpec(Unspecified, None, x.spec.ctrlrId, 0, 0, 0),
                                     true))))
  }

  // ------------------------------------------------------------------ namespaces

  datatype Link = Attaching | Detaching {
    function CommandFor(nqn: string, ctrlrId: int, nsid: int): Command {
      match this
      case Attaching => Attach(nqn, ctrlrId, nsid)
      case Detaching => Detach(nqn, ctrlrId, nsid)
    }
  }

  /** The loop that attaches a namespace to, or detaches it from, every controller of its subsystem: stops at the
      first error. None: every key was visited. */
  function Visit(
      s: Session, link: Link, order: seq<string>, subsys: Subsystem, subsysId: string, nsid: int,
      codec: Codec := Strict): (r: (Session, Option<Error>))
    ensures r.0.core == s.core.(device := r.0.core.device) && r.0.core.device.contract == s.core.device.contract
    ensures r.0.env.saves == s.env.saves
    ensures s.log <= r.0.log
    decreases |order|
  {
    if order == [] then (s, None)
    else if !ControllerPrefixTest(order[0], subsys.name) then Visit(s, link, order[1..], subsys, subsysId, nsid, codec)
    else
      match GetController(s, order[0], codec)
      case (s1, Unreadable) => (s1, Some(ReadFailed))
      case (s1, Missing) => (s1, Some(NotFound))
      case (s1, Found(c)) =>
        if SubsystemIdOf(c.name) != subsysId then Visit(s1, link, order[1..], subsys, subsysId, nsid, codec)
        else if c.spec.ctrlrId.None? then (s1, Some(NilDereference))
        else
          var (s2, reply) := Call(s1, link.CommandFor(subsys.spec.nqn, c.spec.ctrlrId.value, nsid));
          if !reply.Good? then (s2, Some(Refusal(reply)))
          else Visit(s2, link, order[1..], subsys, subsysId, nsid, codec)
  }

  function AllocCommand(nqn: string, spec: NamespaceSpec): Command {
    NamespaceAlloc(nqn, spec.nguid, spec.eui64, spec.uuid, 1, spec.volume)
  }

  function CreateNamespace(
      s: Session, req: CreateNamespaceRequest, order: seq<string>, codec: Codec := Strict): (Session, Response) {
    if !AcceptsCreateNamespace(req) then (s, Rejected(InvalidRequest))
    else
      var name := NewNamespaceName(req);
      match GetNamespace(s, name, codec)
      case (s1, Unreadable) => (s1, Rejected(ReadFailed))
      case (s1, Found(x)) => (s1, Returned(NamespaceObject(x)))
      case (s1, Missing) =>
        match GetSubsystem(s1, req.parent, codec)
        case (s2, Unreadable) => (s2, Rejected(ReadFailed))
        case (s2, Missing) => (s2, Rejected(NotFound))
        case (s2, Found(subsys)) =>
          var (s3, reply) := Call(s2, AllocCommand(subsys.spec.nqn, req.spec));
          if !reply.Good? then (s3, Rejected(Refusal(reply)))
          else
            var (s4, stopped) :=
                Visit(s3, Attaching, order, subsys, SubsystemIdOf(req.parent), req.spec.hostNsid, codec);
            if stopped.Some? then (s4, Rejected(stopped.value))
            else SaveNew(s4, name, NamespaceObject(Namespace(name, req.spec, true)))
  }

  function DeleteNamespace(
      s: Session, req: DeleteRequest, order: seq<string>, codec: Codec := Strict): (Session, Response) {
    if !req.accepted then (s, Rejected(InvalidRequest))
    else
      match GetNamespace(s, req.name, codec)
      case (s1, Unreadable) => (s1, Rejected(ReadFailed))
      case (s1, Missing) => (s1, if req.allowMissing then Acknowledged else Rejected(NotFound))
      case (s1, Found(x)) =>
        match GetSubsystem(s1, ParentName(req.name), codec)
        case (s2, Unreadable) => (s2, Rejected(ReadFailed))
        case (s2, Missing) => (s2, Rejected(NotFound))
        case (s2, Found(subsys)) =>
          var (s3, stopped) := Visit(s2, Detaching, order, subsys, SubsystemIdOf(req.name), x.spec.hostNsid, codec);
          if stopped.Some? then (s3, Rejected(stopped.value))
          else
            var (s4, reply) := Call(s3, NamespaceUnalloc(subsys.spec.nqn, x.spec.hostNsid));
            if !reply.Good? then (s4, Rejected(Refusal(reply)))
            else Forget(s4, x.name)
  }

  function GetNvmeNamespace(s: Session, req: GetRequest, codec: Codec := Strict): (Session, Response) {
    if !req.accepted then (s, Rejected(InvalidRequest))
    else
      match GetNamespace(s, req.name, codec)
      case (s1, Unreadable) => (s1, Rejected(ReadFailed))
      case (s1, Missing) => (s1, Rejected(NotFound))
      case (s1, Found(x)) =>
        match GetSubsystem(s1, ParentName(req.name), codec)
        case (s2, Unreadable) => (s2, Rejected(ReadFailed))
        case (s2, Missing) => (s2, Rejected(NotFound))
        case (s2, Found(subsys)) =>
          var (s3, reply) := Call(s2, NamespaceInfo(subsys.spec.nqn, x.spec.hostNsid));
          if !reply.Good? then (s3, Rejected(Refusal(reply)))
          else (s3, Returned(NamespaceObject(Namespace(req.name, NamespaceSpec(0, FirstText(reply), 0, [], []), true))))
  }

  // ------------------------------------------------------------------ paging

  const DEFAULT_PAGE_SIZE := 50
  const MAX_PAGE_SIZE := 250

  datatype Paging = Window(size: nat, offset: int) | BadPaging(error: Error)

  function ExtractPagination(pageSize: int, pageToken: string, table: map<string, int>): Paging {
    if pageSize < 0 then BadPaging(InvalidRequest)
    else
      var size :=
        if pageSize == 0 then DEFAULT_PAGE_SIZE else if pageSize > MAX_PAGE_SIZE then MAX_PAGE_SIZE else pageSize;
      if pageToken == [] then Window(size, 0)
      else if pageToken in table then Window(size, table[pageToken])
      else BadPaging(UnknownToken)
  }

  /** The elements from `offset`, at most `size` of them, and whether some are left. */
  function LimitPagination<T>(all: seq<T>, offset: nat, size: nat): (seq<T>, bool)
    requires offset <= |all|
  {
    if offset + size < |all| then (all[offset..offset + size], true) else (all[offset..], false)
  }

  function Int32s(xs: seq<int>): (r: seq<int>)
    ensures |r| == |xs| && forall i :: 0 <= i < |xs| ==> r[i] == Int32(xs[i])
  {
    seq(|xs|, i requires 0 <= i < |xs| => Int32(xs[i]))
  }

  /** The position of the next window is kept under a fresh token. (A window that starts past the end of the list is
      a Go slice error: OutOfRange below.) */
  function RememberNext(s: Session, more: bool, freshToken: string, next: int): Session {
    if more then s.(core := s.core.(pagination := s.core.pagination[freshToken := next])) else s
  }

  function ListSubsystemsPage(s: Session, req: ListRequest, freshToken: string): (Session, Response) {
    if !req.accepted then (s, Rejected(InvalidRequest))
    else
      match ExtractPagination(req.pageSize, req.pageToken, s.core.pagination)
      case BadPaging(e) => (s, Rejected(e))
      case Window(size, offset) =>
        var (s1, reply) := Call(s, SubsystemList);
        if !reply.Good? then (s1, Rejected(Refusal(reply)))
        else if offset < 0 || offset > |reply.texts| then (s1, Rejected(OutOfRange))
        else
          var (page, more) := LimitPagination(reply.texts, offset, size);
          (RememberNext(s1, more, freshToken, offset + size), ListedNqns(Sort(page, StringLe)))
  }

  datatype Children = Controllers | Namespaces {
    function Question(nqn: string): Command {
      match this
      case Controllers => ControllerList(nqn)
      case Namespaces => NamespaceList(nqn)
    }
  }

  /** Controllers and namespaces are listed alike. */
  function ListChildrenPage(
      s: Session, what: Children, req: ListRequest, freshToken: string, codec: Codec := Strict): (Session, Response) {
    if !req.accepted then (s, Rejected(InvalidRequest))
    else
      match ExtractPagination(req.pageSize, req.pageToken, s.core.pagination)
      case BadPaging(e) => (s, Rejected(e))
      case Window(size, offset) =>
        match GetSubsystem(s, req.parent, codec)
        case (s1, Unreadable) => (s1, Rejected(ReadFailed))
        case (s1, Missing) => (s1, Rejected(NotFound))
        case (s1, Found(subsys)) =>
          var (s2, reply) := Call(s1, what.Question(subsys.spec.nqn));
          if !reply.Good? then (s2, Rejected(Refusal(reply)))
          else if offset < 0 || offset > |reply.ids| then (s2, Rejected(OutOfRange))
          else
            var (page, more) := LimitPagination(reply.ids, offset, size);
            (RememberNext(s2, more, freshToken, offset + size), ListedIds(Sort(Int32s(page), IntLe)))
  }
}
