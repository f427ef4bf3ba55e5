/** The remote NVMe device as the bridge sees it: subsystems by NQN, and in each the controllers, the namespaces
    and which namespace is attached to which controller. It changes only by the commands below. */
module Device {

  datatype Option<+T> = None | Some(value: T)

  /** What the bridge relies on but cannot see. */
  datatype Contract = Contract(
    refusesNonEmpty: bool,   // a subsystem that still has controllers or namespaces is not deleted
    refusesDuplicate: bool,  // an NQN in use is not created again
    resetsDuplicate: bool,   // where it is, the unit starts anew; otherwise it stays as it was
    refusesAttached: bool,   // a namespace that is still attached to a controller is not unallocated
    idempotentLinks: bool,   // attaching what is attached, or detaching what is not, goes well
    dropsAttachments: bool,  // a controller or namespace takes its attachments with it when it goes
    honoursId: bool,         // a controller gets the id it was asked for, if it was asked for one
    echoesUpdate: bool)      // an update answers with the controller id it was sent

  datatype Unit = Unit(
    minId: int, maxId: int,
    controllers: set<int>, namespaces: set<int>,
    attached: set<(int, int)>)  // (controller id, namespace id)

  datatype Device = Device(contract: Contract, units: map<string, Unit>)

  datatype ControllerParams = ControllerParams(
    pcieDomain: int, physicalFunction: int, virtualFunction: int,
    ctrlrId: int, maxNsq: int, maxNcq: int, mqes: int)

  datatype Command =
    | SubsystemCreate(nqn: string, model: string, serial: string, maxNamespaces: int, minId: int, maxId: int)
    | SubsystemDelete(nqn: string)
    | ControllerCreate(nqn: string, params: ControllerParams)
    | ControllerUpdate(nqn: string, params: ControllerParams)
    | ControllerRemove(nqn: string, ctrlrId: int, force: int)
    | NamespaceAlloc(nqn: string, nguid: string, eui64: int, uuid: string, shareEnable: int, bdev: string)
    | NamespaceUnalloc(nqn: string, nsid: int)
    | Attach(nqn: string, ctrlrId: int, nsid: int)
    | Detach(nqn: string, ctrlrId: int, nsid: int)
    | ControllerList(nqn: string)
    | NamespaceList(nqn: string)
    | ControllerInfo(nqn: string, ctrlrId: int)
    | NamespaceInfo(nqn: string, nsid: int)
    | SubsystemList
    | GetVersion

  /** The NQN a command carries; the last two commands carry none. */
  predicate Concerns(c: Command, nqn: string) {
    !c.SubsystemList? && !c.GetVersion? && c.nqn == nqn
  }

  predicate Empty(u: Unit) {
    u.controllers == {} && u.namespaces == {}
  }

  /** The controllers a namespace is attached to. */
  function Holders(u: Unit, nsid: int): set<int> {
    set p | p in u.attached && p.1 == nsid :: p.0
  }

  function Without(u: Unit, nsid: int): set<(int, int)> {
    set p | p in u.attached && p.1 != nsid
  }

  /** No id asked for. */
  const NO_ID := -1

  /** The id in the device's answer, where `id` is the one it picks when the choice is its own. */
  function AnsweredId(d: Device, c: Command, id: int): int {
    if c.ControllerUpdate? && d.contract.echoesUpdate then c.params.ctrlrId
    else if c.ControllerCreate? && d.contract.honoursId && c.params.ctrlrId != NO_ID then c.params.ctrlrId
    else id
  }

  /** The effect of a command the device is willing to run. None when the device must refuse. */
  function Execute(d: Device, c: Command, id: int): Option<Device> {
    match c
    case SubsystemCreate(nqn, _, _, _, minId, maxId) =>
      if nqn in d.units && d.contract.refusesDuplicate then None
      else if nqn in d.units && !d.contract.resetsDuplicate then Some(d)
      else Some(d.(units := d.units[nqn := Unit(minId, maxId, {}, {}, {})]))
    case SubsystemDelete(nqn) =>
      if nqn !in d.units || (d.contract.refusesNonEmpty && !Empty(d.units[nqn])) then None
      else Some(d.(units := d.units - {nqn}))
    case ControllerCreate(nqn, _) =>
      if nqn !in d.units then None
      else
        var u, chosen := d.units[nqn], AnsweredId(d, c, id);
        if chosen in u.controllers || chosen < u.minId || u.maxId < chosen then None
        else Some(WithUnit(d, nqn, u.(controllers := u.controllers + {chosen})))
    case ControllerUpdate(nqn, params) =>
      if nqn !in d.units then None
      else
        var u := d.units[nqn];
        if d.contract.echoesUpdate && params.ctrlrId !in u.controllers then None
        else if !d.contract.echoesUpdate && (id < u.minId || u.maxId < id) then None
        else Some(d)
    case ControllerRemove(nqn, ctrlrId, _) =>
      if nqn !in d.units || ctrlrId !in d.units[nqn].controllers then None
      else
        var u := d.units[nqn];
        var left := if d.contract.dropsAttachments then set p | p in u.attached && p.0 != ctrlrId else u.attached;
        Some(WithUnit(d, nqn, u.(controllers := u.controllers - {ctrlrId}, attached := left)))
    case NamespaceAlloc(nqn, _, _, _, _, _) =>
      if nqn !in d.units || id in d.units[nqn].namespaces then None
      else
        var u := d.units[nqn];
        Some(WithUnit(d, nqn, u.(namespaces := u.namespaces + {id})))
    case NamespaceUnalloc(nqn, nsid) =>
      if nqn !in d.units || nsid !in d.units[nqn].namespaces then None
      else
        var u := d.units[nqn];
        var left := if d.contract.dropsAttachments then Without(u, nsid) else u.attached;
        if d.contract.refusesAttached && Holders(u, nsid) != {} then None
        else Some(WithUnit(d, nqn, u.(namespaces := u.namespaces - {nsid}, attached := left)))
    case Attach(nqn, ctrlrId, nsid) =>
      if nqn !in d.units || ctrlrId !in d.units[nqn].controllers || nsid !in d.units[nqn].namespaces then None
      else
        var u := d.units[nqn];
        if !d.contract.idempotentLinks && (ctrlrId, nsid) in u.attached then None
        else Some(WithUnit(d, nqn, u.(attached := u.attached + {(ctrlrId, nsid)})))
    case Detach(nqn, ctrlrId, nsid) =>
      if nqn !in d.units || ctrlrId !in d.units[nqn].controllers || nsid !in d.units[nqn].namespaces then None
      else
        var u := d.units[nqn];
        if !d.contract.idempotentLinks && (ctrlrId, nsid) !in u.attached then None
        else Some(WithUnit(d, nqn, u.(attached := u.attached - {(ctrlrId, nsid)})))
    case _ => Some(d)
  }

  function WithUnit(d: Device, nqn: string, u: Unit): Device {
    d.(units := d.units[nqn := u])
  }

  /** How one call over the wire goes. */
  datatype Answer =
    | Lost(applied: bool, id: int)                        // transport error; the command may have run all the same
    | Declined                                            // non-zero status
    | Done(id: int, ids: seq<int>, texts: seq<string>)    // zero status, unless the device must refuse

  datatype Reply = NoReply | BadStatus | Good(id: int, ids: seq<int>, texts: seq<string>)

  function Respond(d: Device, c: Command, a: Answer): (Device, Reply) {
    match a
    case Declined => (d, BadStatus)
    case Lost(applied, id) =>
      var ran := Execute(d, c, id);
      (if applied && ran.Some? then ran.value else d, NoReply)
    case Done(id, ids, texts) =>
      var ran := Execute(d, c, id);
      if ran.None? then (d, BadStatus) else (ran.value, Good(AnsweredId(d, c, id), ids, texts))
  }
}
