/** The bridge's state and the three things a handler can do to it: read or write the persistent store, touch its
    own key index, and call the device. Every read, write and call can fail; which ones do is data. */
module Bridge {
  import opened Names
  import opened Device

  // ------------------------------------------------------------------ records

  datatype SubsystemSpec = SubsystemSpec(nqn: string, serial: string, model: string, maxNamespaces: int)
  datatype Subsystem = Subsystem(name: string, spec: SubsystemSpec, firmware: string)

  datatype Transport = Pcie | Tcp | Unspecified
  datatype PcieEndpoint = PcieEndpoint(port: int, physicalFunction: int, virtualFunction: int)
  datatype ControllerSpec = ControllerSpec(
    transport: Transport, endpoint: Option<PcieEndpoint>, ctrlrId: Option<int>, maxNsq: int, maxNcq: int, sqes: int)
  datatype Controller = Controller(name: string, spec: ControllerSpec, active: bool)

  datatype NamespaceSpec = NamespaceSpec(hostNsid: int, nguid: string, eui64: int, uuid: string, volume: string)
  datatype Namespace = Namespace(name: string, spec: NamespaceSpec, online: bool)

  datatype Object =
    | SubsystemObject(subsystem: Subsystem)
    | ControllerObject(controller: Controller)
    | NamespaceObject(namespace: Namespace)

  function NameOf(o: Object): string {
    match o
    case SubsystemObject(s) => s.name
    case ControllerObject(c) => c.name
    case NamespaceObject(n) => n.name
  }

  // ------------------------------------------------------------------ state

  /** Which index keys the duplicate-NQN scan looks at. */
  datatype ScanFilter = ByPrefix(prefix: string) | ByShape {
    predicate Selects(key: string) {
      match this
      case ByPrefix(p) => HasPrefix(key, p)
      case ByShape => IsSubsystemName(key)
    }
  }

  /** The filter in the program. */
  const LITERAL_FILTER := ByPrefix("//storage.opiproject.org/subsystems")

  datatype Core = Core(
    scan: ScanFilter,
    index: map<string, bool>,       // ListHelper
    pagination: map<string, int>,
    store: map<string, Object>,
    device: Device)

  /** What the surroundings do during one request: the wire's answers in turn, and for the store in turn whether
      each read and each write succeeds. A wire with no answer left is down; a store with nothing said works. */
  datatype Env = Env(net: seq<Answer>, loads: seq<bool>, saves: seq<bool>)

  datatype Session = Session(core: Core, env: Env, log: seq<Command>)

  datatype Error =
    | InvalidRequest | ReadFailed | WriteFailed | NotFound | AlreadyExists
    | TransportFailed | DeviceRefused | Unimplemented | UnknownToken | OutOfRange | NilDereference

  datatype Response =
    | Rejected(error: Error)
    | Acknowledged
    | Returned(item: Object)
    | ListedIds(ids: seq<int>)
    | ListedNqns(nqns: seq<string>)

  predicate Ok(r: Response) {
    !r.Rejected?
  }

  /** Go's conversion to int32. */
  function Int32(x: int): int {
    (x + 0x8000_0000) % 0x1_0000_0000 - 0x8000_0000
  }

  /** It gives the one number in the range of int32 that agrees with the given one modulo two to the 32. */
  lemma Int32Wraps(x: int, y: int)
    ensures y == Int32(x) <==> -0x8000_0000 <= y < 0x8000_0000 && (x - y) % 0x1_0000_0000 == 0
  {
    var z := x + 0x8000_0000;
    assert z == z / 0x1_0000_0000 * 0x1_0000_0000 + z % 0x1_0000_0000;
  }

  // ------------------------------------------------------------------ the store

  datatype Lookup<+T> = Unreadable | Missing | Found(value: T)

  function Get(s: Session, key: string): (r: (Session, Lookup<Object>))
    ensures r.0 == s.(env := r.0.env) && r.0.env == s.env.(loads := r.0.env.loads)
    ensures r.1.Found? ==> key in s.core.store && s.core.store[key] == r.1.value
    ensures r.1.Missing? ==> key !in s.core.store
  {
    var works := |s.env.loads| == 0 || s.env.loads[0];
    var later := if |s.env.loads| == 0 then [] else s.env.loads[1..];
    (s.(env := s.env.(loads := later)),
     if !works then Unreadable else if key in s.core.store then Found(s.core.store[key]) else Missing)
  }

  /** What reading a record as another kind gives. The encoding carries no kind, so this is the codec's affair:
      nothing but errors, or for some records a value of the kind asked for. */
  datatype Codec =
    | Strict
    | Lenient(
        asSubsystem: Object -> Option<Subsystem>,
        asController: Object -> Option<Controller>,
        asNamespace: Object -> Option<Namespace>)

  function Decoded<T>(o: Option<T>): Lookup<T> {
    if o.Some? then Found(o.value) else Unreadable
  }

  function GetSubsystem(s: Session, key: string, codec: Codec := Strict): (r: (Session, Lookup<Subsystem>))
    ensures r.0 == s.(env := r.0.env) && r.0.env == s.env.(loads := r.0.env.loads)
    ensures r.1.Found? && codec.Strict? ==> key in s.core.store && s.core.store[key] == SubsystemObject(r.1.value)
    ensures r.1.Missing? ==> key !in s.core.store
  {
    var (s1, found) := Get(s, key);
    (s1, match found
         case Found(SubsystemObject(x)) => Found(x)
         case Found(other) => if codec.Strict? then Unreadable else Decoded(codec.asSubsystem(other))
         case Missing => Missing
         case Unreadable => Unreadable)
  }

  function GetController(s: Session, key: string, codec: Codec := Strict): (r: (Session, Lookup<Controller>))
    ensures r.0 == s.(env := r.0.env) && r.0.env == s.env.(loads := r.0.env.loads)
    ensures r.1.Found? && codec.Strict? ==> key in s.core.store && s.core.store[key] == ControllerObject(r.1.value)
    ensures r.1.Missing? ==> key !in s.core.store
  {
    var (s1, found) := Get(s, key);
    (s1, match found
         case Found(ControllerObject(x)) => Found(x)
         case Found(other) => if codec.Strict? then Unreadable else Decoded(codec.asController(other))
         case Missing => Missing
         case Unreadable => Unreadable)
  }

  function GetNamespace(s: Session, key: string, codec: Codec := Strict): (r: (Session, Lookup<Namespace>))
    ensures r.0 == s.(env := r.0.env) && r.0.env == s.env.(loads := r.0.env.loads)
    ensures r.1.Found? && codec.Strict? ==> key in s.core.store && s.core.store[key] == NamespaceObject(r.1.value)
    ensures r.1.Missing? ==> key !in s.core.store
  {
    var (s1, found) := Get(s, key);
    (s1, match found
         case Found(NamespaceObject(x)) => Found(x)
         case Found(other) => if codec.Strict? then Unreadable else Decoded(codec.asNamespace(other))
         case Missing => Missing
         case Unreadable => Unreadable)
  }

  function WriteWorks(s: Session): bool {
    |s.env.saves| == 0 || s.env.saves[0]
  }

  function AfterWrite(s: Session, store: map<string, Object>): Session {
    s.(env := s.env.(saves := if |s.env.saves| == 0 then [] else s.env.saves[1..]),
       core := s.core.(store := if WriteWorks(s) then store else s.core.store))
  }

  function Put(s: Session, key: string, o: Object): (Session, bool) {
    (AfterWrite(s, s.core.store[key := o]), WriteWorks(s))
  }

  function Erase(s: Session, key: string): (Session, bool) {
    (AfterWrite(s, s.core.store - {key}), WriteWorks(s))
  }

  // ------------------------------------------------------------------ the device

  function Call(s: Session, c: Command): (r: (Session, Reply))
    ensures r.0.core == s.core.(device := r.0.core.device)
    ensures r.0.core.device.contract == s.core.device.contract
    ensures r.0.log == s.log + [c]
    ensures r.0.env == s.env.(net := r.0.env.net)
  {
    var answer := if |s.env.net| == 0 then Lost(false, 0) else s.env.net[0];
    var later := if |s.env.net| == 0 then [] else s.env.net[1..];
    var (d, reply) := Respond(s.core.device, c, answer);
    (s.(core := s.core.(device := d), env := s.env.(net := later), log := s.log + [c]), reply)
  }

  function Refusal(r: Reply): Error {
    if r.BadStatus? then DeviceRefused else TransportFailed
  }

  // ------------------------------------------------------------------ recording and forgetting a resource

  /** The index is marked before the store is written. */
  function SaveNew(s: Session, name: string, o: Object): (Session, Response) {
    var marked := s.(core := s.core.(index := s.core.index[name := false]));
    var (s1, ok) := Put(marked, name, o);
    (s1, if ok then Returned(o) else Rejected(WriteFailed))
  }

  /** The index is cleared before the store is. */
  function Forget(s: Session, name: string): (Session, Response) {
    var cleared := s.(core := s.core.(index := s.core.index - {name}));
    var (s1, ok) := Erase(cleared, name);
    (s1, if ok then Acknowledged else Rejected(WriteFailed))
  }
}
