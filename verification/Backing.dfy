/** What it is for the store to be backed by the device: everything stored exists there under its parent's NQN. What
    growth of the device, a new record and an erasure do to that. */
module Backing {
  import opened Names
  import opened Device
  import opened Bridge
  import opened Handlers
  import opened Shape

  /** A stored subsystem that the device has. */
  predicate Present(c: Core, k: string) {
    StoresSubsystem(c, k) && NqnAt(c, k) in c.device.units
  }

  predicate HasParent(c: Core, k: string) {
    Present(c, ParentName(k))
  }

  /** The device's side of the subsystem of a stored child. */
  function ParentUnit(c: Core, k: string): Unit
    requires HasParent(c, k)
  {
    c.device.units[NqnAt(c, ParentName(k))]
  }

  predicate Siblings(k: string, l: string) {
    SubsystemIdOf(k) == SubsystemIdOf(l)
  }

  ghost predicate SubsystemsBacked(c: Core) {
    UniqueNqns(c) && forall k :: StoresSubsystem(c, k) ==> NqnAt(c, k) in c.device.units
  }

  ghost predicate ControllersBacked(c: Core) {
    && (forall k :: StoresController(c, k) ==> HasParent(c, k) && IdAt(c, k) in ParentUnit(c, k).controllers)
    && (forall k, l ::
          StoresController(c, k) && StoresController(c, l) && Siblings(k, l) && IdAt(c, k) == IdAt(c, l) ==> k == l)
  }

  ghost predicate NamespacesBacked(c: Core) {
    && (forall k :: StoresNamespace(c, k) ==> HasParent(c, k) && NsidAt(c, k) in ParentUnit(c, k).namespaces)
    && (forall k, l ::
          StoresNamespace(c, k) && StoresNamespace(c, l) && Siblings(k, l) && NsidAt(c, k) == NsidAt(c, l) ==> k == l)
  }

  /** The kinds of children a statement is about. */
  datatype Kinds = Kinds(controllers: bool, namespaces: bool) {
    predicate Include(o: Object) {
      (controllers && o.ControllerObject?) || (namespaces && o.NamespaceObject?)
    }

    predicate Any() {
      controllers || namespaces
    }
  }

  const BOTH := Kinds(true, true)
  const NEITHER := Kinds(false, false)

  /** Subsystems are backed, and of their children those of the given kinds. */
  ghost predicate Backed(c: Core, w: Kinds := BOTH) {
    SubsystemsBacked(c) && (w.controllers ==> ControllersBacked(c)) && (w.namespaces ==> NamespacesBacked(c))
  }

  lemma ParentNameParses(k: string)
    requires IsResourceName(k)
    ensures SubsystemIdOf(ParentName(k)) == SubsystemIdOf(k) && IsSubsystemName(ParentName(k))
    ensures IsSubsystemName(k) <==> ParentName(k) == k
  {
    NameIsRebuilt(k);
    SubsystemNameParses(SubsystemIdOf(k));
  }

  // ------------------------------------------------------------------ commands that only add

  /** The device has all it had of the given kinds. */
  ghost predicate Grows(d: Device, d': Device, w: Kinds := BOTH) {
    && d'.contract == d.contract
    && forall n :: n in d.units ==>
         && n in d'.units
         && (w.controllers ==> d.units[n].controllers <= d'.units[n].controllers)
         && (w.namespaces ==> d.units[n].namespaces <= d'.units[n].namespaces)
  }

  predicate Removes(c: Command, w: Kinds := BOTH) {
    c.SubsystemDelete? || (w.controllers && c.ControllerRemove?) || (w.namespaces && c.NamespaceUnalloc?)
  }

  lemma CallGrows(s: Session, c: Command, w: Kinds := BOTH)
    requires s.core.device.contract.refusesDuplicate && !Removes(c, w)
    ensures Grows(s.core.device, Call(s, c).0.core.device, w)
  {
  }

  lemma {:induction false} VisitGrows(
      s: Session, link: Link, order: seq<string>, subsys: Subsystem, subsysId: string, nsid: int)
    requires s.core.device.contract.refusesDuplicate
    ensures Grows(s.core.device, Visit(s, link, order, subsys, subsysId, nsid).0.core.device)
    decreases |order|
  {
    if order != [] {
      if ControllerPrefixTest(order[0], subsys.name) {
        var (s1, found) := GetController(s, order[0]);
        if found.Found? && SubsystemIdOf(found.value.name) == subsysId && found.value.spec.ctrlrId.Some? {
          var command := link.CommandFor(subsys.spec.nqn, found.value.spec.ctrlrId.value, nsid);
          CallGrows(s1, command);
          VisitGrows(Call(s1, command).0, link, order[1..], subsys, subsysId, nsid);
        } else {
          VisitGrows(s1, link, order[1..], subsys, subsysId, nsid);
        }
      } else {
        VisitGrows(s, link, order[1..], subsys, subsysId, nsid);
      }
    }
  }

  /** The store is as it was, or without one child of another kind. */
  ghost predicate KeepsRecords(c: Core, c': Core, w: Kinds) {
    || c'.store == c.store
    || exists k :: k in c.store && !c.store[k].SubsystemObject? && !w.Include(c.store[k]) && c'.store == c.store - {k}
  }

  lemma ControllersGrow(c: Core, c': Core)
    requires ControllersBacked(c) && c'.store == c.store && Grows(c.device, c'.device, Kinds(true, false))
    ensures ControllersBacked(c')
  {
    assert forall k :: StoresController(c', k) <==> StoresController(c, k);
    assert forall k :: HasParent(c, k) ==> HasParent(c', k);
  }

  lemma GrowthKeepsBacked(c: Core, c': Core, w: Kinds := BOTH)
    requires Backed(c, w) && Grows(c.device, c'.device, w) && KeepsRecords(c, c', w)
    ensures Backed(c', w)
  {
    assert forall k :: StoresSubsystem(c', k) <==> StoresSubsystem(c, k);
    assert forall k :: StoresSubsystem(c, k) ==> NqnAt(c', k) == NqnAt(c, k);
    assert w.controllers ==> forall k :: StoresController(c', k) <==> StoresController(c, k);
    assert w.namespaces ==> forall k :: StoresNamespace(c', k) <==> StoresNamespace(c, k);
    assert forall k :: HasParent(c, k) ==> HasParent(c', k);
  }

  // ------------------------------------------------------------------ recording one more object

  /** What makes a new object backed where the rest already is. */
  ghost predicate NewlyBacked(c: Core, key: string, o: Object) {
    match o
    case SubsystemObject(x) =>
      x.spec.nqn in c.device.units && forall k :: StoresSubsystem(c, k) ==> NqnAt(c, k) != x.spec.nqn
    case ControllerObject(x) =>
      && x.spec.ctrlrId.Some? && HasParent(c, key) && x.spec.ctrlrId.value in ParentUnit(c, key).controllers
      && forall k :: StoresController(c, k) && Siblings(k, key) && k != key ==> IdAt(c, k) != x.spec.ctrlrId.value
    case NamespaceObject(x) =>
      && HasParent(c, key) && x.spec.hostNsid in ParentUnit(c, key).namespaces
      && forall k :: StoresNamespace(c, k) && Siblings(k, key) && k != key ==> NsidAt(c, k) != x.spec.hostNsid
  }

  lemma SameElsewhere(c: Core, c': Core, key: string)
    requires c' == c.(store := c'.store) && key in c'.store && c'.store == c.store[key := c'.store[key]]
    ensures forall k :: k != key ==> (StoresSubsystem(c', k) <==> StoresSubsystem(c, k))
    ensures forall k :: k != key ==> (StoresController(c', k) <==> StoresController(c, k))
    ensures forall k :: k != key ==> (StoresNamespace(c', k) <==> StoresNamespace(c, k))
    ensures forall k :: StoresSubsystem(c', k) && k != key ==> NqnAt(c', k) == NqnAt(c, k)
    ensures forall k :: StoresController(c', k) && k != key ==> IdAt(c', k) == IdAt(c, k)
    ensures forall k :: StoresNamespace(c', k) && k != key ==> NsidAt(c', k) == NsidAt(c, k)
    ensures forall k :: ParentName(k) != key ==> (HasParent(c', k) <==> HasParent(c, k))
    ensures forall k :: ParentName(k) != key && HasParent(c', k) ==> ParentUnit(c', k) == ParentUnit(c, k)
  {
  }

  /** The key is new, or that of a controller whose record is replaced. */
  ghost predicate Recordable(c: Core, key: string, o: Object) {
    && (key !in c.store || (StoresController(c, key) && o.ControllerObject?))
    && (o.ControllerObject? ==> o.controller.spec.ctrlrId.Some?)
    && (!o.SubsystemObject? ==> ParentName(key) != key)
  }

  lemma SubsystemsStayBacked(c: Core, c': Core, key: string)
    requires SubsystemsBacked(c) && c' == c.(store := c'.store)
    requires key in c'.store && c'.store == c.store[key := c'.store[key]]
    requires StoresSubsystem(c', key) ==> NewlyBacked(c, key, c'.store[key])
    ensures SubsystemsBacked(c')
  {
    SameElsewhere(c, c', key);
  }

  lemma ControllersStayBacked(c: Core, c': Core, key: string)
    requires ControllersBacked(c) && c' == c.(store := c'.store)
    requires key in c'.store && c'.store == c.store[key := c'.store[key]]
    requires !StoresSubsystem(c, key) && Recordable(c, key, c'.store[key])
    requires StoresController(c', key) ==> NewlyBacked(c, key, c'.store[key])
    ensures ControllersBacked(c')
  {
    SameElsewhere(c, c', key);
    assert forall k :: HasParent(c, k) ==> ParentName(k) != key;
  }

  lemma NamespacesStayBacked(c: Core, c': Core, key: string)
    requires NamespacesBacked(c) && c' == c.(store := c'.store)
    requires key in c'.store && c'.store == c.store[key := c'.store[key]]
    requires !StoresSubsystem(c, key) && Recordable(c, key, c'.store[key])
    requires StoresNamespace(c', key) ==> NewlyBacked(c, key, c'.store[key])
    ensures NamespacesBacked(c')
  {
    SameElsewhere(c, c', key);
    assert forall k :: HasParent(c, k) ==> ParentName(k) != key;
  }

  lemma NewlyBackedStaysBacked(c: Core, key: string, o: Object, w: Kinds := BOTH)
    requires Backed(c, w) && Recordable(c, key, o)
    requires o.SubsystemObject? || w.Include(o) ==> NewlyBacked(c, key, o)
    ensures Backed(c.(store := c.store[key := o]), w)
  {
    var c' := c.(store := c.store[key := o]);
    SubsystemsStayBacked(c, c', key);
    if w.controllers { ControllersStayBacked(c, c', key); }
    if w.namespaces { NamespacesStayBacked(c, c', key); }
  }

  lemma BackedOnlyIfNewlyBacked(c: Core, key: string, o: Object, w: Kinds := BOTH)
    requires Backed(c, w) && Recordable(c, key, o) && Backed(c.(store := c.store[key := o]), w)
    requires o.SubsystemObject? || w.Include(o)
    ensures NewlyBacked(c, key, o)
  {
    var c' := c.(store := c.store[key := o]);
    SameElsewhere(c, c', key);
    match o
    case SubsystemObject(x) => assert StoresSubsystem(c', key);
    case ControllerObject(x) => assert StoresController(c', key);
    case NamespaceObject(x) => assert StoresNamespace(c', key);
  }

  lemma SaveKeepsBacked(s: Session, name: string, o: Object, w: Kinds := BOTH)
    requires Backed(s.core, w) && name !in s.core.store && Recordable(s.core, name, o)
    requires o.SubsystemObject? || w.Include(o) ==> NewlyBacked(s.core, name, o)
    ensures Backed(SaveNew(s, name, o).0.core, w)
  {
    var c', plain := SaveNew(s, name, o).0.core, s.core.(store := s.core.store[name := o]);
    if WriteWorks(s) {
      NewlyBackedStaysBacked(s.core, name, o, w);
      assert c'.store == plain.store;
      GrowthKeepsBacked(plain, c', w);
    } else {
      GrowthKeepsBacked(s.core, c', w);
    }
  }

  // ------------------------------------------------------------------ erasing an object

  /** A subsystem goes, and its unit with it. */
  ghost predicate SubsystemErased(c: Core, c': Core, key: string) {
    && StoresSubsystem(c, key) && c'.store == c.store - {key}
    && c'.device.units == c.device.units - {NqnAt(c, key)}
  }

  lemma ErasedSubsystemKeepsParent(c: Core, c': Core, key: string, k: string)
    requires UniqueNqns(c) && SubsystemErased(c, c', key) && HasParent(c, k) && ParentName(k) != key
    ensures HasParent(c', k) && ParentUnit(c', k) == ParentUnit(c, k)
  {
    assert StoresSubsystem(c', ParentName(k));
  }

  lemma ErasedSubsystemStaysBacked(c: Core, c': Core, key: string, w: Kinds := BOTH)
    requires Backed(c, w) && SubsystemErased(c, c', key)
    requires forall k :: k in c.store && w.Include(c.store[k]) ==> ParentName(k) != key
    ensures Backed(c', w)
  {
    assert forall k :: StoresSubsystem(c', k) ==> StoresSubsystem(c, k) && k != key && NqnAt(c', k) == NqnAt(c, k);
    if w.controllers {
      forall k | StoresController(c', k)
        ensures StoresController(c, k) && IdAt(c', k) == IdAt(c, k)
        ensures HasParent(c', k) && IdAt(c', k) in ParentUnit(c', k).controllers
      {
        assert StoresController(c, k);
        ErasedSubsystemKeepsParent(c, c', key, k);
      }
    }
    if w.namespaces {
      forall k | StoresNamespace(c', k)
        ensures StoresNamespace(c, k) && NsidAt(c', k) == NsidAt(c, k)
        ensures HasParent(c', k) && NsidAt(c', k) in ParentUnit(c', k).namespaces
      {
        assert StoresNamespace(c, k);
        ErasedSubsystemKeepsParent(c, c', key, k);
      }
    }
  }

  lemma EmptyHasNoChildren(c: Core, key: string, w: Kinds := BOTH)
    requires Backed(c, w) && StoresSubsystem(c, key) && Empty(c.device.units[NqnAt(c, key)])
    ensures forall k :: k in c.store && w.Include(c.store[k]) ==> ParentName(k) != key
  {
    forall k | k in c.store && w.Include(c.store[k]) ensures ParentName(k) != key {
      assert StoresController(c, k) || StoresNamespace(c, k);
      assert !Empty(ParentUnit(c, k));
    }
  }

  /** A child goes, and its device id with it. */
  ghost predicate ChildErased(c: Core, c': Core, key: string) {
    && (StoresController(c, key) || StoresNamespace(c, key)) && c'.store == c.store - {key} && HasParent(c, key)
    && var n := NqnAt(c, ParentName(key)); var u := c.device.units[n];
       && n in c'.device.units && c'.device.units == c.device.units[n := c'.device.units[n]]
       && c'.device.units[n].controllers ==
            (if StoresController(c, key) then u.controllers - {IdAt(c, key)} else u.controllers)
       && c'.device.units[n].namespaces ==
            (if StoresNamespace(c, key) then u.namespaces - {NsidAt(c, key)} else u.namespaces)
  }

  lemma OneUnitOneParent(c: Core, k: string, l: string)
    requires Shaped(c) && UniqueNqns(c) && k in c.store && l in c.store && HasParent(c, k) && HasParent(c, l)
    requires NqnAt(c, ParentName(k)) == NqnAt(c, ParentName(l))
    ensures Siblings(k, l)
  {
    assert StoredWell(k, c.store[k]) && StoredWell(l, c.store[l]);
    ParentNameParses(k);
    ParentNameParses(l);
  }

  lemma ErasedChildKeepsSubsystem(c: Core, c': Core, key: string, k: string)
    requires ChildErased(c, c', key)
    ensures StoresSubsystem(c', k) <==> StoresSubsystem(c, k)
    ensures StoresSubsystem(c, k) ==> NqnAt(c', k) == NqnAt(c, k)
    ensures HasParent(c, k) ==> HasParent(c', k)
  {
  }

  lemma ErasedChildKeepsController(c: Core, c': Core, key: string, k: string)
    requires Shaped(c) && SubsystemsBacked(c) && ControllersBacked(c)
    requires ChildErased(c, c', key) && StoresController(c', k)
    ensures StoresController(c, k) && IdAt(c', k) == IdAt(c, k)
    ensures HasParent(c', k) && IdAt(c', k) in ParentUnit(c', k).controllers
  {
    ErasedChildKeepsSubsystem(c, c', key, k);
    ErasedChildKeepsSubsystem(c, c', key, ParentName(k));
    if NqnAt(c, ParentName(k)) == NqnAt(c, ParentName(key)) { OneUnitOneParent(c, k, key); }
  }

  lemma ErasedChildKeepsNamespace(c: Core, c': Core, key: string, k: string)
    requires Shaped(c) && SubsystemsBacked(c) && NamespacesBacked(c)
    requires ChildErased(c, c', key) && StoresNamespace(c', k)
    ensures StoresNamespace(c, k) && NsidAt(c', k) == NsidAt(c, k)
    ensures HasParent(c', k) && NsidAt(c', k) in ParentUnit(c', k).namespaces
  {
    ErasedChildKeepsSubsystem(c, c', key, k);
    ErasedChildKeepsSubsystem(c, c', key, ParentName(k));
    if NqnAt(c, ParentName(k)) == NqnAt(c, ParentName(key)) { OneUnitOneParent(c, k, key); }
  }

  lemma ErasedChildStaysBacked(c: Core, c': Core, key: string, w: Kinds := BOTH)
    requires Shaped(c) && Backed(c, w) && ChildErased(c, c', key)
    ensures Backed(c', w)
  {
    forall k | StoresSubsystem(c', k) ensures StoresSubsystem(c, k) && NqnAt(c', k) == NqnAt(c, k) {
      ErasedChildKeepsSubsystem(c, c', key, k);
    }
    if w.controllers {
      forall k | StoresController(c', k)
        ensures StoresController(c, k) && IdAt(c', k) == IdAt(c, k)
        ensures HasParent(c', k) && IdAt(c', k) in ParentUnit(c', k).controllers
      {
        ErasedChildKeepsController(c, c', key, k);
      }
    }
    if w.namespaces {
      forall k | StoresNamespace(c', k)
        ensures StoresNamespace(c, k) && NsidAt(c', k) == NsidAt(c, k)
        ensures HasParent(c', k) && NsidAt(c', k) in ParentUnit(c', k).namespaces
      {
        ErasedChildKeepsNamespace(c, c', key, k);
      }
    }
  }
}
