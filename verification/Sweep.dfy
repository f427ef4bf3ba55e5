/** The attach and detach loops: which controllers they reach in every order, and what they have done to the device and
    sent over the wire when they stop. */
module Sweep {
  import opened Names
  import opened Device
  import opened Bridge
  import opened Handlers
  import opened Runs
  import opened Shape

  // ------------------------------------------------------------------ the keys the loop acts on

  function Targets(order: seq<string>, subsysName: string): seq<string>
    decreases |order|
  {
    if order == [] then []
    else if ControllerPrefixTest(order[0], subsysName) then [order[0]] + Targets(order[1..], subsysName)
    else Targets(order[1..], subsysName)
  }

  lemma {:induction false} TargetsAre(order: seq<string>, subsysName: string)
    ensures forall k :: k in Targets(order, subsysName) <==> k in order && ControllerPrefixTest(k, subsysName)
    ensures (forall i, j :: 0 <= i < j < |order| ==> order[i] != order[j]) ==>
              forall i, j :: 0 <= i < j < |Targets(order, subsysName)| ==>
                  Targets(order, subsysName)[i] != Targets(order, subsysName)[j]
    decreases |order|
  {
    if order != [] {
      TargetsAre(order[1..], subsysName);
      assert order == [order[0]] + order[1..];
      assert forall i :: 0 <= i < |order| - 1 ==> order[1..][i] == order[i + 1];
      if forall i, j :: 0 <= i < j < |order| ==> order[i] != order[j] {
        assert order[0] !in order[1..];
      }
    }
  }

  /** The controllers of a subsystem that the index knows. */
  function ControllerKeys(c: Core, subsysId: string): set<string> {
    set k | k in c.index && IsControllerName(k) && SubsystemIdOf(k) == subsysId
  }

  /** In every order the loop acts once on each controller of the subsystem in the index, and on nothing else. */
  lemma LoopReachesExactly(c: Core, order: seq<string>, subsysId: string)
    requires Shaped(c) && Enumerates(order, c.index.Keys) && ValidId(subsysId)
    ensures Enumerates(Targets(order, SubsystemName(subsysId)), ControllerKeys(c, subsysId))
  {
    TargetsAre(order, SubsystemName(subsysId));
    forall k | k in c.index
      ensures ControllerPrefixTest(k, SubsystemName(subsysId)) <==> k in ControllerKeys(c, subsysId)
    {
      PrefixTestIsExact(k, subsysId);
    }
  }

  lemma {:induction false} VisitOnlyTargets(
      s: Session, link: Link, order: seq<string>, subsys: Subsystem, subsysId: string, nsid: int)
    ensures Visit(s, link, order, subsys, subsysId, nsid) == Visit(s, link, Targets(order, subsys.name), subsys,
        subsysId, nsid)
    decreases |order|
  {
    if order != [] {
      if ControllerPrefixTest(order[0], subsys.name) {
        var rest := Targets(order[1..], subsys.name);
        assert ([order[0]] + rest)[1..] == rest;
        var (s1, found) := GetController(s, order[0]);
        VisitOnlyTargets(s1, link, order[1..], subsys, subsysId, nsid);
        if found.Found? && found.value.spec.ctrlrId.Some? {
          VisitOnlyTargets(Call(s1, link.CommandFor(subsys.spec.nqn, found.value.spec.ctrlrId.value, nsid)).0, link,
            order[1..], subsys, subsysId, nsid);
        }
      } else {
        VisitOnlyTargets(s, link, order[1..], subsys, subsysId, nsid);
      }
    }
  }

  // ------------------------------------------------------------------ what a number of links amounts to

  function Pairs(ids: set<int>, nsid: int): set<(int, int)> {
    set i | i in ids :: (i, nsid)
  }

  /** The device with a namespace attached to, or detached from, a set of controllers. */
  function Linked(d: Device, link: Link, nqn: string, ids: set<int>, nsid: int): Device {
    if nqn !in d.units then d
    else
      var u := d.units[nqn];
      WithUnit(d, nqn, u.(attached :=
          if link.Attaching? then u.attached + Pairs(ids, nsid) else u.attached - Pairs(ids, nsid)))
  }

  lemma LinkedTwice(d: Device, link: Link, nqn: string, a: set<int>, b: set<int>, nsid: int)
    ensures Linked(Linked(d, link, nqn, a, nsid), link, nqn, b, nsid) == Linked(d, link, nqn, a + b, nsid)
  {
    assert Pairs(a + b, nsid) == Pairs(a, nsid) + Pairs(b, nsid);
    if nqn in d.units {
      var u := d.units[nqn];
      assert u.attached - Pairs(a, nsid) - Pairs(b, nsid) == u.attached - Pairs(a + b, nsid);
      assert u.attached + Pairs(a, nsid) + Pairs(b, nsid) == u.attached + Pairs(a + b, nsid);
      var x := Linked(Linked(d, link, nqn, a, nsid), link, nqn, b, nsid);
      assert x.units == d.units[nqn := x.units[nqn]];
    }
  }

  lemma LinkedNone(d: Device, link: Link, nqn: string, nsid: int)
    ensures Linked(d, link, nqn, {}, nsid) == d
  {
    if nqn in d.units {
      var u := d.units[nqn];
      assert Pairs({}, nsid) == {};
      assert u.attached + {} == u.attached && u.attached - {} == u.attached;
      assert d.units[nqn := u] == d.units;
    }
  }

  /** The device is willing. */
  predicate Takes(d: Device, link: Link, nqn: string, id: int, nsid: int) {
    Execute(d, link.CommandFor(nqn, id, nsid), 0).Some?
  }

  function Drop<T>(s: seq<T>, n: nat): seq<T> {
    if n <= |s| then s[n..] else []
  }

  lemma CallLinks(s: Session, link: Link, nqn: string, id: int, nsid: int)
    ensures var (s', reply) := Call(s, link.CommandFor(nqn, id, nsid));
      var taken := Takes(s.core.device, link, nqn, id, nsid);
      && s'.core.device == (if TakesEffect(s.env.net) && taken then Linked(s.core.device, link, nqn, {id}, nsid)
          else s.core.device)
      && (reply.Good? <==> s.env.net != [] && s.env.net[0].Done? && taken)
      && s'.env == s.env.(net := Drop(s.env.net, 1))
  {
    assert Pairs({id}, nsid) == {(id, nsid)};
  }

  function Ids(c: Core, keys: seq<string>): (ids: seq<int>)
    requires forall k :: k in keys ==> StoresController(c, k)
    ensures |ids| == |keys| && forall i :: 0 <= i < |keys| ==> ids[i] == IdAt(c, keys[i])
  {
    seq(|keys|, i requires 0 <= i < |keys| => IdAt(c, keys[i]))
  }

  function IdSet(c: Core, keys: seq<string>): set<int> {
    set k | k in keys && StoresController(c, k) :: IdAt(c, k)
  }

  function Commands(link: Link, nqn: string, ids: seq<int>, nsid: int): (cs: seq<Command>)
    ensures |cs| == |ids| && forall i :: 0 <= i < |ids| ==> cs[i] == link.CommandFor(nqn, ids[i], nsid)
  {
    seq(|ids|, i requires 0 <= i < |ids| => link.CommandFor(nqn, ids[i], nsid))
  }

  /** The keys are all controllers of this subsystem. */
  ghost predicate AllTargets(keys: seq<string>, subsys: Subsystem, subsysId: string) {
    forall k :: k in keys ==>
        ControllerPrefixTest(k, subsys.name) && IsControllerName(k) && SubsystemIdOf(k) == subsysId
  }

  ghost predicate Stored(c: Core, keys: seq<string>) {
    forall k :: k in keys ==> StoresController(c, k)
  }

  /** The `i`-th key reads as a stored controller. */
  predicate Readable(s: Session, keys: seq<string>, i: nat)
    requires i < |keys|
  {
    (i < |s.env.loads| ==> s.env.loads[i]) && StoresController(s.core, keys[i])
  }

  /** The device after the links of the first `i` keys. */
  function DeviceAt(s: Session, link: Link, keys: seq<string>, nqn: string, nsid: int, i: nat): Device
    requires i <= |keys|
  {
    Linked(s.core.device, link, nqn, IdSet(s.core, keys[..i]), nsid)
  }

  /** The `i`-th key is read, and the device as it then is takes its link. */
  predicate LinkTaken(s: Session, link: Link, keys: seq<string>, nqn: string, nsid: int, i: nat)
    requires i < |keys|
  {
    Readable(s, keys, i) && Takes(DeviceAt(s, link, keys, nqn, nsid, i), link, nqn, IdAt(s.core, keys[i]), nsid)
  }

  /** ... and says so. */
  predicate GoesWell(s: Session, link: Link, keys: seq<string>, nqn: string, nsid: int, i: nat)
    requires i < |keys|
  {
    LinkTaken(s, link, keys, nqn, nsid, i) && i < |s.env.net| && s.env.net[i].Done?
  }

  /** How many keys are linked when the loop stops at the `n`-th: one more if its command ran although the answer was
      lost. */
  function LinkedKeys(s: Session, link: Link, keys: seq<string>, nqn: string, nsid: int, n: nat): (m: nat)
    requires n <= |keys|
    ensures n <= m <= |keys|
  {
    if n < |keys| && LinkTaken(s, link, keys, nqn, nsid, n) && TakesEffect(Drop(s.env.net, n)) then n + 1 else n
  }

  /** What was sent when the loop stops at the `n`-th key: a command for each key before it, and its own if it could be
      read. */
  function SentBy(s: Session, link: Link, keys: seq<string>, nqn: string, nsid: int, n: nat): seq<Command>
    requires n <= |keys| && Stored(s.core, keys[..n])
  {
    Commands(link, nqn, Ids(s.core, keys[..n]), nsid)
    + if n < |keys| && Readable(s, keys, n) then [link.CommandFor(nqn, IdAt(s.core, keys[n]), nsid)] else []
  }

  /** Session `s'` is that of a loop which began in `s` and stopped at the `n`-th key, or came to the end. */
  ghost predicate StoppedAt(s: Session, s': Session, link: Link, keys: seq<string>, nqn: string, nsid: int, n: nat) {
    && n <= |keys| && Stored(s.core, keys[..n])
    && s'.core == s.core.(device := DeviceAt(s, link, keys, nqn, nsid, LinkedKeys(s, link, keys, nqn, nsid, n)))
    && s'.log == s.log + SentBy(s, link, keys, nqn, nsid, n)
    && s'.env == Env(Drop(s.env.net, |SentBy(s, link, keys, nqn, nsid, n)|),
                     Drop(s.env.loads, if n < |keys| then n + 1 else n), s.env.saves)
  }

  /** What is wrong with the `n`-th key where it does not go well: its read fails, it is not stored, the device refuses,
      or no answer comes. */
  function Obstacle(s: Session, keys: seq<string>, n: nat): Error
    requires n < |keys|
  {
    if n < |s.env.loads| && !s.env.loads[n] then ReadFailed
    else if !StoresController(s.core, keys[n]) then NotFound
    else if n < |s.env.net| && !s.env.net[n].Lost? then DeviceRefused
    else TransportFailed
  }

  /** The loop stops at the first key that does not go well, for what is wrong with it. */
  ghost predicate Progress(
      s: Session, s': Session, stopped: Option<Error>, link: Link, keys: seq<string>, nqn: string, nsid: int, n: nat) {
    && StoppedAt(s, s', link, keys, nqn, nsid, n)
    && stopped == (if n < |keys| then Some(Obstacle(s, keys, n)) else None)
    && (forall i :: 0 <= i < n ==> GoesWell(s, link, keys, nqn, nsid, i))
    && (n < |keys| ==> !GoesWell(s, link, keys, nqn, nsid, n))
  }

  lemma {:induction false} VisitProgress(
      s: Session, link: Link, keys: seq<string>, subsys: Subsystem, subsysId: string, nsid: int) returns (n: nat)
    requires Shaped(s.core) && AllTargets(keys, subsys, subsysId)
    ensures var (s', stopped) := Visit(s, link, keys, subsys, subsysId, nsid);
      Progress(s, s', stopped, link, keys, subsys.spec.nqn, nsid, n)
    decreases |keys|
  {
    hide *;
    if keys == [] {
      NothingToDo(s, link, subsys, subsysId, nsid);
      return 0;
    }
    FirstKey(s, link, keys, subsys, subsysId, nsid);
    if !GoesWell(s, link, keys, subsys.spec.nqn, nsid, 0) { return 0; }
    FirstStaysShaped(s, link, keys, subsys, subsysId, nsid);
    var s2 := AfterFirst(s, link, keys, subsys.spec.nqn, nsid);
    var m := VisitProgress(s2, link, keys[1..], subsys, subsysId, nsid);
    var (s3, stopped) := Visit(s2, link, keys[1..], subsys, subsysId, nsid);
    ExtendProgress(s, s2, s3, stopped, link, keys, subsys.spec.nqn, nsid, m);
    n := m + 1;
  }

  lemma FirstStaysShaped(s: Session, link: Link, keys: seq<string>, subsys: Subsystem, subsysId: string, nsid: int)
    requires Shaped(s.core) && keys != [] && AllTargets(keys, subsys, subsysId)
    requires GoesWell(s, link, keys, subsys.spec.nqn, nsid, 0)
    ensures StoresController(s.core, keys[0]) && Shaped(AfterFirst(s, link, keys, subsys.spec.nqn, nsid).core)
    ensures AllTargets(keys[1..], subsys, subsysId)
  {
  }

  lemma NothingToDo(s: Session, link: Link, subsys: Subsystem, subsysId: string, nsid: int)
    ensures Visit(s, link, [], subsys, subsysId, nsid) == (s, None)
    ensures Progress(s, s, None, link, [], subsys.spec.nqn, nsid, 0)
  {
    var none: seq<string> := [];
    assert none[..0] == none && IdSet(s.core, none) == {};
    LinkedNone(s.core.device, link, subsys.spec.nqn, nsid);
    assert s.log + SentBy(s, link, [], subsys.spec.nqn, nsid, 0) == s.log;
  }

  /** The session once the first key went well. */
  function AfterFirst(s: Session, link: Link, keys: seq<string>, nqn: string, nsid: int): Session
    requires keys != [] && StoresController(s.core, keys[0])
  {
    var id := IdAt(s.core, keys[0]);
    Session(s.core.(device := Linked(s.core.device, link, nqn, {id}, nsid)),
            Env(Drop(s.env.net, 1), Drop(s.env.loads, 1), s.env.saves),
            s.log + [link.CommandFor(nqn, id, nsid)])
  }

  /** The loop goes on from there if the first key goes well, and stops there otherwise. */
  lemma FirstKey(s: Session, link: Link, keys: seq<string>, subsys: Subsystem, subsysId: string, nsid: int)
    requires Shaped(s.core) && keys != [] && AllTargets(keys, subsys, subsysId)
    ensures var nqn := subsys.spec.nqn; var (s', stopped) := Visit(s, link, keys, subsys, subsysId, nsid);
      if GoesWell(s, link, keys, nqn, nsid, 0)
      then (s', stopped) == Visit(AfterFirst(s, link, keys, nqn, nsid), link, keys[1..], subsys, subsysId, nsid)
      else Progress(s, s', stopped, link, keys, nqn, nsid, 0)
  {
    var nqn := subsys.spec.nqn;
    var (s', stopped) := Visit(s, link, keys, subsys, subsysId, nsid);
    assert keys[0] in keys;
    var (s1, found) := GetController(s, keys[0]);
    FirstRead(s, keys);
    NoneLinked(s, link, keys, nqn, nsid);
    if !found.Found? {
      UnreadFirst(s, s', stopped, link, keys, nqn, nsid);
      return;
    }
    assert StoredWell(keys[0], s.core.store[keys[0]]);
    var id := IdAt(s.core, keys[0]);
    CallLinks(s1, link, nqn, id, nsid);
    if GoesWell(s, link, keys, nqn, nsid, 0) { return; }
    RefusedFirst(s, s', stopped, link, keys, nqn, nsid);
  }

  lemma FirstRead(s: Session, keys: seq<string>)
    requires Shaped(s.core) && keys != [] && IsControllerName(keys[0])
    ensures var (s1, found) := GetController(s, keys[0]);
      s1 == s.(env := s.env.(loads := Drop(s.env.loads, 1))) && (found.Found? <==> Readable(s, keys, 0))
  {
  }

  lemma NoneLinked(s: Session, link: Link, keys: seq<string>, nqn: string, nsid: int)
    ensures DeviceAt(s, link, keys, nqn, nsid, 0) == s.core.device
  {
    assert keys[..0] == [] && IdSet(s.core, []) == {};
    LinkedNone(s.core.device, link, nqn, nsid);
  }

  lemma OneLinked(s: Session, link: Link, keys: seq<string>, nqn: string, nsid: int)
    requires keys != [] && StoresController(s.core, keys[0])
    ensures DeviceAt(s, link, keys, nqn, nsid, 1) == Linked(s.core.device, link, nqn, {IdAt(s.core, keys[0])}, nsid)
  {
    assert keys[..1] == [keys[0]];
    assert IdSet(s.core, [keys[0]]) == {IdAt(s.core, keys[0])};
  }

  lemma UnreadFirst(
      s: Session, s': Session, stopped: Option<Error>, link: Link, keys: seq<string>, nqn: string, nsid: int)
    requires keys != [] && !Readable(s, keys, 0) && stopped == Some(Obstacle(s, keys, 0))
    requires s' == s.(env := s.env.(loads := Drop(s.env.loads, 1)))
    ensures Progress(s, s', stopped, link, keys, nqn, nsid, 0)
  {
    NoneLinked(s, link, keys, nqn, nsid);
    assert s.log + SentBy(s, link, keys, nqn, nsid, 0) == s.log;
  }

  lemma RefusedFirst(
      s: Session, s': Session, stopped: Option<Error>, link: Link, keys: seq<string>, nqn: string, nsid: int)
    requires keys != [] && Readable(s, keys, 0) && !GoesWell(s, link, keys, nqn, nsid, 0)
    requires stopped == Some(Obstacle(s, keys, 0))
    requires var id := IdAt(s.core, keys[0]);
      && s'.core == s.core.(device := if TakesEffect(s.env.net) && Takes(s.core.device, link, nqn, id, nsid)
                                      then Linked(s.core.device, link, nqn, {id}, nsid) else s.core.device)
      && s'.env == Env(Drop(s.env.net, 1), Drop(s.env.loads, 1), s.env.saves)
      && s'.log == s.log + [link.CommandFor(nqn, id, nsid)]
    ensures Progress(s, s', stopped, link, keys, nqn, nsid, 0)
  {
    NoneLinked(s, link, keys, nqn, nsid);
    OneLinked(s, link, keys, nqn, nsid);
    assert Drop(s.env.net, 0) == s.env.net;
    var none := Commands(link, nqn, Ids(s.core, keys[..0]), nsid);
    assert none == [];
    assert none + [link.CommandFor(nqn, IdAt(s.core, keys[0]), nsid)] ==
        [link.CommandFor(nqn, IdAt(s.core, keys[0]), nsid)];
  }

  // ------------------------------------------------------------------ one key more

  lemma OneMoreDevice(s: Session, link: Link, keys: seq<string>, nqn: string, nsid: int, i: nat)
    requires keys != [] && StoresController(s.core, keys[0]) && i < |keys|
    ensures DeviceAt(AfterFirst(s, link, keys, nqn, nsid), link, keys[1..], nqn, nsid, i) == DeviceAt(s, link, keys,
        nqn, nsid, i + 1)
  {
    var s2, key, done := AfterFirst(s, link, keys, nqn, nsid), keys[0], keys[1..][..i];
    assert keys[..i + 1] == [key] + done;
    assert IdSet(s.core, [key] + done) == {IdAt(s.core, key)} + IdSet(s2.core, done) by {
      assert forall k :: k in [key] + done <==> k == key || k in done;
      assert forall k :: StoresController(s2.core, k) <==> StoresController(s.core, k);
      assert forall k :: StoresController(s.core, k) ==> IdAt(s2.core, k) == IdAt(s.core, k);
    }
    LinkedTwice(s.core.device, link, nqn, {IdAt(s.core, key)}, IdSet(s2.core, done), nsid);
  }

  lemma DropTwice<T>(s: seq<T>, n: nat)
    ensures Drop(Drop(s, 1), n) == Drop(s, n + 1)
  {
  }

  lemma OneMoreAccepted(s: Session, link: Link, keys: seq<string>, nqn: string, nsid: int, i: nat)
    requires keys != [] && StoresController(s.core, keys[0]) && i < |keys[1..]|
    ensures var s2 := AfterFirst(s, link, keys, nqn, nsid); var rest := keys[1..];
      && (Readable(s2, rest, i) <==> Readable(s, keys, i + 1))
      && (LinkTaken(s2, link, rest, nqn, nsid, i) <==> LinkTaken(s, link, keys, nqn, nsid, i + 1))
      && (GoesWell(s2, link, rest, nqn, nsid, i) <==> GoesWell(s, link, keys, nqn, nsid, i + 1))
      && Obstacle(s2, rest, i) == Obstacle(s, keys, i + 1)
  {
    OneMoreDevice(s, link, keys, nqn, nsid, i);
    var s2 := AfterFirst(s, link, keys, nqn, nsid);
    assert keys[1..][i] == keys[i + 1];
    assert StoresController(s2.core, keys[i + 1]) <==> StoresController(s.core, keys[i + 1]);
    assert StoresController(s.core, keys[i + 1]) ==> IdAt(s2.core, keys[i + 1]) == IdAt(s.core, keys[i + 1]);
  }

  lemma OneMoreSent(s: Session, link: Link, keys: seq<string>, nqn: string, nsid: int, m: nat)
    requires keys != [] && StoresController(s.core, keys[0]) && m <= |keys[1..]|
    requires Stored(AfterFirst(s, link, keys, nqn, nsid).core, keys[1..][..m])
    ensures Stored(s.core, keys[..m + 1])
    ensures SentBy(s, link, keys, nqn, nsid, m + 1) ==
      [link.CommandFor(nqn, IdAt(s.core, keys[0]), nsid)] + SentBy(AfterFirst(s, link, keys, nqn, nsid), link,
          keys[1..], nqn, nsid, m)
  {
    var s2, key, rest := AfterFirst(s, link, keys, nqn, nsid), keys[0], keys[1..];
    assert keys[..m + 1] == [key] + rest[..m];
    OneMoreCommand(s.core, s2.core, link, key, rest[..m], nqn, nsid);
    if m < |rest| { OneMoreAccepted(s, link, keys, nqn, nsid, m); }
    var first, more :=
      [link.CommandFor(nqn, IdAt(s.core, key), nsid)], Commands(link, nqn, Ids(s2.core, rest[..m]), nsid);
    var last :=
      if m < |rest| && Readable(s2, rest, m) then [link.CommandFor(nqn, IdAt(s2.core, rest[m]), nsid)] else [];
    assert first + more + last == first + (more + last);
  }

  lemma OneMoreCommand(c: Core, c': Core, link: Link, key: string, done: seq<string>, nqn: string, nsid: int)
    requires c'.store == c.store && StoresController(c, key) && Stored(c', done)
    ensures Stored(c, [key] + done)
    ensures Commands(link, nqn, Ids(c, [key] + done), nsid) ==
      [link.CommandFor(nqn, IdAt(c, key), nsid)] + Commands(link, nqn, Ids(c', done), nsid)
  {
    forall k | k in [key] + done ensures StoresController(c, k) {
      assert k == key || StoresController(c', k);
    }
  }

  lemma OneMoreLinked(s: Session, link: Link, keys: seq<string>, nqn: string, nsid: int, m: nat)
    requires keys != [] && StoresController(s.core, keys[0]) && m <= |keys[1..]|
    ensures LinkedKeys(s, link, keys, nqn, nsid, m + 1) == LinkedKeys(AfterFirst(s, link, keys, nqn, nsid), link,
        keys[1..], nqn, nsid, m) + 1
  {
    if m < |keys[1..]| { OneMoreAccepted(s, link, keys, nqn, nsid, m); }
    DropTwice(s.env.net, m);
  }

  lemma ExtendStop(s: Session, s2: Session, s3: Session, link: Link, keys: seq<string>, nqn: string, nsid: int, m: nat)
    requires keys != [] && StoresController(s.core, keys[0]) && s2 == AfterFirst(s, link, keys, nqn, nsid)
    requires StoppedAt(s2, s3, link, keys[1..], nqn, nsid, m)
    ensures StoppedAt(s, s3, link, keys, nqn, nsid, m + 1)
  {
    hide LinkedKeys, DeviceAt, SentBy, Drop, Stored;
    OneMoreSent(s, link, keys, nqn, nsid, m);
    OneMoreLinked(s, link, keys, nqn, nsid, m);
    OneMoreDevice(s, link, keys, nqn, nsid, LinkedKeys(s2, link, keys[1..], nqn, nsid, m));
    DropTwice(s.env.net, |SentBy(s2, link, keys[1..], nqn, nsid, m)|);
    DropTwice(s.env.loads, if m < |keys[1..]| then m + 1 else m);
    var first, more := [link.CommandFor(nqn, IdAt(s.core, keys[0]), nsid)], SentBy(s2, link, keys[1..], nqn, nsid, m);
    assert s.log + (first + more) == s.log + first + more;
  }

  lemma ExtendProgress(
      s: Session, s2: Session, s3: Session, stopped: Option<Error>, link: Link, keys: seq<string>, nqn: string,
          nsid: int, m: nat)
    requires keys != [] && GoesWell(s, link, keys, nqn, nsid, 0) && s2 == AfterFirst(s, link, keys, nqn, nsid)
    requires Progress(s2, s3, stopped, link, keys[1..], nqn, nsid, m)
    ensures Progress(s, s3, stopped, link, keys, nqn, nsid, m + 1)
  {
    ExtendStop(s, s2, s3, link, keys, nqn, nsid, m);
    forall i | 0 <= i < m + 1 ensures GoesWell(s, link, keys, nqn, nsid, i) {
      if i > 0 { OneMoreAccepted(s, link, keys, nqn, nsid, i - 1); }
    }
    if m < |keys[1..]| { OneMoreAccepted(s, link, keys, nqn, nsid, m); }
  }
}
