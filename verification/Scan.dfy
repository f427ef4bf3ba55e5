/** The duplicate-NQN scan of subsystem creation: when it keeps NQNs unique, and when it does not. */
module Scan {
  import opened Names
  import opened Device
  import opened Bridge
  import opened Handlers
  import opened Runs
  import opened Shape
  import opened Effects

  // ------------------------------------------------------------------ the duplicate-NQN scan

  /** The filter picks exactly the subsystems among the keys the bridge uses. */
  ghost predicate Exact(f: ScanFilter) {
    forall k :: IsResourceName(k) ==> (f.Selects(k) <==> IsSubsystemName(k))
  }

  ghost predicate SubsystemsIndexed(c: Core) {
    forall k :: StoresSubsystem(c, k) ==> k in c.index
  }

  lemma {:induction false} ScanFindsDuplicates(s: Session, order: seq<string>, nqn: string, k: string)
    requires k in order && s.core.scan.Selects(k)
    requires ScanForNqn(s, order, nqn).1.None?
    ensures StoresSubsystem(s.core, k) && NqnAt(s.core, k) != nqn
    decreases |order|
  {
    if order[0] != k {
      assert k in order[1..];
      if s.core.scan.Selects(order[0]) {
        ScanFindsDuplicates(GetSubsystem(s, order[0]).0, order[1..], nqn, k);
      } else {
        ScanFindsDuplicates(s, order[1..], nqn, k);
      }
    }
  }

  /** The keys the scan looks at, in order. */
  function Selected(f: ScanFilter, order: seq<string>): seq<string> {
    if order == [] then [] else (if f.Selects(order[0]) then [order[0]] else []) + Selected(f, order[1..])
  }

  /** The `i`-th of them is read, and is a subsystem with another NQN. */
  predicate Clear(s: Session, keys: seq<string>, nqn: string, i: nat)
    requires i < |keys|
  {
    (i < |s.env.loads| ==> s.env.loads[i]) && StoresSubsystem(s.core, keys[i]) && NqnAt(s.core, keys[i]) != nqn
  }

  /** What the scan has against one that is not. */
  function Objection(s: Session, keys: seq<string>, i: nat): Error
    requires i < |keys|
  {
    if (i < |s.env.loads| && !s.env.loads[i]) || (keys[i] in s.core.store && !StoresSubsystem(s.core, keys[i]))
    then ReadFailed
    else if keys[i] !in s.core.store then NotFound
    else AlreadyExists
  }

  /** The scan objects to the first selected key that is not clear, for what is wrong with it. */
  lemma {:induction false} ScanStopsExactly(s: Session, order: seq<string>, nqn: string) returns (n: nat)
    ensures var (s', objection) := ScanForNqn(s, order, nqn); var keys := Selected(s.core.scan, order);
      && n <= |keys| && (forall i :: 0 <= i < n ==> Clear(s, keys, nqn, i))
      && (n < |keys| ==> !Clear(s, keys, nqn, n))
      && objection == (if n < |keys| then Some(Objection(s, keys, n)) else None)
    decreases |order|
  {
    if order == [] { return 0; }
    var keys := Selected(s.core.scan, order);
    if !s.core.scan.Selects(order[0]) {
      assert keys == Selected(s.core.scan, order[1..]);
      n := ScanStopsExactly(s, order[1..], nqn);
      return;
    }
    if !Clear(s, keys, nqn, 0) { return 0; }
    var s1 := GetSubsystem(s, order[0]).0;
    var m := ScanStopsExactly(s1, order[1..], nqn);
    n := m + 1;
    forall i | 1 <= i < |keys|
      ensures Clear(s, keys, nqn, i) <==> Clear(s1, keys[1..], nqn, i - 1)
      ensures Objection(s, keys, i) == Objection(s1, keys[1..], i - 1)
    {
      assert keys[i] == keys[1..][i - 1];
    }
  }

  lemma CreatedNqnIsNew(c: Core, op: Op, env: Env, k: string)
    requires Shaped(c) && Exact(c.scan) && SubsystemsIndexed(c)
    requires op.CreateSubsystemOp? && OrderOk(c, op) && NewKey(op) !in c.store && Ok(Result(c, op, env).1)
    requires StoresSubsystem(c, k)
    ensures NqnAt(c, k) != op.csub.spec.nqn
  {
    var s := Begin(c, env);
    var (s1, found) := GetSubsystem(s, NewSubsystemName(op.csub));
    assert StoredWell(k, c.store[k]);
    assert k in op.order;
    ScanFindsDuplicates(s1, op.order, op.csub.spec.nqn, k);
  }

  lemma CreatedSubsystemCarriesItsNqn(c: Core, op: Op, env: Env)
    requires op.CreateSubsystemOp? && NewKey(op) !in c.store && Ok(Result(c, op, env).1)
    ensures var r := Result(c, op, env).1;
      r.Returned? && r.item.SubsystemObject? && r.item.subsystem.spec == op.csub.spec
  {
  }

  lemma CreateKeepsUnique(c: Core, op: Op, env: Env)
    requires Shaped(c) && Exact(c.scan) && UniqueNqns(c) && SubsystemsIndexed(c)
    requires IsCreate(op) && OrderOk(c, op) && FreshIdOk(op)
    ensures var c' := Step(c, Serve(op, env)); c'.scan == c.scan && UniqueNqns(c') && SubsystemsIndexed(c')
  {
    CreateEffects(c, op, env);
    var c', r := Step(c, Serve(op, env)), Result(c, op, env).1;
    if c'.store != c.store {
      assert NewKey(op) !in c.store && c'.store == c.store[NewKey(op) := r.item];
      CreatedIsOfItsKind(c, op, env);
      forall k | StoresSubsystem(c, k) && r.item.SubsystemObject?
        ensures NqnAt(c, k) != r.item.subsystem.spec.nqn
      {
        CreatedSubsystemCarriesItsNqn(c, op, env);
        CreatedNqnIsNew(c, op, env, k);
      }
      UniqueAfterSave(c, c', NewKey(op), r.item);
    } else {
      assert forall k :: StoresSubsystem(c', k) ==> StoresSubsystem(c, k) && NqnAt(c', k) == NqnAt(c, k);
    }
  }

  lemma UniqueAfterSave(c: Core, c': Core, key: string, o: Object)
    requires UniqueNqns(c) && SubsystemsIndexed(c)
    requires c'.store == c.store[key := o] && c'.index == c.index[key := false] && key !in c.store
    requires forall k :: StoresSubsystem(c, k) && o.SubsystemObject? ==> NqnAt(c, k) != o.subsystem.spec.nqn
    ensures UniqueNqns(c') && SubsystemsIndexed(c')
  {
    assert forall k :: StoresSubsystem(c', k) && k != key ==> StoresSubsystem(c, k) && NqnAt(c', k) == NqnAt(c, k);
  }

  lemma UniqueAfterLoss(c: Core, c': Core)
    requires UniqueNqns(c) && SubsystemsIndexed(c)
    requires forall k :: StoresSubsystem(c', k) ==>
      k in c'.index && StoresSubsystem(c, k) && NqnAt(c', k) == NqnAt(c, k)
    ensures UniqueNqns(c') && SubsystemsIndexed(c')
  {
  }

  lemma DeleteKeepsUnique(c: Core, op: Op, env: Env)
    requires Shaped(c) && UniqueNqns(c) && SubsystemsIndexed(c)
    requires IsDelete(op) && (op.DeleteSubsystemOp? ==> WritesSucceed(env))
    ensures var c' := Step(c, Serve(op, env)); c'.scan == c.scan && UniqueNqns(c') && SubsystemsIndexed(c')
  {
    hide Handle;
    DeleteEffects(c, op, env);
    if !op.DeleteSubsystemOp? && StoresSubsystem(c, op.del.name) { DeletesOnlyItsKind(c, op, env); }
    UniqueAfterLoss(c, Step(c, Serve(op, env)));
  }

  lemma UpdateKeepsUnique(c: Core, op: Op, env: Env)
    requires Shaped(c) && UniqueNqns(c) && SubsystemsIndexed(c)
    requires op.UpdateControllerOp?
    ensures var c' := Step(c, Serve(op, env)); c'.scan == c.scan && UniqueNqns(c') && SubsystemsIndexed(c')
  {
    UpdateEffects(c, op, env);
    UniqueAfterLoss(c, Step(c, Serve(op, env)));
  }

  lemma UniqueNqnsStep(c: Core, op: Op, env: Env)
    requires Shaped(c) && Exact(c.scan) && UniqueNqns(c) && SubsystemsIndexed(c)
    requires OrderOk(c, op) && FreshIdOk(op) && (op.DeleteSubsystemOp? ==> WritesSucceed(env))
    ensures var c' := Step(c, Serve(op, env)); c'.scan == c.scan && UniqueNqns(c') && SubsystemsIndexed(c')
  {
    if IsCreate(op) { CreateKeepsUnique(c, op, env); }
    else if IsDelete(op) { DeleteKeepsUnique(c, op, env); }
    else if op.UpdateControllerOp? { UpdateKeepsUnique(c, op, env); }
    else {
      QueryEffects(c, op, env);
      UniqueAfterLoss(c, Step(c, Serve(op, env)));
    }
  }

  /** With a filter that recognises exactly the subsystem names, and without restarts and failing erasures of
      subsystems, no two stored subsystems ever share an NQN, whatever the device does. */
  lemma {:induction false} ScanKeepsNqnsUnique(c: Core, events: seq<Event>)
    requires Shaped(c) && Exact(c.scan) && UniqueNqns(c) && SubsystemsIndexed(c)
    requires NoRestart(events) && OrdersOk(c, events)
    requires forall e :: e in events ==> Plausible(e) && (e.op.DeleteSubsystemOp? ==> WritesSucceed(e.env))
    ensures UniqueNqns(Run(c, events))
    decreases |events|
  {
    if events != [] {
      var e := events[0];
      assert e in events;
      UniqueNqnsStep(c, e.op, e.env);
      ShapeStep(c, e);
      ScanKeepsNqnsUnique(Step(c, e), events[1..]);
    }
  }

  /** The program's own filter selects none of the bridge's keys: the scan reads nothing and never objects. */
  lemma {:induction false} LiteralScanSeesNothing(s: Session, order: seq<string>, nqn: string)
    requires s.core.scan == ByPrefix("//storage.opiproject.org/subsystems")
    requires forall k :: k in order ==> IsResourceName(k)
    ensures ScanForNqn(s, order, nqn) == (s, None)
    decreases |order|
  {
    if order != [] {
      var k := order[0];
      assert k in order;
      LiteralFilterMissesNames(k);
      LiteralScanSeesNothing(s, order[1..], nqn);
    }
  }

  /** A key is selected by what it begins with, or by being a subsystem's name. */
  lemma SelectedExactly(f: ScanFilter, key: string)
    ensures f.Selects(key) <==>
              if f.ByPrefix? then |f.prefix| <= |key| && forall i :: 0 <= i < |f.prefix| ==> key[i] == f.prefix[i]
              else exists id :: id != [] && '/' !in id && key == "nvmeSubsystems/" + id
  {
    if f.ByPrefix? { return; }
    if IsSubsystemName(key) {
      NameIsRebuilt(key);
      SubsystemSpelledOut(SubsystemIdOf(key));
    }
    forall id | id != [] && '/' !in id && key == "nvmeSubsystems/" + id ensures IsSubsystemName(key) {
      SubsystemSpelledOut(id);
      SubsystemNameParses(id);
    }
  }

  lemma LiteralFilterMissesNames(k: string)
    requires IsResourceName(k)
    ensures !LITERAL_FILTER.Selects(k)
  {
  }

  /** With a store that reads well the scan objects exactly when a key it selects is not a stored subsystem or holds
      the requested NQN. */
  lemma {:induction false} ScanObjectsExactly(s: Session, order: seq<string>, nqn: string)
    requires s.env.loads == []
    ensures ScanForNqn(s, order, nqn).1.None? <==>
              forall k :: k in order && s.core.scan.Selects(k) ==> StoresSubsystem(s.core, k) && NqnAt(s.core, k) != nqn
    decreases |order|
  {
    if order != [] {
      ScanObjectsExactly(s, order[1..], nqn);
      assert order[0] in order && order == [order[0]] + order[1..];
      if s.core.scan.Selects(order[0]) {
        assert GetSubsystem(s, order[0]).0 == s;
      }
    }
  }

  const WILLING := Env([Done(0, [], []), Done(0, [], [])], [], [])

  /** When nothing fails and the device takes the NQN, a new subsystem is created exactly when every selected key is a
      stored subsystem with another NQN. So a duplicate goes through exactly when the scan does not look at the
      subsystem that has the NQN: always with the program's own filter, and after a restart with any filter. */
  lemma CreatedExactlyWhenScanAllows(c: Core, op: Op)
    requires op.CreateSubsystemOp? && Accepts(op) && NewKey(op) !in c.store
    requires c.device.contract.refusesDuplicate ==> op.csub.spec.nqn !in c.device.units
    ensures Ok(Result(c, op, WILLING).1) <==>
              forall k :: k in op.order && c.scan.Selects(k) ==>
                  StoresSubsystem(c, k) && NqnAt(c, k) != op.csub.spec.nqn
  {
    var (s1, found) := GetSubsystem(Begin(c, WILLING), NewKey(op));
    assert s1 == Begin(c, WILLING) && found.Missing?;
    ScanObjectsExactly(s1, op.order, op.csub.spec.nqn);
    var (s2, objection) := ScanForNqn(s1, op.order, op.csub.spec.nqn);
    var command := CreationCommand(op.csub.spec);
    var (s3, reply) := Call(s2, command);
    assert reply.Good? && s3.env.net == [Done(0, [], [])];
    var (s4, version) := Call(s3, GetVersion);
    assert version.Good?;
  }

  lemma UnseenDuplicateGoesThrough(c: Core, op: Op, k: string)
    requires Shaped(c) && FreshIdOk(op) && !c.device.contract.refusesDuplicate
    requires c.scan == LITERAL_FILTER || c.index == map[]
    requires op.CreateSubsystemOp? && OrderOk(c, op) && Accepts(op) && NewKey(op) !in c.store
    requires StoresSubsystem(c, k) && NqnAt(c, k) == op.csub.spec.nqn
    ensures !UniqueNqns(Step(c, Serve(op, WILLING)))
  {
    forall k | k in op.order ensures !c.scan.Selects(k) {
      LiteralFilterMissesNames(k);
    }
    CreatedExactlyWhenScanAllows(c, op);
    CreateEffects(c, op, WILLING);
    CreatedIsOfItsKind(c, op, WILLING);
    CreatedSubsystemCarriesItsNqn(c, op, WILLING);
    var c' := Step(c, Serve(op, WILLING));
    assert StoresSubsystem(c', k) && StoresSubsystem(c', NewKey(op)) && NqnAt(c', k) == NqnAt(c', NewKey(op));
  }
}
