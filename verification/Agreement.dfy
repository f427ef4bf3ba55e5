/** Index and store over whole runs: which keys are in one and not in the other, what that blocks, and why repeating a
    create is harmless. */
module Agreement {
  import opened Bridge
  import opened Runs
  import opened Shape
  import opened Effects

  // ------------------------------------------------------------------ index and store over runs

  /** The keys whose store write failed at creation and that were not created since; a restart forgets them. */
  function MarksAfterStep(marks: set<string>, c: Core, e: Event): set<string> {
    match e
    case Restart => {}
    case Serve(op, env) =>
      if !IsCreate(op) then marks
      else
        var r := Result(c, op, env).1;
        if r == Rejected(WriteFailed) then marks + {NewKey(op)} else if Ok(r) then marks - {NewKey(op)} else marks
  }

  function MarksAfter(marks: set<string>, c: Core, events: seq<Event>): set<string>
    decreases |events|
  {
    if events == [] then marks else MarksAfter(MarksAfterStep(marks, c, events[0]), Step(c, events[0]), events[1..])
  }

  lemma MarksStep(marks: set<string>, c: Core, e: Event)
    requires Shaped(c) && c.index.Keys - c.store.Keys == marks
    ensures Step(c, e).index.Keys - Step(c, e).store.Keys == MarksAfterStep(marks, c, e)
  {
    hide Handle;
    if e.Serve? {
      if IsCreate(e.op) { CreateEffects(c, e.op, e.env); }
      else if IsDelete(e.op) { DeleteEffects(c, e.op, e.env); }
      else if e.op.UpdateControllerOp? { UpdateEffects(c, e.op, e.env); }
      else { QueryEffects(c, e.op, e.env); }
    }
  }

  /** In every run, whatever fails, the keys in the index and not in the store are exactly those whose store write
      failed at creation and that were not created successfully since. */
  lemma {:induction false} IndexExcessIsFailedWrites(marks: set<string>, c: Core, events: seq<Event>)
    requires Shaped(c) && c.index.Keys - c.store.Keys == marks
    requires forall e :: e in events ==> Plausible(e)
    ensures var c' := Run(c, events); c'.index.Keys - c'.store.Keys == MarksAfter(marks, c, events)
    decreases |events|
  {
    if events != [] {
      var e := events[0];
      assert e in events;
      MarksStep(marks, c, e);
      ShapeStep(c, e);
      IndexExcessIsFailedWrites(MarksAfterStep(marks, c, e), Step(c, e), events[1..]);
    }
  }

  lemma IndexWithinStoreStep(c: Core, e: Event)
    requires Shaped(c) && c.index.Keys <= c.store.Keys
    requires e.Serve? && IsCreate(e.op) ==> WritesSucceed(e.env)
    ensures Step(c, e).index.Keys <= Step(c, e).store.Keys
  {
    hide Handle;
    if e.Serve? {
      if IsCreate(e.op) { CreateEffects(c, e.op, e.env); }
      else if IsDelete(e.op) { DeleteEffects(c, e.op, e.env); }
      else if e.op.UpdateControllerOp? { UpdateEffects(c, e.op, e.env); }
      else { QueryEffects(c, e.op, e.env); }
    }
  }

  /** Without failing writes at creation the index never names a missing object, restarts included. */
  lemma {:induction false} IndexWithinStore(c: Core, events: seq<Event>)
    requires Shaped(c) && c.index.Keys <= c.store.Keys
    requires forall e :: e in events ==> Plausible(e) && (e.Serve? && IsCreate(e.op) ==> WritesSucceed(e.env))
    ensures Run(c, events).index.Keys <= Run(c, events).store.Keys
    decreases |events|
  {
    if events != [] {
      var e := events[0];
      assert e in events;
      IndexWithinStoreStep(c, e);
      ShapeStep(c, e);
      IndexWithinStore(Step(c, e), events[1..]);
    }
  }

  lemma IndexEqualsStoreStep(c: Core, op: Op, env: Env)
    requires Shaped(c) && c.index.Keys == c.store.Keys && WritesSucceed(env)
    ensures var c' := Step(c, Serve(op, env)); c'.index.Keys == c'.store.Keys
  {
    hide Handle;
    if IsCreate(op) { CreateEffects(c, op, env); }
    else if IsDelete(op) { DeleteEffects(c, op, env); }
    else if op.UpdateControllerOp? { UpdateEffects(c, op, env); }
    else { QueryEffects(c, op, env); }
  }

  /** Without restarts and failing writes, index and store always have the same keys. */
  lemma {:induction false} IndexEqualsStore(c: Core, events: seq<Event>)
    requires Shaped(c) && c.index.Keys == c.store.Keys && NoRestart(events)
    requires forall e :: e in events ==> Plausible(e) && WritesSucceed(e.env)
    ensures Run(c, events).index.Keys == Run(c, events).store.Keys
    decreases |events|
  {
    if events != [] {
      var e := events[0];
      assert e in events;
      IndexEqualsStoreStep(c, e.op, e.env);
      ShapeStep(c, e);
      IndexEqualsStore(Step(c, e), events[1..]);
    }
  }

  // ------------------------------------------------------------------ repeating a create

  /** The event is no delete or update of the resource, or one that does not succeed. */
  predicate Spares(c: Core, e: Event, key: string) {
    e.Serve? && ((IsDelete(e.op) && e.op.del.name == key) || (e.op.UpdateControllerOp? && e.op.upd.name == key)) ==>
      !Ok(Result(c, e.op, e.env).1)
  }

  ghost predicate AllSpare(c: Core, events: seq<Event>, key: string)
    decreases |events|
  {
    events == [] || (Spares(c, events[0], key) && AllSpare(Step(c, events[0]), events[1..], key))
  }

  lemma StoredStaysStep(c: Core, e: Event, key: string)
    requires Shaped(c) && key in c.store && Spares(c, e, key)
    ensures key in Step(c, e).store && Step(c, e).store[key] == c.store[key]
  {
    hide Handle;
    if e.Serve? {
      if IsCreate(e.op) { CreateEffects(c, e.op, e.env); }
      else if IsDelete(e.op) { DeleteEffects(c, e.op, e.env); }
      else if e.op.UpdateControllerOp? { UpdateEffects(c, e.op, e.env); }
      else { QueryEffects(c, e.op, e.env); }
    }
  }

  lemma {:induction false} StoredStays(c: Core, events: seq<Event>, key: string)
    requires Shaped(c) && key in c.store && AllSpare(c, events, key)
    requires forall e :: e in events ==> Plausible(e)
    ensures key in Run(c, events).store && Run(c, events).store[key] == c.store[key]
    decreases |events|
  {
    if events != [] {
      var e := events[0];
      assert e in events;
      StoredStaysStep(c, e, key);
      ShapeStep(c, e);
      StoredStays(Step(c, e), events[1..], key);
    }
  }

  lemma FoundIsReturned(c: Core, op: Op, env: Env)
    requires IsCreate(op) && Accepts(op) && NewKey(op) in c.store && SameKind(c.store[NewKey(op)], op)
    requires env.loads == [] || env.loads[0]
    ensures var (s', r) := Result(c, op, env); s'.core == c && s'.log == [] && r == Returned(c.store[NewKey(op)])
  {
  }

  /** Once a create has succeeded, any accepted create of the same name, after any run in which no delete or update
      of it succeeds, answers the original object, sends no command and changes nothing, as long as its store read
      succeeds. */
  lemma RepeatedCreateIsIdempotent(c: Core, op: Op, env: Env, events: seq<Event>, again: Op, env': Env)
    requires Shaped(c) && IsCreate(op) && FreshIdOk(op) && Ok(Result(c, op, env).1)
    requires AllSpare(Step(c, Serve(op, env)), events, NewKey(op)) && forall e :: e in events ==> Plausible(e)
    requires IsCreate(again) && Accepts(again) && NewKey(again) == NewKey(op)
    requires (op.CreateSubsystemOp? <==> again.CreateSubsystemOp?)
    requires (op.CreateControllerOp? <==> again.CreateControllerOp?)
    requires env'.loads == [] || env'.loads[0]
    ensures var before := Run(Step(c, Serve(op, env)), events);
      var (s', r) := Result(before, again, env');
      r == Result(c, op, env).1 && s'.log == [] && s'.core == before
  {
    var c1 := Step(c, Serve(op, env));
    CreateEffects(c, op, env);
    CreatedIsOfItsKind(c, op, env);
    ShapeStep(c, Serve(op, env));
    StoredStays(c1, events, NewKey(op));
    FoundIsReturned(Run(c1, events), again, env');
  }
}
