/** Page walks: following the positions kept in Pagination from the first page meets every element of the device's list
    once, and when a continued request is served at all. */
module Pages {
  import opened Device
  import opened Bridge
  import opened Sorting
  import opened Handlers
  import opened Runs
  import opened Shape
  import opened Effects

  /** What the device lists: NQNs, or the ids of a subsystem's controllers or namespaces. */
  datatype Listing = NqnList(nqns: seq<string>) | IdList(what: Children, ids: seq<int>) {
    function Length(): nat {
      if NqnList? then |nqns| else |ids|
    }

    function Request(req: ListRequest, freshToken: string): Op {
      if NqnList? then ListSubsystemsOp(req, freshToken) else ListChildrenOp(what, req, freshToken)
    }

    function Answer(): Env {
      Env([if NqnList? then Done(0, [], nqns) else Done(0, ids, [])], [], [])
    }
  }

  /** A stretch of the list. */
  datatype Stretch = Stretch(from: nat, to: nat)

  predicate Within(w: Stretch, length: nat) {
    w.from <= w.to <= length
  }

  /** Each answered element is no greater than the next: numbers by size, texts byte by byte. */
  ghost predicate InOrder(r: Response) {
    (r.ListedIds? ==> Ascending(r.ids)) && (r.ListedNqns? ==> AscendingTexts(r.nqns))
  }

  /** The answer is the stretch, in order. */
  ghost predicate Shows(l: Listing, r: Response, w: Stretch)
    requires Within(w, l.Length())
  {
    InOrder(r) &&
    match l
    case NqnList(nqns) => r.ListedNqns? && multiset(r.nqns) == multiset(nqns[w.from..w.to])
    case IdList(_, ids) => r.ListedIds? && multiset(r.ids) == multiset(Int32s(ids[w.from..w.to]))
  }

  predicate Servable(c: Core, l: Listing, req: ListRequest) {
    req.accepted && req.pageSize >= 0 && (l.IdList? ==> StoresSubsystem(c, req.parent))
  }

  /** The position a request starts from. */
  predicate StartsAt(c: Core, req: ListRequest, offset: int) {
    if req.pageToken == [] then offset == 0 else req.pageToken in c.pagination && c.pagination[req.pageToken] == offset
  }

  function SizeOf(req: ListRequest): (size: nat)
    requires req.pageSize >= 0
    ensures 0 < size <= 250
  {
    if req.pageSize == 0 then 50 else if req.pageSize > 250 then 250 else req.pageSize
  }

  // ------------------------------------------------------------------ one page

  /** A request is served exactly when its position is within the list as it is now; a list that has shrunk below it
      is an index error in the program. */
  lemma ServedExactly(c: Core, l: Listing, req: ListRequest, token: string, offset: int)
    requires Servable(c, l, req) && StartsAt(c, req, offset)
    ensures var (s', r) := Result(c, l.Request(req, token), l.Answer());
      && (Ok(r) <==> 0 <= offset <= l.Length())
      && (!Ok(r) ==> r == Rejected(OutOfRange) && s'.core == c)
  {
  }

  lemma Positioned(c: Core, req: ListRequest, offset: nat)
    requires req.pageSize >= 0 && StartsAt(c, req, offset)
    ensures ExtractPagination(req.pageSize, req.pageToken, c.pagination) == Window(SizeOf(req), offset)
  {
  }

  lemma Limited<T>(all: seq<T>, offset: nat, size: nat, end: nat)
    requires offset <= end <= |all| && end == if offset + size < |all| then offset + size else |all|
    ensures LimitPagination(all, offset, size) == (all[offset..end], end < |all|)
    ensures end < |all| ==> end == offset + size
  {
    assert all[offset..] == all[offset..|all|];
  }

  lemma OnePageOfNqns(c: Core, l: Listing, req: ListRequest, token: string, offset: nat, end: nat)
    requires l.NqnList? && Servable(c, l, req) && StartsAt(c, req, offset) && offset <= end <= l.Length()
    requires end == if offset + SizeOf(req) < l.Length() then offset + SizeOf(req) else l.Length()
    ensures var (s', r) := Result(c, l.Request(req, token), l.Answer());
      Shows(l, r, Stretch(offset, end)) && s'.core == if end < l.Length() then c.(pagination :=
          c.pagination[token := end]) else c
  {
    hide Sort;
    Positioned(c, req, offset);
    Limited(l.nqns, offset, SizeOf(req), end);
    SortedTextsAscend(l.nqns[offset..end]);
    hide AscendingTexts;
    var (s1, reply) := Call(Begin(c, l.Answer()), SubsystemList);
    assert reply == Good(0, [], l.nqns) && s1.core == c;
  }

  lemma OnePageOfIds(c: Core, l: Listing, req: ListRequest, token: string, offset: nat, end: nat)
    requires l.IdList? && Servable(c, l, req) && StartsAt(c, req, offset) && offset <= end <= l.Length()
    requires end == if offset + SizeOf(req) < l.Length() then offset + SizeOf(req) else l.Length()
    ensures var (s', r) := Result(c, l.Request(req, token), l.Answer());
      Shows(l, r, Stretch(offset, end)) && s'.core == if end < l.Length() then c.(pagination :=
          c.pagination[token := end]) else c
  {
    hide Sort;
    Positioned(c, req, offset);
    Limited(l.ids, offset, SizeOf(req), end);
    SortedAscend(Int32s(l.ids[offset..end]));
    hide Ascending;
    AnsweredWithIds(c, l, req.parent);
  }

  lemma AnsweredWithIds(c: Core, l: Listing, parent: string)
    requires l.IdList? && StoresSubsystem(c, parent)
    ensures var s := Begin(c, l.Answer());
      && GetSubsystem(s, parent) == (s, Found(c.store[parent].subsystem))
      && Call(s, l.what.Question(NqnAt(c, parent))).1 == Good(0, l.ids, [])
      && Call(s, l.what.Question(NqnAt(c, parent))).0.core == c
  {
  }

  /** A served request shows the stretch at its position, and keeps where that ends unless it is the end of the list. */
  lemma OnePage(c: Core, l: Listing, req: ListRequest, token: string, offset: nat, end: nat)
    requires Servable(c, l, req) && StartsAt(c, req, offset) && offset <= end <= l.Length()
    requires end == if offset + SizeOf(req) < l.Length() then offset + SizeOf(req) else l.Length()
    ensures var (s', r) := Result(c, l.Request(req, token), l.Answer());
      Shows(l, r, Stretch(offset, end)) && s'.core == if end < l.Length() then c.(pagination :=
          c.pagination[token := end]) else c
  {
    if l.NqnList? { OnePageOfNqns(c, l, req, token, offset, end); }
        else { OnePageOfIds(c, l, req, token, offset, end); }
  }

  // ------------------------------------------------------------------ the walk

  datatype Walked = Walked(core: Core, answers: seq<Response>)

  /** Requests with the given fresh tokens, each continuing at the position the one before it kept, until one keeps
      none. */
  function Walk(c: Core, l: Listing, req: ListRequest, tokens: seq<string>): Walked
    decreases |tokens|
  {
    if tokens == [] then Walked(c, [])
    else
      var (s', r) := Result(c, l.Request(req, tokens[0]), l.Answer());
      if tokens[0] in s'.core.pagination then
        var rest := Walk(s'.core, l, req.(pageToken := tokens[0]), tokens[1..]);
        Walked(rest.core, [r] + rest.answers)
      else Walked(s'.core, [r])
  }

  ghost predicate Fresh(tokens: seq<string>, table: map<string, int>) {
    && (forall t :: t in tokens ==> t != [] && t !in table)
    && (forall i, j :: 0 <= i < j < |tokens| ==> tokens[i] != tokens[j])
  }

  /** The answers show the rest of the list from a position on, in consecutive stretches of one size. */
  ghost predicate ShowRest(l: Listing, answers: seq<Response>, from: nat, size: nat)
    requires from <= l.Length() && size > 0
    decreases l.Length() - from
  {
    if from + size < l.Length() then
      answers != [] && Shows(l, answers[0], Stretch(from, from + size)) && ShowRest(l, answers[1..], from + size, size)
    else |answers| == 1 && Shows(l, answers[0], Stretch(from, l.Length()))
  }

  lemma RestIsFresh(tokens: seq<string>, table: map<string, int>, offset: int)
    requires Fresh(tokens, table) && tokens != []
    ensures Fresh(tokens[1..], table[tokens[0] := offset])
  {
    forall t | t in tokens[1..] ensures t != [] && t !in table && t != tokens[0] {
      var i :| 0 <= i < |tokens| - 1 && tokens[1..][i] == t;
      assert tokens[i + 1] == t && t in tokens;
    }
  }

  lemma ShownOneMore(l: Listing, r: Response, from: nat, size: nat)
    requires from + size < l.Length() && size > 0 && Shows(l, r, Stretch(from, from + size))
    ensures forall rest :: ShowRest(l, rest, from + size, size) ==> ShowRest(l, [r] + rest, from, size)
  {
    forall rest | ShowRest(l, rest, from + size, size) ensures ShowRest(l, [r] + rest, from, size) {
      assert ([r] + rest)[1..] == rest;
    }
  }

  /** The last request of the walk. */
  lemma WalkEnds(c: Core, l: Listing, req: ListRequest, tokens: seq<string>, from: nat, size: nat)
    requires Servable(c, l, req) && StartsAt(c, req, from) && size == SizeOf(req) && from <= l.Length() <= from + size
    requires tokens != [] && Fresh(tokens, c.pagination)
    ensures ShowRest(l, Walk(c, l, req, tokens).answers, from, size) && Walk(c, l, req, tokens).core == c
  {
    assert tokens[0] in tokens;
    OnePage(c, l, req, tokens[0], from, l.Length());
  }

  /** Any other, and what is walked from there. */
  lemma WalkGoesOn(c: Core, l: Listing, req: ListRequest, tokens: seq<string>, from: nat, size: nat)
    returns (r: Response, c': Core, req': ListRequest)
    requires Servable(c, l, req) && StartsAt(c, req, from) && size == SizeOf(req) && from + size < l.Length()
    requires tokens != [] && Fresh(tokens, c.pagination)
    ensures c' == c.(pagination := c'.pagination) && Walk(c, l, req, tokens).core == Walk(c', l, req', tokens[1..]).core
    ensures Walk(c, l, req, tokens).answers == [r] + Walk(c', l, req', tokens[1..]).answers
    ensures forall rest :: ShowRest(l, rest, from + size, size) ==> ShowRest(l, [r] + rest, from, size)
    ensures Servable(c', l, req') && size == SizeOf(req')
    ensures StartsAt(c', req', from + size) && Fresh(tokens[1..], c'.pagination)
  {
    var next := from + size;
    assert tokens[0] in tokens;
    OnePage(c, l, req, tokens[0], from, next);
    c', req' := c.(pagination := c.pagination[tokens[0] := next]), req.(pageToken := tokens[0]);
    r := Result(c, l.Request(req, tokens[0]), l.Answer()).1;
    hide Handle, Shows;
    RestIsFresh(tokens, c.pagination, next);
    ShownOneMore(l, r, from, size);
  }

  lemma {:induction false} WalkFrom(c: Core, l: Listing, req: ListRequest, tokens: seq<string>, from: nat, size: nat)
    requires Servable(c, l, req) && StartsAt(c, req, from) && from <= l.Length() && size == SizeOf(req)
    requires Fresh(tokens, c.pagination) && |tokens| > l.Length() - from
    ensures var w := Walk(c, l, req, tokens);
      ShowRest(l, w.answers, from, size) && w.core == c.(pagination := w.core.pagination)
    decreases |tokens|
  {
    hide *;
    if from + size >= l.Length() {
      WalkEnds(c, l, req, tokens, from, size);
      return;
    }
    var r, c', req' := WalkGoesOn(c, l, req, tokens, from, size);
    WalkFrom(c', l, req', tokens[1..], from + size, size);
  }

  function AllIds(answers: seq<Response>): seq<int> {
    if answers == [] then [] else (if answers[0].ListedIds? then answers[0].ids else []) + AllIds(answers[1..])
  }

  function AllNqns(answers: seq<Response>): seq<string> {
    if answers == [] then [] else (if answers[0].ListedNqns? then answers[0].nqns else []) + AllNqns(answers[1..])
  }

  lemma SplitAt<T>(s: seq<T>, from: nat, mid: nat)
    requires from <= mid <= |s|
    ensures s[from..] == s[from..mid] + s[mid..]
  {
  }

  lemma Int32sSplit(ids: seq<int>, from: nat, mid: nat)
    requires from <= mid <= |ids|
    ensures Int32s(ids[from..]) == Int32s(ids[from..mid]) + Int32s(ids[mid..])
  {
    SplitAt(ids, from, mid);
  }

  lemma {:induction false} AllInOrder(l: Listing, answers: seq<Response>, from: nat, size: nat)
    requires from <= l.Length() && size > 0 && ShowRest(l, answers, from, size)
    ensures forall r :: r in answers ==> InOrder(r)
    decreases l.Length() - from
  {
    hide InOrder;
    if from + size < l.Length() {
      AllInOrder(l, answers[1..], from + size, size);
      assert answers == [answers[0]] + answers[1..];
    }
  }

  lemma FirstThenRestIds(answers: seq<Response>, first: seq<int>, rest: seq<int>)
    requires answers != [] && answers[0].ListedIds?
    requires multiset(answers[0].ids) == multiset(first) && multiset(AllIds(answers[1..])) == multiset(rest)
    ensures multiset(AllIds(answers)) == multiset(first + rest)
  {
  }

  lemma FirstThenRestNqns(answers: seq<Response>, first: seq<string>, rest: seq<string>)
    requires answers != [] && answers[0].ListedNqns?
    requires multiset(answers[0].nqns) == multiset(first) && multiset(AllNqns(answers[1..])) == multiset(rest)
    ensures multiset(AllNqns(answers)) == multiset(first + rest)
  {
  }

  lemma ShownIds(l: Listing, r: Response, w: Stretch)
    requires l.IdList? && Within(w, l.Length()) && Shows(l, r, w)
    ensures r.ListedIds? && multiset(r.ids) == multiset(Int32s(l.ids[w.from..w.to]))
  {
  }

  lemma ShownNqns(l: Listing, r: Response, w: Stretch)
    requires l.NqnList? && Within(w, l.Length()) && Shows(l, r, w)
    ensures r.ListedNqns? && multiset(r.nqns) == multiset(l.nqns[w.from..w.to])
  {
  }

  /** Answers that show consecutive stretches up to the end of the list together hold the rest of the list. */
  lemma {:induction false} AnswersHoldIds(l: Listing, answers: seq<Response>, from: nat, size: nat)
    requires l.IdList? && from <= l.Length() && size > 0 && ShowRest(l, answers, from, size)
    ensures multiset(AllIds(answers)) == multiset(Int32s(l.ids[from..]))
    decreases l.Length() - from
  {
    hide Shows;
    var mid := from + size;
    if mid >= l.Length() {
      ShownIds(l, answers[0], Stretch(from, l.Length()));
      assert answers[1..] == [];
      FirstThenRestIds(answers, Int32s(l.ids[from..|l.ids|]), []);
      assert l.ids[from..|l.ids|] == l.ids[from..] && Int32s(l.ids[from..]) + [] == Int32s(l.ids[from..]);
      return;
    }
    ShownIds(l, answers[0], Stretch(from, mid));
    AnswersHoldIds(l, answers[1..], mid, size);
    FirstThenRestIds(answers, Int32s(l.ids[from..mid]), Int32s(l.ids[mid..]));
    Int32sSplit(l.ids, from, mid);
  }

  lemma {:induction false} AnswersHoldNqns(l: Listing, answers: seq<Response>, from: nat, size: nat)
    requires l.NqnList? && from <= l.Length() && size > 0 && ShowRest(l, answers, from, size)
    ensures multiset(AllNqns(answers)) == multiset(l.nqns[from..])
    decreases l.Length() - from
  {
    hide Shows;
    var mid := from + size;
    if mid >= l.Length() {
      ShownNqns(l, answers[0], Stretch(from, l.Length()));
      assert answers[1..] == [];
      FirstThenRestNqns(answers, l.nqns[from..|l.nqns|], []);
      assert l.nqns[from..|l.nqns|] + [] == l.nqns[from..];
      return;
    }
    ShownNqns(l, answers[0], Stretch(from, mid));
    AnswersHoldNqns(l, answers[1..], mid, size);
    FirstThenRestNqns(answers, l.nqns[from..mid], l.nqns[mid..]);
    SplitAt(l.nqns, from, mid);
  }

  /** So many pages of one size hold what is left, and one page fewer does not hold more. */
  predicate Rounded(pages: nat, size: nat, left: int) {
    (pages - 1) * size <= left <= pages * size
  }

  /** As many answers as the size goes into the rest of the list, rounded up; one if nothing is left. */
  lemma {:induction false} AnswerCount(l: Listing, answers: seq<Response>, from: nat, size: nat)
    requires from <= l.Length() && size > 0 && ShowRest(l, answers, from, size)
    ensures |answers| >= 1 && Rounded(|answers|, size, l.Length() - from)
    decreases l.Length() - from
  {
    hide Rounded, Shows;
    if from + size < l.Length() {
      AnswerCount(l, answers[1..], from + size, size);
      OneMorePage(|answers| - 1, size, l.Length() - from);
    } else {
      OnePageHolds(size, l.Length() - from);
    }
  }

  lemma OnePageHolds(size: nat, left: nat)
    requires left <= size
    ensures Rounded(1, size, left)
  {
  }

  lemma OneMorePage(n: nat, size: nat, left: int)
    requires Rounded(n, size, left - size)
    ensures Rounded(n + 1, size, left)
  {
    assert (n - 1) * size == n * size - size;
    assert (n + 1) * size == n * size + size;
  }

  /** A walk over an unchanging list from the first page on, with any page size the program accepts: it ends after as
      many pages as the size goes into the list, rounded up; each page is the sorted next stretch, no longer than the
      size; together they hold every element exactly as often as the list does; and nothing but the table of
      positions has changed. */
  lemma WalkVisitsEachElementOnce(c: Core, l: Listing, req: ListRequest, tokens: seq<string>)
    requires Servable(c, l, req) && req.pageToken == [] && Fresh(tokens, c.pagination) && |tokens| > l.Length()
    ensures var w := Walk(c, l, req, tokens); var size := SizeOf(req); var n := |w.answers|;
      && n >= 1 && Rounded(n, size, l.Length())
      && ShowRest(l, w.answers, 0, size)
      && (l.IdList? ==> multiset(AllIds(w.answers)) == multiset(Int32s(l.ids)))
      && (l.NqnList? ==> multiset(AllNqns(w.answers)) == multiset(l.nqns))
      && w.core == c.(pagination := w.core.pagination)
  {
    hide Walk, ShowRest;
    WalkFrom(c, l, req, tokens, 0, SizeOf(req));
    AnswerCount(l, Walk(c, l, req, tokens).answers, 0, SizeOf(req));
    AnswersHoldAll(l, Walk(c, l, req, tokens).answers, SizeOf(req));
  }

  lemma AnswersHoldAll(l: Listing, answers: seq<Response>, size: nat)
    requires size > 0 && ShowRest(l, answers, 0, size)
    ensures l.IdList? ==> multiset(AllIds(answers)) == multiset(Int32s(l.ids))
    ensures l.NqnList? ==> multiset(AllNqns(answers)) == multiset(l.nqns)
  {
    if l.NqnList? {
      AnswersHoldNqns(l, answers, 0, size);
      assert l.nqns[0..] == l.nqns;
    } else {
      AnswersHoldIds(l, answers, 0, size);
      assert l.ids[0..] == l.ids;
    }
  }

  /** Each page of the walk is in order. */
  lemma WalkIsSorted(c: Core, l: Listing, req: ListRequest, tokens: seq<string>)
    requires Servable(c, l, req) && req.pageToken == [] && Fresh(tokens, c.pagination) && |tokens| > l.Length()
    ensures forall r :: r in Walk(c, l, req, tokens).answers ==> InOrder(r)
  {
    hide Walk, ShowRest;
    WalkFrom(c, l, req, tokens, 0, SizeOf(req));
    AllInOrder(l, Walk(c, l, req, tokens).answers, 0, SizeOf(req));
  }

  // ------------------------------------------------------------------ positions over runs

  predicate UsesToken(e: Event, token: string) {
    e.Serve? && (e.op.ListSubsystemsOp? || e.op.ListChildrenOp?) && e.op.freshToken == token
  }

  lemma PositionStep(c: Core, e: Event, token: string)
    requires Shaped(c) && e.Serve? && !UsesToken(e, token)
    ensures (token in Step(c, e).pagination <==> token in c.pagination)
      && (token in c.pagination ==> Step(c, e).pagination[token] == c.pagination[token])
  {
    if IsCreate(e.op) { CreateEffects(c, e.op, e.env); }
    else if IsDelete(e.op) { DeleteEffects(c, e.op, e.env); }
    else if e.op.UpdateControllerOp? { UpdateEffects(c, e.op, e.env); }
    else { QueryKeepsPosition(Begin(c, e.env), e.op, token); }
  }

  lemma QueryKeepsPosition(s: Session, op: Op, token: string)
    requires IsQuery(op) && !((op.ListSubsystemsOp? || op.ListChildrenOp?) && op.freshToken == token)
    ensures var table := Handle(s, op).0.core.pagination;
      (token in table <==> token in s.core.pagination) && (token in s.core.pagination ==>
          table[token] == s.core.pagination[token])
  {
    match op
    case GetSubsystemOp(req) => GetSubsystemChangesNothing(s, req);
    case GetControllerOp(req) => GetControllerChangesNothing(s, req);
    case GetNamespaceOp(req) => GetNamespaceChangesNothing(s, req);
    case ListSubsystemsOp(_, _) =>
    case ListChildrenOp(_, _, _) =>
  }

  /** A kept position is neither lost nor changed by any run of requests that draw other tokens, so a walk may be
      interrupted by anything but a restart. */
  lemma {:induction false} PositionSurvives(c: Core, events: seq<Event>, token: string)
    requires Shaped(c) && token in c.pagination && NoRestart(events)
    requires forall e :: e in events ==> Plausible(e) && !UsesToken(e, token)
    ensures token in Run(c, events).pagination && Run(c, events).pagination[token] == c.pagination[token]
    decreases |events|
  {
    if events != [] {
      var e := events[0];
      assert e in events;
      PositionStep(c, e, token);
      ShapeStep(c, e);
      PositionSurvives(Step(c, e), events[1..], token);
    }
  }

  /** After a restart every continued request is turned away, until its token is drawn again. */
  lemma RestartForgetsPositions(c: Core, events: seq<Event>, l: Listing, req: ListRequest, token: string)
    requires Shaped(c) && (forall e :: e in events ==> Plausible(e) && !UsesToken(e, req.pageToken))
    requires req.accepted && req.pageSize >= 0 && req.pageToken != []
    ensures var c' := Run(Restarted(c), events);
      Result(c', l.Request(req, token), l.Answer()) == (Begin(c', l.Answer()), Rejected(UnknownToken))
  {
    StaysUnknown(Restarted(c), events, req.pageToken);
  }

  lemma {:induction false} StaysUnknown(c: Core, events: seq<Event>, token: string)
    requires Shaped(c) && token !in c.pagination && forall e :: e in events ==> Plausible(e) && !UsesToken(e, token)
    ensures token !in Run(c, events).pagination
    decreases |events|
  {
    if events != [] {
      var e := events[0];
      assert e in events;
      if e.Serve? { PositionStep(c, e, token); }
      ShapeStep(c, e);
      StaysUnknown(Step(c, e), events[1..], token);
    }
  }
}
