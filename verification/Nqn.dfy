/** The NQN check of subsystem creation: length limits and the pattern
    `nqn.` YYYY `-` MM, one or more `.`-led groups of letters and digits, then one or more `:`-led groups of
    letters, digits, `-` and `.`. The matcher reads the string once; the grammar is stated apart from it. */
module Nqn {
  import opened Text

  predicate Digit(c: char) {
    '0' <= c <= '9'
  }

  predicate LetterOrDigit(c: char) {
    Digit(c) || 'a' <= c <= 'z' || 'A' <= c <= 'Z'
  }

  predicate SuffixChar(c: char) {
    LetterOrDigit(c) || c == '-' || c == '.'
  }

  // ------------------------------------------------------------------ the one-pass matcher

  /** Where the matcher stands: inside the eleven header characters, after a '.', inside a domain group,
      after a ':', inside a suffix group, or failed. */
  datatype Phase = Header(at: nat) | DomainStart | InDomain | SuffixStart | InSuffix | Failed

  const HEADER_LENGTH: nat := 11

  predicate HeaderChar(at: nat, c: char) {
    if at == 0 || at == 2 then c == 'n'
    else if at == 1 then c == 'q'
    else if at == 3 then c == '.'
    else if at == 8 then c == '-'
    else Digit(c)
  }

  function Advance(p: Phase, c: char): Phase {
    match p
    case Header(at) =>
      if at >= HEADER_LENGTH then (if c == '.' then DomainStart else Failed)
      else if HeaderChar(at, c) then Header(at + 1)
      else Failed
    case DomainStart => if LetterOrDigit(c) then InDomain else Failed
    case InDomain => if LetterOrDigit(c) then InDomain else if c == '.' then DomainStart
        else if c == ':' then SuffixStart else Failed
    case SuffixStart => if SuffixChar(c) then InSuffix else Failed
    case InSuffix => if SuffixChar(c) then InSuffix else if c == ':' then SuffixStart else Failed
    case Failed => Failed
  }

  function Scan(p: Phase, s: string): Phase
    decreases |s|
  {
    if s == [] then p else Scan(Advance(p, s[0]), s[1..])
  }

  predicate Matches(s: string) {
    Scan(Header(0), s) == InSuffix
  }

  // ------------------------------------------------------------------ the grammar

  datatype Parts = Parts(year: string, month: string, domain: seq<string>, suffix: seq<string>)

  ghost predicate AllDigits(s: string) {
    forall c :: c in s ==> '0' <= c <= '9'
  }

  ghost predicate DomainGroup(s: string) {
    s != [] && forall c :: c in s ==> '0' <= c <= '9' || 'a' <= c <= 'z' || 'A' <= c <= 'Z'
  }

  ghost predicate SuffixGroup(s: string) {
    s != [] && forall c :: c in s ==> '0' <= c <= '9' || 'a' <= c <= 'z' || 'A' <= c <= 'Z' || c == '-' || c == '.'
  }

  ghost predicate WellFormed(p: Parts) {
    && |p.year| == 4 && AllDigits(p.year)
    && |p.month| == 2 && AllDigits(p.month)
    && |p.domain| >= 1 && (forall g :: g in p.domain ==> DomainGroup(g))
    && |p.suffix| >= 1 && (forall g :: g in p.suffix ==> SuffixGroup(g))
  }

  /** Each group preceded by its mark. */
  function Marked(mark: char, groups: seq<string>): string {
    Join([[]] + groups, mark)
  }

  function Render(p: Parts): string {
    "nqn." + p.year + "-" + p.month + (Marked('.', p.domain) + Marked(':', p.suffix))
  }

  /** The decomposition of a string read off its marks. */
  function Decompose(s: string): Parts
    requires |s| >= HEADER_LENGTH
  {
    var pieces := Split(s[HEADER_LENGTH..], ':');
    Parts(s[4..8], s[9..11], Split(pieces[0], '.')[1..], pieces[1..])
  }

  // ------------------------------------------------------------------ decomposing undoes rendering

  lemma {:induction false} MarkedCons(mark: char, g: string, rest: seq<string>)
    ensures Marked(mark, [g] + rest) == [mark] + g + Marked(mark, rest)
  {
    JoinCons([], [g] + rest, mark);
    assert [[]] + ([g] + rest) == [[]] + [g] + rest;
    if rest == [] {
      assert [g] + rest == [g];
    } else {
      JoinCons(g, rest, mark);
      JoinCons([], rest, mark);
    }
  }

  lemma {:induction false} SplitAfterGroup(a: string, groups: seq<string>, mark: char)
    requires mark !in a && forall g :: g in groups ==> mark !in g
    ensures Split(a + Marked(mark, groups), mark) == [a] + groups
  {
    if groups == [] {
      assert a + Marked(mark, groups) == a;
      SplitAtSeparator(a, [], mark);
    } else {
      JoinCons([], groups, mark);
      assert a + Marked(mark, groups) == a + [mark] + Join(groups, mark);
      SplitAtSeparator(a, Join(groups, mark), mark);
      SplitJoin(groups, mark);
    }
  }

  lemma {:induction false} MarkedAvoids(mark: char, groups: seq<string>, c: char)
    requires c != mark && forall g :: g in groups ==> c !in g
    ensures c !in Marked(mark, groups)
  {
    if groups != [] {
      assert groups == [groups[0]] + groups[1..];
      MarkedCons(mark, groups[0], groups[1..]);
      MarkedAvoids(mark, groups[1..], c);
    }
  }

  /** A well-formed decomposition is the only one its string has. */
  lemma DecomposeRender(p: Parts)
    requires WellFormed(p)
    ensures |Render(p)| >= HEADER_LENGTH
    ensures Decompose(Render(p)) == p
  {
    var tail := Marked('.', p.domain) + Marked(':', p.suffix);
    var s := Render(p);
    assert s[HEADER_LENGTH..] == tail;
    assert s[4..8] == p.year && s[9..11] == p.month;
    MarkedAvoids('.', p.domain, ':');
    SplitAfterGroup(Marked('.', p.domain), p.suffix, ':');
    SplitAfterGroup([], p.domain, '.');
    assert [] + Marked('.', p.domain) == Marked('.', p.domain);
  }

  // ------------------------------------------------------------------ the matcher accepts the grammar

  lemma {:induction false} ScanAppend(p: Phase, a: string, b: string)
    ensures Scan(p, a + b) == Scan(Scan(p, a), b)
    decreases |a|
  {
    if a == [] {
      assert a + b == b;
    } else {
      assert (a + b)[1..] == a[1..] + b;
      ScanAppend(Advance(p, a[0]), a[1..], b);
    }
  }

  lemma {:induction false} ScanStays(p: Phase, s: string)
    requires p == InDomain ==> forall c :: c in s ==> LetterOrDigit(c)
    requires p == InSuffix ==> forall c :: c in s ==> SuffixChar(c)
    requires p == InDomain || p == InSuffix
    ensures Scan(p, s) == p
    decreases |s|
  {
    if s != [] {
      assert s[0] in s;
      ScanStays(p, s[1..]);
    }
  }

  lemma ScanTwo(p: Phase, c: char, d: char)
    ensures Scan(p, [c, d]) == Advance(Advance(p, c), d)
  {
    assert [c, d][1..] == [d] && [d][1..] == [];
    assert Scan(Advance(p, c), [d]) == Scan(Advance(Advance(p, c), d), []);
  }

  lemma {:induction false} ScanDomain(p: Phase, groups: seq<string>)
    requires p == InDomain || (p == Header(HEADER_LENGTH) && groups != [])
    requires forall g :: g in groups ==> DomainGroup(g)
    ensures Scan(p, Marked('.', groups)) == InDomain
    decreases |groups|
  {
    if groups != [] {
      var g, rest := groups[0], groups[1..];
      assert groups == [g] + rest && g in groups && g[0] in g;
      MarkedCons('.', g, rest);
      var m := Marked('.', groups);
      assert m == ['.', g[0]] + (g[1..] + Marked('.', rest));
      ScanAppend(p, ['.', g[0]], g[1..] + Marked('.', rest));
      assert Scan(p, ['.', g[0]]) == InDomain by { ScanTwo(p, '.', g[0]); }
      ScanAppend(InDomain, g[1..], Marked('.', rest));
      forall c | c in g[1..] ensures LetterOrDigit(c) { assert c in g; }
      ScanStays(InDomain, g[1..]);
      ScanDomain(InDomain, rest);
    }
  }

  lemma {:induction false} ScanSuffix(p: Phase, groups: seq<string>)
    requires p == InSuffix || (p == InDomain && groups != [])
    requires forall g :: g in groups ==> SuffixGroup(g)
    ensures Scan(p, Marked(':', groups)) == InSuffix
    decreases |groups|
  {
    if groups != [] {
      var g, rest := groups[0], groups[1..];
      assert groups == [g] + rest && g in groups && g[0] in g;
      MarkedCons(':', g, rest);
      var m := Marked(':', groups);
      assert m == [':', g[0]] + (g[1..] + Marked(':', rest));
      ScanAppend(p, [':', g[0]], g[1..] + Marked(':', rest));
      assert Scan(p, [':', g[0]]) == InSuffix by { ScanTwo(p, ':', g[0]); }
      ScanAppend(InSuffix, g[1..], Marked(':', rest));
      forall c | c in g[1..] ensures SuffixChar(c) { assert c in g; }
      ScanStays(InSuffix, g[1..]);
      ScanSuffix(InSuffix, rest);
    }
  }

  lemma {:induction false} ScanHeader(at: nat, s: string)
    requires at + |s| == HEADER_LENGTH
    requires forall i :: 0 <= i < |s| ==> HeaderChar(at + i, s[i])
    ensures Scan(Header(at), s) == Header(HEADER_LENGTH)
    decreases |s|
  {
    if s != [] {
      forall i | 0 <= i < |s[1..]| ensures HeaderChar(at + 1 + i, s[1..][i]) {
        assert HeaderChar(at + (i + 1), s[i + 1]);
      }
      assert HeaderChar(at + 0, s[0]);
      ScanHeader(at + 1, s[1..]);
    }
  }

  lemma MatcherAcceptsGrammar(p: Parts)
    requires WellFormed(p)
    ensures Matches(Render(p))
  {
    var head := "nqn." + p.year + "-" + p.month;
    forall i | 0 <= i < |head| ensures HeaderChar(0 + i, head[i]) {
      if 4 <= i < 8 { assert head[i] == p.year[i - 4] && p.year[i - 4] in p.year; }
      if 9 <= i { assert head[i] == p.month[i - 9] && p.month[i - 9] in p.month; }
    }
    ScanHeader(0, head);
    ScanAppend(Header(0), head, Marked('.', p.domain) + Marked(':', p.suffix));
    ScanAppend(Header(HEADER_LENGTH), Marked('.', p.domain), Marked(':', p.suffix));
    ScanDomain(Header(HEADER_LENGTH), p.domain);
    ScanSuffix(InDomain, p.suffix);
  }

  // ------------------------------------------------------------------ the matcher accepts nothing else

  lemma {:induction false} FailedForever(s: string)
    ensures Scan(Failed, s) == Failed
  {
    if s != [] { FailedForever(s[1..]); }
  }

  lemma HeaderStep(at: nat, s: string)
    requires at < HEADER_LENGTH && Scan(Header(at), s) == InSuffix
    ensures s != [] && HeaderChar(at, s[0]) && Scan(Header(at + 1), s[1..]) == InSuffix
  {
    assert s != [];
    FailedForever(s[1..]);
  }

  lemma {:induction false} HeaderOnlyByMatch(at: nat, s: string)
    requires at <= HEADER_LENGTH && Scan(Header(at), s) == InSuffix
    ensures at + |s| >= HEADER_LENGTH
    ensures forall i :: 0 <= i < HEADER_LENGTH - at ==> HeaderChar(at + i, s[i])
    ensures Scan(Header(HEADER_LENGTH), s[HEADER_LENGTH - at..]) == InSuffix
    decreases |s|
  {
    hide Scan, HeaderChar;
    if at == HEADER_LENGTH {
      assert s[0..] == s;
      return;
    }
    HeaderStep(at, s);
    HeaderOnlyByMatch(at + 1, s[1..]);
    forall i | 0 <= i < HEADER_LENGTH - at ensures HeaderChar(at + i, s[i]) {
      if i > 0 { assert HeaderChar(at + 1 + (i - 1), s[1..][i - 1]); }
    }
    assert s[1..][HEADER_LENGTH - (at + 1)..] == s[HEADER_LENGTH - at..];
  }

  /** What a scan that ends in a suffix group saw after a ':' (`open`) or inside a suffix group. */
  lemma {:induction false} SuffixOnlyByMatch(open: bool, s: string)
    requires Scan(if open then SuffixStart else InSuffix, s) == InSuffix
    ensures forall c :: c in Split(s, ':')[0] ==> SuffixChar(c)
    ensures open ==> Split(s, ':')[0] != []
    ensures forall g :: g in Split(s, ':')[1..] ==> SuffixGroup(g)
    decreases |s|
  {
    if s != [] {
      FailedForever(s[1..]);
      var next := Advance(if open then SuffixStart else InSuffix, s[0]);
      SuffixOnlyByMatch(next == SuffixStart, s[1..]);
      var rest := Split(s[1..], ':');
      if s[0] == ':' {
        assert Split(s, ':')[1..] == rest;
        assert rest == [rest[0]] + rest[1..];
      } else {
        assert Split(s, ':')[1..] == rest[1..];
      }
    }
  }

  ghost predicate DomainShape(open: bool, pieces: seq<string>)
    requires |pieces| >= 1
  {
    var groups := Split(pieces[0], '.');
    && |pieces| >= 2
    && (forall c :: c in groups[0] ==> LetterOrDigit(c))
    && (open ==> groups[0] != [])
    && (forall g :: g in groups[1..] ==> DomainGroup(g))
    && (forall g :: g in pieces[1..] ==> SuffixGroup(g))
  }

  lemma {:induction false} DomainOnlyByMatch(open: bool, s: string)
    requires Scan(if open then DomainStart else InDomain, s) == InSuffix
    ensures DomainShape(open, Split(s, ':'))
    decreases |s|
  {
    var phase := if open then DomainStart else InDomain;
    assert s != [];
    FailedForever(s[1..]);
    var next, rest, pieces := Advance(phase, s[0]), Split(s[1..], ':'), Split(s, ':');
    if s[0] == ':' {
      SuffixOnlyByMatch(true, s[1..]);
      assert pieces[1..] == rest && rest == [rest[0]] + rest[1..];
      assert Split(pieces[0], '.') == [[]];
    } else {
      DomainOnlyByMatch(next == DomainStart, s[1..]);
      assert pieces[1..] == rest[1..];
      assert pieces[0][1..] == rest[0];
      var groups, more := Split(pieces[0], '.'), Split(rest[0], '.');
      if s[0] == '.' {
        assert groups[1..] == more && more == [more[0]] + more[1..];
      } else {
        assert groups[1..] == more[1..];
      }
    }
  }

  lemma DomainFromHeader(s: string)
    requires Scan(Header(HEADER_LENGTH), s) == InSuffix
    ensures s != [] && s[0] == '.' && DomainShape(true, Split(s[1..], ':'))
  {
    assert s != [];
    FailedForever(s[1..]);
    DomainOnlyByMatch(true, s[1..]);
  }

  lemma GrammarOnlyByMatch(s: string)
    requires Matches(s)
    ensures |s| >= HEADER_LENGTH && WellFormed(Decompose(s)) && Render(Decompose(s)) == s
  {
    HeaderOnlyByMatch(0, s);
    assert forall i :: 0 <= i < HEADER_LENGTH ==> HeaderChar(0 + i, s[i]);
    var tail := s[HEADER_LENGTH..];
    DomainFromHeader(tail);
    var pieces, rest := Split(tail, ':'), Split(tail[1..], ':');
    assert pieces[1..] == rest[1..] && pieces[0] == ['.'] + rest[0];
    var groups, more := Split(pieces[0], '.'), Split(rest[0], '.');
    assert pieces[0][1..] == rest[0] && groups == [[]] + more && groups[1..] == more;
    var p := Decompose(s);
    assert forall g :: g in p.domain ==> DomainGroup(g) by { assert more == [more[0]] + more[1..]; }
    assert AllDigits(p.year) by { assert forall i :: 4 <= i < 8 ==> HeaderChar(0 + i, s[i]); }
    assert AllDigits(p.month) by { assert forall i :: 9 <= i < 11 ==> HeaderChar(0 + i, s[i]); }
    RenderPieces(tail);
    HeaderText(s);
  }

  lemma RenderPieces(tail: string)
    requires tail != [] && tail[0] == '.'
    ensures
      var pieces := Split(tail, ':');
      Marked('.', Split(pieces[0], '.')[1..]) + Marked(':', pieces[1..]) == tail
  {
    var pieces := Split(tail, ':');
    var groups := Split(pieces[0], '.');
    JoinSplit(tail, ':');
    JoinSplit(pieces[0], '.');
    assert groups[0] == [];
    assert [[]] + groups[1..] == groups;
    if |pieces| == 1 {
      assert pieces[1..] == [];
    } else {
      assert pieces == [pieces[0]] + pieces[1..];
      JoinCons(pieces[0], pieces[1..], ':');
      JoinCons([], pieces[1..], ':');
    }
  }

  lemma HeaderText(s: string)
    requires |s| >= HEADER_LENGTH && forall i :: 0 <= i < HEADER_LENGTH ==> HeaderChar(i, s[i])
    ensures s == "nqn." + s[4..8] + "-" + s[9..11] + s[HEADER_LENGTH..]
  {
    assert HeaderChar(0, s[0]) && HeaderChar(1, s[1]) && HeaderChar(2, s[2]) && HeaderChar(3, s[3])
        && HeaderChar(8, s[8]);
  }

  /** The matcher accepts a string exactly when it has a decomposition in the grammar, and then only one. */
  lemma MatcherIsTheGrammar(s: string)
    ensures Matches(s) <==> exists p :: WellFormed(p) && Render(p) == s
    ensures forall p, q :: WellFormed(p) && WellFormed(q) && Render(p) == s && Render(q) == s ==> p == q
  {
    if Matches(s) {
      GrammarOnlyByMatch(s);
      assert WellFormed(Decompose(s)) && Render(Decompose(s)) == s;
    }
    forall p | WellFormed(p) && Render(p) == s ensures Matches(s) && |s| >= HEADER_LENGTH && p == Decompose(s) {
      MatcherAcceptsGrammar(p);
      DecomposeRender(p);
    }
  }

  // ------------------------------------------------------------------ request validation

  const MAX_NQN := 223
  const MAX_SERIAL := 20
  const MAX_MODEL := 40

  /** The checks of a create request that this program makes itself, in their order. */
  datatype Verdict = Accepted | NqnTooLong | SerialTooLong | ModelTooLong | PatternMismatch

  function Check(nqn: string, serial: string, model: string): Verdict {
    if |nqn| > MAX_NQN then NqnTooLong
    else if |serial| > MAX_SERIAL then SerialTooLong
    else if |model| > MAX_MODEL then ModelTooLong
    else if !Matches(nqn) then PatternMismatch
    else Accepted
  }

  /** A request passes exactly when its three texts fit their limits and its NQN is in the grammar. */
  lemma CheckIsExact(nqn: string, serial: string, model: string)
    ensures Check(nqn, serial, model) == Accepted <==>
              |nqn| <= 223 && |serial| <= 20 && |model| <= 40 && exists p :: WellFormed(p) && Render(p) == nqn
  {
    MatcherIsTheGrammar(nqn);
  }

  ghost predicate HexGroup(s: string, length: nat) {
    |s| == length && forall c :: c in s ==> Digit(c) || 'a' <= c <= 'f' || 'A' <= c <= 'F'
  }

  /** Every UUID-based NQN (section 7.9 of NVM Express Base Specification 1.4) passes. */
  lemma UuidNqnAccepted(a: string, b: string, c: string, d: string, e: string)
    requires HexGroup(a, 8) && HexGroup(b, 4) && HexGroup(c, 4) && HexGroup(d, 4) && HexGroup(e, 12)
    ensures Check("nqn.2014-08.org.nvmexpress:uuid:" + (a + "-" + b + "-" + c + "-" + d + "-" + e), [], []) == Accepted
  {
    var uuid := a + "-" + b + "-" + c + "-" + d + "-" + e;
    var p := Parts("2014", "08", ["org", "nvmexpress"], ["uuid", uuid]);
    assert SuffixGroup(uuid);
    MatcherAcceptsGrammar(p);
    UuidText(uuid);
  }

  lemma MarkedPair(mark: char, a: string, b: string)
    ensures Marked(mark, [a, b]) == [mark] + a + ([mark] + b)
  {
    MarkedCons(mark, a, [b]);
    MarkedCons(mark, b, []);
    assert [a] + [b] == [a, b] && [b] + [] == [b];
    assert Marked(mark, []) == [];
    assert [mark] + b + [] == [mark] + b;
  }

  lemma RenderPairs(year: string, month: string, a: string, b: string, c: string, d: string)
    ensures Render(Parts(year, month, [a, b], [c, d])) ==
              "nqn." + year + "-" + month + (['.'] + a + (['.'] + b) + ([':'] + c + ([':'] + d)))
  {
    MarkedPair('.', a, b);
    MarkedPair(':', c, d);
  }

  lemma Regroup(a: string, b: string, c: string, d: string, e: string)
    ensures a + (b + (c + (d + e))) == a + b + c + d + e
  {
  }

  lemma UuidHeadText()
    ensures "nqn." + "2014" + "-" + "08" == "nqn.2014-08"
    ensures ['.'] + "org" + (['.'] + "nvmexpress") == ".org.nvmexpress"
    ensures "nqn.2014-08" + ".org.nvmexpress" + ([':'] + "uuid") + [':'] == "nqn.2014-08.org.nvmexpress:uuid:"
  {
  }

  lemma UuidText(uuid: string)
    ensures Render(Parts("2014", "08", ["org", "nvmexpress"], ["uuid", uuid])) ==
        "nqn.2014-08.org.nvmexpress:uuid:" + uuid
  {
    RenderPairs("2014", "08", "org", "nvmexpress", "uuid", uuid);
    UuidHeadText();
    Regroup("nqn.2014-08", ".org.nvmexpress", [':'] + "uuid", [':'], uuid);
  }

  /** An NQN without a ':' never passes, so the well-known discovery NQN of the specification is refused. */
  lemma NoSuffixRefused(s: string)
    requires ':' !in s
    ensures !Matches(s)
  {
    if Matches(s) {
      GrammarOnlyByMatch(s);
      SplitAtSeparator(s[HEADER_LENGTH..], [], ':');
    }
  }
}
