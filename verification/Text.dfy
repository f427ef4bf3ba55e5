/** Splitting and joining strings at a separator. Strings are sequences of bytes. */
module Text {

  function Split(s: string, sep: char): (parts: seq<string>)
    ensures |parts| >= 1
  {
    if s == [] then [[]]
    else
      var rest := Split(s[1..], sep);
      if s[0] == sep then [[]] + rest else [[s[0]] + rest[0]] + rest[1..]
  }

  function Join(parts: seq<string>, sep: char): string
    requires |parts| >= 1
  {
    if |parts| == 1 then parts[0] else parts[0] + [sep] + Join(parts[1..], sep)
  }

  lemma {:induction false} SplitAtSeparator(a: string, t: string, sep: char)
    requires sep !in a
    ensures Split(a, sep) == [a]
    ensures Split(a + [sep] + t, sep) == [a] + Split(t, sep)
  {
    var s := a + [sep] + t;
    if a == [] {
      assert s[1..] == t;
    } else {
      assert a[0] in a && a == [a[0]] + a[1..];
      SplitAtSeparator(a[1..], t, sep);
      assert s[1..] == a[1..] + [sep] + t;
      assert s[0] == a[0];
    }
  }

  lemma {:induction false} SplitJoin(parts: seq<string>, sep: char)
    requires |parts| >= 1 && forall p :: p in parts ==> sep !in p
    ensures Split(Join(parts, sep), sep) == parts
  {
    if |parts| == 1 {
      SplitAtSeparator(parts[0], [], sep);
    } else {
      SplitJoin(parts[1..], sep);
      SplitAtSeparator(parts[0], Join(parts[1..], sep), sep);
    }
  }

  lemma {:induction false} JoinCons(head: string, tail: seq<string>, sep: char)
    requires |tail| >= 1
    ensures Join([head] + tail, sep) == head + [sep] + Join(tail, sep)
  {
    assert ([head] + tail)[1..] == tail;
  }

  lemma {:induction false} JoinSplit(s: string, sep: char)
    ensures Join(Split(s, sep), sep) == s
    ensures forall p :: p in Split(s, sep) ==> sep !in p
  {
    if s != [] {
      JoinSplit(s[1..], sep);
      var rest := Split(s[1..], sep);
      if s[0] == sep {
        JoinCons([], rest, sep);
      } else {
        var head := [s[0]] + rest[0];
        if |rest| > 1 {
          assert rest == [rest[0]] + rest[1..];
          JoinCons(rest[0], rest[1..], sep);
          JoinCons(head, rest[1..], sep);
        } else {
          assert Split(s, sep) == [head];
        }
      }
    }
  }

  lemma {:induction false} JoinSnoc(parts: seq<string>, last: string, sep: char)
    requires |parts| >= 1
    ensures Join(parts + [last], sep) == Join(parts, sep) + [sep] + last
  {
    if |parts| == 1 {
      assert (parts + [last])[1..] == [last];
    } else {
      assert (parts + [last])[1..] == parts[1..] + [last];
      JoinSnoc(parts[1..], last, sep);
      var tail := Join(parts[1..], sep);
      assert parts[0] + [sep] + (tail + [sep] + last) == parts[0] + [sep] + tail + [sep] + last;
    }
  }

  /** A prefix of a string agrees with it on every segment but its own last, which may be cut short. */
  lemma {:induction false} PrefixKeepsSegments(a: string, s: string, sep: char)
    requires a <= s
    ensures |Split(a, sep)| <= |Split(s, sep)|
    ensures forall i :: 0 <= i < |Split(a, sep)| - 1 ==> Split(a, sep)[i] == Split(s, sep)[i]
    ensures Split(a, sep)[|Split(a, sep)| - 1] <= Split(s, sep)[|Split(a, sep)| - 1]
  {
    if a != [] {
      PrefixKeepsSegments(a[1..], s[1..], sep);
    }
  }
}
