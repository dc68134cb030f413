/** Small helpers shared by the model: an Option type and Python's `str.join`
    and `str.split` on one-character separators. */
module Basics {

  datatype Option<+T> = None | Some(value: T)

  /** Python's `sep.join(parts)`: the parts in order, with `sep` between
      neighbours and nowhere else. */
  function Join(sep: string, parts: seq<string>): (s: string)
    ensures |parts| == 0 ==> s == ""
  {
    if |parts| == 0 then ""
    else if |parts| == 1 then parts[0]
    else parts[0] + sep + Join(sep, parts[1..])
  }

  /** Python's `s.split(sep)` for a one-character separator: the maximal
      separator-free pieces of `s`; joining them back gives `s`. */
  function Split(sep: char, s: string): (parts: seq<string>)
    ensures |parts| > 0
    ensures forall p :: p in parts ==> sep !in p
    ensures Join([sep], parts) == s
  {
    if s == [] then [""]
    else
      var rest := Split(sep, s[1..]);
      if s[0] == sep then
        JoinCons(sep, "", rest);
        [""] + rest
      else
        JoinExtendHead(sep, s[0], rest);
        [[s[0]] + rest[0]] + rest[1..]
  }

  lemma {:induction false} JoinCons(sep: char, head: string, rest: seq<string>)
    requires |rest| > 0
    ensures Join([sep], [head] + rest) == head + [sep] + Join([sep], rest)
  {
    assert ([head] + rest)[1..] == rest;
  }

  lemma {:induction false} JoinExtendHead(sep: char, c: char, parts: seq<string>)
    requires |parts| > 0
    ensures Join([sep], [[c] + parts[0]] + parts[1..]) == [c] + Join([sep], parts)
  {
    var parts' := [[c] + parts[0]] + parts[1..];
    if |parts| > 1 {
      assert parts'[1..] == parts[1..];
      assert Join([sep], parts') == ([c] + parts[0]) + [sep] + Join([sep], parts[1..]);
      assert Join([sep], parts) == parts[0] + [sep] + Join([sep], parts[1..]);
    }
  }

  /** A separator-free string is a single piece. */
  lemma {:induction false} SplitWithoutSep(sep: char, a: string)
    requires sep !in a
    ensures Split(sep, a) == [a]
  {
    if a != [] {
      SplitWithoutSep(sep, a[1..]);
    }
  }

  /** A separator-free prefix followed by the separator is split off as the first piece. */
  lemma {:induction false} SplitAtSep(sep: char, a: string, b: string)
    requires sep !in a
    ensures Split(sep, a + [sep] + b) == [a] + Split(sep, b)
  {
    if a == [] {
      assert a + [sep] + b == [sep] + b;
      assert ([sep] + b)[1..] == b;
    } else {
      SplitAtSep(sep, a[1..], b);
      var s := a + [sep] + b;
      assert s[0] == a[0] && s[1..] == a[1..] + [sep] + b;
      var rest := Split(sep, s[1..]);
      assert rest[0] == a[1..] && rest[1..] == Split(sep, b);
      assert [a[0]] + a[1..] == a;
    }
  }

  /** Splitting a join recovers the parts, in order, when no part holds the separator. */
  lemma {:induction false} SplitJoin(sep: char, parts: seq<string>)
    requires |parts| > 0
    requires forall p :: p in parts ==> sep !in p
    ensures Split(sep, Join([sep], parts)) == parts
  {
    if |parts| == 1 {
      SplitWithoutSep(sep, parts[0]);
    } else {
      SplitJoin(sep, parts[1..]);
      SplitAtSep(sep, parts[0], Join([sep], parts[1..]));
      assert [parts[0]] + parts[1..] == parts;
    }
  }

  /** Appending a part appends the separator and the part. */
  lemma {:induction false} JoinSnoc(sep: string, parts: seq<string>, last: string)
    requires |parts| > 0
    ensures Join(sep, parts + [last]) == Join(sep, parts) + sep + last
  {
    if |parts| > 1 {
      JoinSnoc(sep, parts[1..], last);
      assert (parts + [last])[1..] == parts[1..] + [last];
    }
  }

  /** A join of separator-free parts with a different separator holds no such separator. */
  lemma {:induction false} JoinAvoids(c: char, sep: string, parts: seq<string>)
    requires c !in sep
    requires forall p :: p in parts ==> c !in p
    ensures c !in Join(sep, parts)
  {
    if |parts| > 1 {
      JoinAvoids(c, sep, parts[1..]);
    }
  }
}
