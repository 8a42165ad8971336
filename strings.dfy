/** The two functions of Go's `strings` package that the proxy wrapper relies
    on: `strings.Split` with a one-character separator and `strings.HasSuffix`. */
module Strings {

  /** Number of occurrences of `c` in `s`. */
  function Count(s: string, c: char): (n: nat)
    ensures n <= |s|
    ensures n == 0 <==> c !in s
  {
    if s == [] then 0 else (if s[0] == c then 1 else 0) + Count(s[1..], c)
  }

  /** `strings.Split(s, string(sep))`: the maximal separator-free pieces of `s`
      in order. Like Go, it yields `[""]` for the empty string and an empty
      piece on each side of every separator. */
  function Split(s: string, sep: char): (parts: seq<string>)
    ensures |parts| == Count(s, sep) + 1
    decreases |s|
  {
    if s == [] then [""]
    else
      var rest := Split(s[1..], sep);
      if s[0] == sep then [""] + rest
      else [[s[0]] + rest[0]] + rest[1..]
  }

  /** `strings.Join(parts, string(sep))`, the partner of `Split`. */
  function Join(parts: seq<string>, sep: char): string
  {
    if parts == [] then ""
    else if |parts| == 1 then parts[0]
    else parts[0] + [sep] + Join(parts[1..], sep)
  }

  /** `strings.HasSuffix(s, suffix)`. */
  predicate HasSuffix(s: string, suffix: string)
  {
    |suffix| <= |s| && s[|s| - |suffix|..] == suffix
  }

  /** Splitting and joining again gives back the original string. */
  lemma {:induction false} JoinSplit(s: string, sep: char)
    ensures Join(Split(s, sep), sep) == s
    decreases |s|
  {
    if s != [] {
      JoinSplit(s[1..], sep);
      JoinCons(Split(s[1..], sep), [s[0]], s[0] != sep, sep);
      assert s == [s[0]] + s[1..];
    }
  }

  /** How `Join` treats the two shapes of `Split`'s recursive case. */
  lemma JoinCons(ps: seq<string>, c: string, glue: bool, sep: char)
    requires |ps| >= 1
    ensures glue ==> Join([c + ps[0]] + ps[1..], sep) == c + Join(ps, sep)
    ensures !glue ==> Join([""] + ps, sep) == [sep] + Join(ps, sep)
  {
    if glue && |ps| > 1 {
      assert ([c + ps[0]] + ps[1..])[1..] == ps[1..];
    }
    if !glue {
      assert ([""] + ps)[1..] == ps;
    }
  }

  /** A string without separators is a single piece. */
  lemma {:induction false} SplitNoSeparator(s: string, sep: char)
    requires sep !in s
    ensures Split(s, sep) == [s]
    decreases |s|
  {
    if s != [] {
      SplitNoSeparator(s[1..], sep);
      assert s == [s[0]] + s[1..];
    }
  }

  /** One step of `Split`, stated on a string written as head and tail. */
  lemma SplitCons(c: char, t: string, sep: char)
    ensures Split([c] + t, sep) ==
      if c == sep then [""] + Split(t, sep)
      else [[c] + Split(t, sep)[0]] + Split(t, sep)[1..]
  {
    assert ([c] + t)[1..] == t;
  }

  /** Splitting distributes over a separator: the pieces of `a + sep + b` are
      the pieces of `a` followed by the pieces of `b`. */
  lemma {:induction false} SplitAround(a: string, b: string, sep: char)
    ensures Split(a + [sep] + b, sep) == Split(a, sep) + Split(b, sep)
    decreases |a|
  {
    if a == [] {
      assert a + [sep] + b == [sep] + b;
      SplitCons(sep, b, sep);
    } else {
      SplitAround(a[1..], b, sep);
      SplitAroundStep(a, b, sep);
    }
  }

  /** The inductive step of `SplitAround`. */
  lemma SplitAroundStep(a: string, b: string, sep: char)
    requires a != []
    requires Split(a[1..] + [sep] + b, sep) == Split(a[1..], sep) + Split(b, sep)
    ensures Split(a + [sep] + b, sep) == Split(a, sep) + Split(b, sep)
  {
    var s := a + [sep] + b;
    assert s[0] == a[0];
    assert s[1..] == a[1..] + [sep] + b;
    ConsAppend(Split(a, sep), Split(b, sep), Split(a[1..], sep), a[0] != sep, [a[0]]);
  }

  lemma ConsAppend(whole: seq<string>, right: seq<string>, left: seq<string>, glue: bool, c: string)
    requires |left| >= 1
    requires whole == if glue then [c + left[0]] + left[1..] else [""] + left
    ensures (if glue then [c + (left + right)[0]] + (left + right)[1..] else [""] + (left + right)) == whole + right
  {
    if glue {
      assert (left + right)[0] == left[0];
      assert (left + right)[1..] == left[1..] + right;
    }
  }

  /** `a + sep + b` splits into exactly two pieces iff neither side holds a
      separator, and the two pieces are then `a` and `b`. */
  lemma SplitPair(a: string, b: string, sep: char)
    ensures |Split(a + [sep] + b, sep)| == 2 <==> sep !in a && sep !in b
    ensures sep !in a && sep !in b ==> Split(a + [sep] + b, sep) == [a, b]
  {
    SplitAround(a, b, sep);
    if sep !in a && sep !in b {
      SplitNoSeparator(a, sep);
      SplitNoSeparator(b, sep);
    }
  }

  /** When the left part holds no separator, `a + sep + b` determines `a` and `b`. */
  lemma SplitInjective(a1: string, b1: string, a2: string, b2: string, sep: char)
    requires sep !in a1 && sep !in a2
    requires a1 + [sep] + b1 == a2 + [sep] + b2
    ensures a1 == a2 && b1 == b2
  {
    SplitAround(a1, b1, sep);
    SplitAround(a2, b2, sep);
    SplitNoSeparator(a1, sep);
    SplitNoSeparator(a2, sep);
    var s := a1 + [sep] + b1;
    assert Split(s, sep) == [a1] + Split(b1, sep) == [a2] + Split(b2, sep);
    assert Split(b1, sep) == Split(s, sep)[1..] == Split(b2, sep);
    JoinSplit(b1, sep);
    JoinSplit(b2, sep);
  }
}
