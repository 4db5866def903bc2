/** Go's `strings.Split` for a one-character separator, and `strings.Join` as its
    inverse. Strings are sequences of code points (Go runes). */
module Strings {

  /** Index of the first `c` in `s`, or `|s|` when there is none. */
  function IndexOf(s: string, c: char): (i: nat)
    ensures i <= |s|
    ensures i < |s| ==> s[i] == c
    ensures c !in s[..i]
  {
    if s == [] then 0
    else if s[0] == c then 0
    else
      var j := IndexOf(s[1..], c);
      assert s[..1 + j] == [s[0]] + s[1..][..j];
      1 + j
  }

  /** `IndexOf` finds the first occurrence. */
  lemma IndexOfFirst(s: string, c: char, k: nat)
    requires k < |s| && s[k] == c && c !in s[..k]
    ensures IndexOf(s, c) == k
  {
  }

  /** `strings.Split(s, [sep])`: the maximal separator-free pieces between separators. */
  function Split(s: string, sep: char): (parts: seq<string>)
    ensures |parts| >= 1
    decreases |s|
  {
    var i := IndexOf(s, sep);
    if i == |s| then [s] else [s[..i]] + Split(s[i + 1..], sep)
  }

  /** No piece contains the separator. */
  lemma {:induction false} SplitPiecesHaveNoSep(s: string, sep: char)
    ensures forall k :: 0 <= k < |Split(s, sep)| ==> sep !in Split(s, sep)[k]
    decreases |s|
  {
    var i := IndexOf(s, sep);
    if i < |s| {
      SplitPiecesHaveNoSep(s[i + 1..], sep);
    }
  }

  /** `strings.Join(parts, [sep])`. */
  function Join(parts: seq<string>, sep: char): string {
    if |parts| == 0 then ""
    else if |parts| == 1 then parts[0]
    else parts[0] + [sep] + Join(parts[1..], sep)
  }

  /** A string with no separator is its own single piece. */
  lemma SplitNoSep(s: string, sep: char)
    requires sep !in s
    ensures Split(s, sep) == [s]
  {
  }

  /** Splitting peels off the piece before the first separator. */
  lemma SplitCons(p: string, sep: char, r: string)
    requires sep !in p
    ensures Split(p + [sep] + r, sep) == [p] + Split(r, sep)
  {
    var s := p + [sep] + r;
    assert s[..|p|] == p;
    IndexOfFirst(s, sep, |p|);
    assert s[|p| + 1..] == r;
  }

  /** There are at least two pieces exactly when the separator occurs. */
  lemma SplitHasSecond(s: string, sep: char)
    ensures |Split(s, sep)| >= 2 <==> sep in s
  {
  }

  /** The first two pieces are `a` and `b` exactly when the string is `a`, the
      separator and `b`, possibly followed by the separator and anything. */
  lemma SplitFirstTwo(s: string, sep: char, a: string, b: string)
    requires sep !in a && sep !in b
    ensures (|Split(s, sep)| >= 2 && Split(s, sep)[0] == a && Split(s, sep)[1] == b)
            <==> (s == a + [sep] + b || a + [sep] + b + [sep] <= s)
  {
    if s == a + [sep] + b || a + [sep] + b + [sep] <= s {
      SplitOfTwo(s, sep, a, b);
    }
    if |Split(s, sep)| >= 2 && Split(s, sep)[0] == a && Split(s, sep)[1] == b {
      TwoOfSplit(s, sep, a, b);
    }
  }

  lemma SplitOfTwo(s: string, sep: char, a: string, b: string)
    requires sep !in a && sep !in b
    requires s == a + [sep] + b || a + [sep] + b + [sep] <= s
    ensures |Split(s, sep)| >= 2 && Split(s, sep)[0] == a && Split(s, sep)[1] == b
  {
    if s == a + [sep] + b {
      SplitCons(a, sep, b);
      SplitNoSep(b, sep);
    } else {
      var rest := s[|a| + |b| + 2..];
      assert s == a + [sep] + (b + [sep] + rest);
      SplitCons(a, sep, b + [sep] + rest);
      SplitCons(b, sep, rest);
    }
  }

  lemma TwoOfSplit(s: string, sep: char, a: string, b: string)
    requires |Split(s, sep)| >= 2 && Split(s, sep)[0] == a && Split(s, sep)[1] == b
    ensures s == a + [sep] + b || a + [sep] + b + [sep] <= s
  {
    var parts := Split(s, sep);
    JoinSplit(s, sep);
    var tail := parts[1..];
    assert Join(parts, sep) == a + [sep] + Join(tail, sep);
    if |tail| == 1 {
      assert s == a + [sep] + b;
    } else {
      var t, x := a + [sep] + b + [sep], Join(tail[1..], sep);
      assert Join(tail, sep) == b + [sep] + x;
      assert s == t + x;
      assert s[..|t|] == t;
    }
  }

  lemma JoinCons(p: string, ps: seq<string>, sep: char)
    requires |ps| >= 1
    ensures Join([p] + ps, sep) == p + [sep] + Join(ps, sep)
  {
    assert ([p] + ps)[1..] == ps;
  }

  /** Joining the pieces restores the string. */
  lemma {:induction false} JoinSplit(s: string, sep: char)
    ensures Join(Split(s, sep), sep) == s
    decreases |s|
  {
    var i := IndexOf(s, sep);
    if i < |s| {
      var rest := s[i + 1..];
      JoinSplit(rest, sep);
      var pre := s[..i];
      assert Split(s, sep) == [pre] + Split(rest, sep);
      JoinCons(pre, Split(rest, sep), sep);
      assert s[..i + 1] == pre + [sep];
      assert s == s[..i + 1] + rest;
    }
  }

  /** Splitting a join of separator-free pieces gives the pieces back. */
  lemma {:induction false} SplitJoin(parts: seq<string>, sep: char)
    requires |parts| >= 1
    requires forall k :: 0 <= k < |parts| ==> sep !in parts[k]
    ensures Split(Join(parts, sep), sep) == parts
  {
    if |parts| == 1 {
      SplitNoSep(parts[0], sep);
    } else {
      SplitJoin(parts[1..], sep);
      SplitCons(parts[0], sep, Join(parts[1..], sep));
    }
  }
}
