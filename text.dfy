/** The string helpers of Go's standard library that the server and the
    clients rely on, written out: `strings.Split` with a one-character
    separator, `strings.Trim` with a one-character cutset, and
    `bytes.Compare` on keys (characters compared by code point, which is the
    byte order of their UTF-8 encoding). */
module Text {

  /** `strings.Split(s, string(sep))`: the pieces between separators, so ""
      gives [""] and "a," gives ["a", ""]. */
  function Split(s: string, sep: char): (parts: seq<string>)
    ensures |parts| >= 1
    ensures forall i | 0 <= i < |parts| :: sep !in parts[i]
    decreases |s|
  {
    if |s| == 0 then [""]
    else
      var rest := Split(s[1..], sep);
      if s[0] == sep then [""] + rest
      else [[s[0]] + rest[0]] + rest[1..]
  }

  /** `strings.Join(parts, string(sep))` on a non-empty list. */
  function Join(parts: seq<string>, sep: char): string
    requires |parts| >= 1
    decreases |parts|
  {
    if |parts| == 1 then parts[0] else parts[0] + [sep] + Join(parts[1..], sep)
  }

  /** Joining the pieces back with the separator gives the original string. */
  lemma {:induction false} JoinSplit(s: string, sep: char)
    ensures Join(Split(s, sep), sep) == s
    decreases |s|
  {
    if |s| > 0 {
      var rest := Split(s[1..], sep);
      JoinSplit(s[1..], sep);
      if s[0] == sep {
        JoinEmptyFirst(rest, sep);
      } else {
        JoinCons(s[0], rest, sep);
      }
      assert s == [s[0]] + s[1..];
    }
  }

  /** A leading empty piece joins to a leading separator. */
  lemma JoinEmptyFirst(rest: seq<string>, sep: char)
    requires |rest| >= 1
    ensures Join([""] + rest, sep) == [sep] + Join(rest, sep)
  {
    assert ([""] + rest)[1..] == rest;
  }

  /** A character put in front of the first piece comes first in the join. */
  lemma JoinCons(c: char, rest: seq<string>, sep: char)
    requires |rest| >= 1
    ensures Join([[c] + rest[0]] + rest[1..], sep) == [c] + Join(rest, sep)
  {
    var parts := [[c] + rest[0]] + rest[1..];
    if |rest| > 1 {
      assert parts[1..] == rest[1..];
      assert Join(parts, sep) == ([c] + rest[0]) + [sep] + Join(rest[1..], sep);
      assert Join(rest, sep) == rest[0] + [sep] + Join(rest[1..], sep);
    }
  }

  /** A separator-free prefix lands in the first piece. */
  lemma {:induction false} SplitAppend(p: string, t: string, sep: char)
    requires sep !in p
    ensures Split(p + t, sep) == [p + Split(t, sep)[0]] + Split(t, sep)[1..]
    decreases |p|
  {
    if |p| == 0 {
      var rt := Split(t, sep);
      assert p + t == t;
      assert p + rt[0] == rt[0];
      assert rt == [rt[0]] + rt[1..];
    } else {
      var rt := Split(t, sep);
      SplitAppend(p[1..], t, sep);
      assert (p + t)[0] == p[0];
      assert (p + t)[1..] == p[1..] + t;
      var rest := Split(p[1..] + t, sep);
      assert rest == [p[1..] + rt[0]] + rt[1..];
      assert [p[0]] + (p[1..] + rt[0]) == p + rt[0];
    }
  }

  /** Splitting a join of separator-free pieces gives the pieces back. */
  lemma {:induction false} SplitJoin(parts: seq<string>, sep: char)
    requires |parts| >= 1
    requires forall i | 0 <= i < |parts| :: sep !in parts[i]
    ensures Split(Join(parts, sep), sep) == parts
    decreases |parts|
  {
    if |parts| == 1 {
      SplitAppend(parts[0], "", sep);
      assert parts[0] + "" == parts[0];
    } else {
      var tail := Join(parts[1..], sep);
      SplitJoin(parts[1..], sep);
      SplitAppend(parts[0], [sep] + tail, sep);
      assert parts[0] + [sep] + tail == parts[0] + ([sep] + tail);
      var st := Split([sep] + tail, sep);
      assert st == [""] + Split(tail, sep) by {
        assert ([sep] + tail)[1..] == tail;
      }
      assert st[0] == "" && st[1..] == parts[1..];
      assert parts[0] + st[0] == parts[0];
      assert Join(parts, sep) == parts[0] + ([sep] + tail);
      assert parts == [parts[0]] + parts[1..];
    }
  }

  /** The number of `c` characters that open `s`. */
  function LeadingRun(s: string, c: char): (n: nat)
    ensures n <= |s|
    ensures forall k | 0 <= k < n :: s[k] == c
    ensures n == |s| || s[n] != c
    decreases |s|
  {
    if |s| > 0 && s[0] == c then 1 + LeadingRun(s[1..], c) else 0
  }

  /** The number of `c` characters that close `s`. */
  function TrailingRun(s: string, c: char): (n: nat)
    ensures n <= |s|
    ensures forall k | |s| - n <= k < |s| :: s[k] == c
    ensures n == |s| || s[|s| - 1 - n] != c
    decreases |s|
  {
    if |s| > 0 && s[|s| - 1] == c then 1 + TrailingRun(s[..|s| - 1], c) else 0
  }

  /** `strings.Trim(s, string(c))`: the longest middle slice of `s` that
      neither starts nor ends with `c`; everything cut away is `c`. */
  function Trim(s: string, c: char): (r: string)
    ensures |r| == 0 || (r[0] != c && r[|r| - 1] != c)
    ensures LeadingRun(s, c) + |r| <= |s|
    ensures r == s[LeadingRun(s, c)..LeadingRun(s, c) + |r|]
    ensures forall k | 0 <= k < |s| && !(LeadingRun(s, c) <= k < LeadingRun(s, c) + |r|) :: s[k] == c
  {
    var t := s[LeadingRun(s, c)..];
    t[..|t| - TrailingRun(t, c)]
  }

  /** `bytes.Compare(a, b)`: -1, 0 or 1 as `a` sorts before, equal to or
      after `b`, shorter prefixes first. */
  function Compare(a: string, b: string): (r: int)
    ensures -1 <= r <= 1
    ensures r == 0 <==> a == b
    decreases |a|
  {
    if |a| == 0 && |b| == 0 then 0
    else if |a| == 0 then -1
    else if |b| == 0 then 1
    else if a[0] < b[0] then -1
    else if a[0] > b[0] then 1
    else
      assert a == [a[0]] + a[1..] && b == [b[0]] + b[1..];
      Compare(a[1..], b[1..])
  }

  /** Swapping the arguments of Compare negates it. */
  lemma {:induction false} CompareAntisymmetric(a: string, b: string)
    ensures Compare(b, a) == -Compare(a, b)
    decreases |a|
  {
    if |a| > 0 && |b| > 0 && a[0] == b[0] {
      CompareAntisymmetric(a[1..], b[1..]);
    }
  }

  /** Sorting before is transitive. */
  lemma {:induction false} CompareTransitive(a: string, b: string, c: string)
    requires Compare(a, b) < 0 && Compare(b, c) < 0
    ensures Compare(a, c) < 0
    decreases |a|
  {
    if |a| > 0 && |b| > 0 && |c| > 0 && a[0] == b[0] && b[0] == c[0] {
      CompareTransitive(a[1..], b[1..], c[1..]);
    }
  }
}
