/** The string operations of the .NET base library that the program relies
    on (`IndexOf`, `LastIndexOf`, `StartsWith`, `Split`, `Join`, `Replace`,
    UTF-8 byte counts, ordinal comparison), written out over `seq<char>`.
    Every search and comparison here is ordinal: character by character,
    with no culture rules and no ignorable characters. */
module Text {

  // ---------------------------------------------------------------------
  // UTF-8 byte length
  // ---------------------------------------------------------------------

  /** Number of bytes the scalar value `c` takes in UTF-8. */
  function Utf8CharLength(c: char): (n: nat)
    ensures 1 <= n <= 4
  {
    if c as int < 0x80 then 1
    else if c as int < 0x800 then 2
    else if c as int < 0x1_0000 then 3
    else 4
  }

  /** `Encoding.UTF8.GetBytes(s).Length`. */
  function Utf8Length(s: string): nat
  {
    if s == [] then 0 else Utf8Length(s[..|s| - 1]) + Utf8CharLength(s[|s| - 1])
  }

  lemma {:induction false} Utf8LengthAppend(a: string, b: string)
    ensures Utf8Length(a + b) == Utf8Length(a) + Utf8Length(b)
    decreases |b|
  {
    if b != [] {
      var b' := b[..|b| - 1];
      assert (a + b)[..|a + b| - 1] == a + b';
      assert (a + b)[|a + b| - 1] == b[|b| - 1];
      Utf8LengthAppend(a, b');
    } else {
      assert a + b == a;
    }
  }

  /** Every character takes at least one byte. */
  lemma {:induction false} Utf8LengthAtLeastLength(s: string)
    ensures |s| <= Utf8Length(s)
    decreases |s|
  {
    if s != [] {
      Utf8LengthAtLeastLength(s[..|s| - 1]);
    }
  }

  // ---------------------------------------------------------------------
  // Searching (ordinal)
  // ---------------------------------------------------------------------

  predicate StartsWith(s: string, prefix: string)
  {
    |prefix| <= |s| && s[..|prefix|] == prefix
  }

  /** `pat` occurs in `s` at index `i`. */
  predicate OccursAt(s: string, pat: string, i: int)
  {
    0 <= i && i + |pat| <= |s| && s[i..i + |pat|] == pat
  }

  /** An occurrence inside a prefix is an occurrence in the whole. */
  lemma OccursInPrefix(s: string, k: int, pat: string, i: int)
    ensures 0 <= k <= |s| && OccursAt(s[..k], pat, i) ==> OccursAt(s, pat, i)
  {
    if 0 <= k <= |s| && OccursAt(s[..k], pat, i) {
      assert s[i..i + |pat|] == s[..k][i..i + |pat|];
    }
  }

  /** The first index at or after `from` where `pat` occurs, or -1. */
  function IndexFrom(s: string, pat: string, from: nat): (r: int)
    requires from <= |s|
    ensures r == -1 || (from <= r && OccursAt(s, pat, r))
    ensures r == -1 ==> forall i :: from <= i ==> !OccursAt(s, pat, i)
    ensures r != -1 ==> forall i :: from <= i < r ==> !OccursAt(s, pat, i)
    decreases |s| - from
  {
    if OccursAt(s, pat, from) then from
    else if from == |s| then -1
    else IndexFrom(s, pat, from + 1)
  }

  /** `s.IndexOf(pat)`: the first occurrence of `pat`, or -1. */
  function IndexOf(s: string, pat: string): (r: int)
    ensures r == -1 <==> forall i :: !OccursAt(s, pat, i)
    ensures r != -1 ==> OccursAt(s, pat, r) && forall i :: 0 <= i < r ==> !OccursAt(s, pat, i)
  {
    IndexFrom(s, pat, 0)
  }

  /** `s.Contains(pat)`. */
  predicate Contains(s: string, pat: string)
  {
    IndexOf(s, pat) >= 0
  }

  /** `s.LastIndexOf(c)`: the last position holding `c`, or -1. */
  function LastIndexOf(s: string, c: char): (r: int)
    ensures -1 <= r < |s|
    ensures r == -1 <==> c !in s
    ensures 0 <= r ==> s[r] == c && c !in s[r + 1..]
  {
    if s == [] then -1
    else if s[|s| - 1] == c then |s| - 1
    else
      var r := LastIndexOf(s[..|s| - 1], c);
      assert s == s[..|s| - 1] + [s[|s| - 1]];
      assert 0 <= r ==> s[r + 1..] == s[..|s| - 1][r + 1..] + [s[|s| - 1]];
      r
  }

  // ---------------------------------------------------------------------
  // Split and Join on a one-character separator
  // ---------------------------------------------------------------------

  /** `s.Split(sep)` with no options: every separator splits, and empty
      pieces (leading, trailing, between adjacent separators) are kept. */
  function Split(s: string, sep: char): (r: seq<string>)
    ensures |r| >= 1
    ensures forall i :: 0 <= i < |r| ==> sep !in r[i]
  {
    if s == [] then [""]
    else
      var rest := Split(s[1..], sep);
      if s[0] == sep then [""] + rest
      else [[s[0]] + rest[0]] + rest[1..]
  }

  /** `string.Join(sep, parts)`. */
  function Join(parts: seq<string>, sep: char): string
  {
    if parts == [] then ""
    else if |parts| == 1 then parts[0]
    else parts[0] + [sep] + Join(parts[1..], sep)
  }

  /** Joining the pieces of a split gives back the string. */
  lemma {:induction false} JoinSplit(s: string, sep: char)
    ensures Join(Split(s, sep), sep) == s
    decreases |s|
  {
    if s != [] {
      var rest := Split(s[1..], sep);
      JoinSplit(s[1..], sep);
      if s[0] == sep {
        assert ([""] + rest)[1..] == rest;
      } else {
        var parts := [[s[0]] + rest[0]] + rest[1..];
        if |rest| > 1 {
          assert parts[1..] == rest[1..];
          assert Join(rest, sep) == rest[0] + [sep] + Join(rest[1..], sep);
        }
      }
    }
  }

  /** A string holding the separator splits into at least two pieces. */
  lemma SplitAtSeparator(s: string, sep: char)
    requires sep in s
    ensures |Split(s, sep)| >= 2
  {
    JoinSplit(s, sep);
  }

  /** Splitting a join of separator-free pieces gives back the pieces. */
  lemma {:induction false} SplitJoin(parts: seq<string>, sep: char)
    requires |parts| >= 1
    requires forall i :: 0 <= i < |parts| ==> sep !in parts[i]
    ensures Split(Join(parts, sep), sep) == parts
    decreases |parts|, |parts[0]|
  {
    var p := parts[0];
    if p == [] {
      if |parts| > 1 {
        var j := Join(parts[1..], sep);
        assert Join(parts, sep) == [sep] + j;
        assert ([sep] + j)[1..] == j;
        SplitJoin(parts[1..], sep);
        assert parts == [""] + parts[1..];
      }
    } else {
      var tail := [p[1..]] + parts[1..];
      assert forall i :: 0 <= i < |tail| ==> sep !in tail[i] by {
        forall i | 0 <= i < |tail| ensures sep !in tail[i] {
          if i == 0 { assert p == [p[0]] + p[1..]; } else { assert tail[i] == parts[i]; }
        }
      }
      SplitJoin(tail, sep);
      JoinFirstChar(parts, sep);
      assert p[0] != sep by { assert p[0] in parts[0]; }
      assert [p[0]] + tail[0] == p;
      assert parts == [[p[0]] + tail[0]] + tail[1..];
    }
  }

  /** Peeling the first character off the first piece of a join. */
  lemma JoinFirstChar(parts: seq<string>, sep: char)
    requires |parts| >= 1 && parts[0] != []
    ensures Join(parts, sep)[1..] == Join([parts[0][1..]] + parts[1..], sep)
    ensures Join(parts, sep)[0] == parts[0][0]
  {
    var p := parts[0];
    var tail := [p[1..]] + parts[1..];
    assert tail[1..] == parts[1..];
    assert p == [p[0]] + p[1..];
    if |parts| > 1 {
      assert Join(parts, sep) == [p[0]] + (p[1..] + [sep] + Join(parts[1..], sep));
    }
  }

  // ---------------------------------------------------------------------
  // Character replacement
  // ---------------------------------------------------------------------

  /** `s.Replace(from, to)` for one-character strings. */
  function Replace(s: string, from: char, to: char): (r: string)
    ensures |r| == |s|
    ensures from != to ==> from !in r
    ensures from !in s ==> r == s
  {
    seq(|s|, i requires 0 <= i < |s| => if s[i] == from then to else s[i])
  }

  /** `Replace` brings in no character other than `to`, and keeps every
      other character it finds. */
  lemma ReplaceChars(s: string, from: char, to: char, c: char)
    ensures c in Replace(s, from, to) && c != to ==> c in s && c != from
    ensures c in s && c != from ==> c in Replace(s, from, to)
  {
    var r := Replace(s, from, to);
    if c in s && c != from {
      var i :| 0 <= i < |s| && s[i] == c;
      assert r[i] == c;
    }
  }

  /** What `Replace` puts at each position. */
  lemma ReplaceAt(s: string, from: char, to: char)
    ensures forall i :: 0 <= i < |s| ==> Replace(s, from, to)[i] == if s[i] == from then to else s[i]
  {
  }

  // ---------------------------------------------------------------------
  // Ordinal comparison
  // ---------------------------------------------------------------------

  /** `a` sorts before or equal to `b` character by character, a proper
      prefix first. */
  predicate Le(a: string, b: string)
  {
    if a == [] then true
    else if b == [] then false
    else if a[0] != b[0] then a[0] < b[0]
    else Le(a[1..], b[1..])
  }

  lemma {:induction false} LeTotal(a: string, b: string)
    ensures Le(a, b) || Le(b, a)
    decreases |a|
  {
    if a != [] && b != [] && a[0] == b[0] {
      LeTotal(a[1..], b[1..]);
    }
  }

  lemma {:induction false} LeTransitive(a: string, b: string, c: string)
    requires Le(a, b) && Le(b, c)
    ensures Le(a, c)
    decreases |a|
  {
    if a != [] && b != [] && c != [] && a[0] == b[0] && b[0] == c[0] {
      LeTransitive(a[1..], b[1..], c[1..]);
    }
  }

  lemma {:induction false} LeAntisymmetric(a: string, b: string)
    requires Le(a, b) && Le(b, a)
    ensures a == b
    decreases |a|
  {
    if a != [] && b != [] {
      LeAntisymmetric(a[1..], b[1..]);
      assert a == [a[0]] + a[1..] && b == [b[0]] + b[1..];
    }
  }
}
