/**
 * The three Python string methods the fallback line parser chains:
 * `str.strip()` (no argument: strip whitespace), `str.rstrip(chars)` and
 * `str.split(sep)` with an explicit one-character separator.
 */
module PyStr {

  /** Python's `str.isspace` for a single character. */
  predicate IsSpace(c: char)
  {
    var n := c as int;
    (9 <= n <= 13) || (28 <= n <= 32) || n == 0x85 || n == 0xA0 || n == 0x1680 ||
    (0x2000 <= n <= 0x200A) || n == 0x2028 || n == 0x2029 || n == 0x202F ||
    n == 0x205F || n == 0x3000
  }

  /** Removes the longest prefix whose characters all satisfy drop. */
  function StripLeft(s: string, drop: char -> bool): (r: string)
    ensures |r| <= |s| && r == s[|s| - |r|..]
    ensures forall k :: 0 <= k < |s| - |r| ==> drop(s[k])
    ensures |r| > 0 ==> !drop(r[0])
  {
    if |s| > 0 && drop(s[0]) then StripLeft(s[1..], drop) else s
  }

  /** Removes the longest suffix whose characters all satisfy drop. */
  function StripRight(s: string, drop: char -> bool): (r: string)
    ensures |r| <= |s| && r == s[..|r|]
    ensures forall k :: |r| <= k < |s| ==> drop(s[k])
    ensures |r| > 0 ==> !drop(r[|r| - 1])
  {
    if |s| > 0 && drop(s[|s| - 1]) then StripRight(s[..|s| - 1], drop) else s
  }

  /** `s.strip()`: whitespace removed at both ends. */
  function Strip(s: string): (r: string)
    ensures |r| > 0 ==> !IsSpace(r[0]) && !IsSpace(r[|r| - 1])
  {
    StripRight(StripLeft(s, IsSpace), IsSpace)
  }

  /** r is s[i..i + |r|] and every character of s around it satisfies drop. */
  ghost predicate InfixBetween(s: string, r: string, i: int, drop: char -> bool)
  {
    0 <= i && i + |r| <= |s| && r == s[i..i + |r|] &&
    (forall k :: 0 <= k < i ==> drop(s[k])) &&
    (forall k :: i + |r| <= k < |s| ==> drop(s[k]))
  }

  /**
   * What stripping both ends removes satisfies drop: the result is a
   * contiguous infix of s with only dropped characters before and after it.
   */
  lemma StripIsInfix(s: string, drop: char -> bool)
    ensures InfixBetween(s, StripRight(StripLeft(s, drop), drop), |s| - |StripLeft(s, drop)|, drop)
  {
    StripsNest(s, StripLeft(s, drop), StripRight(StripLeft(s, drop), drop), drop);
  }

  /** `s.strip()` is a contiguous infix of s with only whitespace around it. */
  lemma StripRemovesWhitespace(s: string)
    ensures InfixBetween(s, Strip(s), |s| - |StripLeft(s, IsSpace)|, IsSpace)
  {
    StripIsInfix(s, IsSpace);
  }

  /** A right strip r of a left strip l of s sits inside s between dropped characters. */
  lemma StripsNest(s: string, l: string, r: string, drop: char -> bool)
    requires |l| <= |s| && l == s[|s| - |l|..] && forall k :: 0 <= k < |s| - |l| ==> drop(s[k])
    requires |r| <= |l| && r == l[..|r|] && forall k :: |r| <= k < |l| ==> drop(l[k])
    ensures InfixBetween(s, r, |s| - |l|, drop)
  {
    var i := |s| - |l|;
    PrefixOfSuffix(s, i, |r|);
    forall k | i + |r| <= k < |s| ensures drop(s[k]) {
      assert s[k] == l[k - i];
    }
  }

  lemma PrefixOfSuffix<T>(s: seq<T>, i: nat, n: nat)
    requires i + n <= |s|
    ensures s[i..][..n] == s[i..i + n]
  {
  }

  /** `s.rstrip(c)`: every trailing c removed. */
  function StripTrailing(s: string, c: char): (r: string)
    ensures |r| <= |s| && r == s[..|r|]
    ensures forall k :: |r| <= k < |s| ==> s[k] == c
    ensures |r| > 0 ==> r[|r| - 1] != c
  {
    StripRight(s, ch => ch == c)
  }

  /** The fields joined back with the separator between them: `sep.join(fields)`. */
  function Join(fields: seq<string>, sep: char): string
    requires |fields| > 0
  {
    if |fields| == 1 then fields[0] else fields[0] + [sep] + Join(fields[1..], sep)
  }

  /** `s.split(sep)`: the maximal runs between separators, empty fields kept. */
  function Split(s: string, sep: char): (r: seq<string>)
    ensures |r| > 0
  {
    if s == [] then [[]]
    else
      var rest := Split(s[1..], sep);
      if s[0] == sep then [[]] + rest else [[s[0]] + rest[0]] + rest[1..]
  }

  /** There is one more field than there are separators. */
  lemma {:induction false} SplitCount(s: string, sep: char)
    ensures |Split(s, sep)| == multiset(s)[sep] + 1
  {
    if s != [] {
      SplitCount(s[1..], sep);
      assert s == [s[0]] + s[1..];
      assert multiset(s) == multiset{s[0]} + multiset(s[1..]);
    }
  }

  /** No field contains the separator. */
  lemma {:induction false} SplitFieldsAreSeparatorFree(s: string, sep: char)
    ensures forall i :: 0 <= i < |Split(s, sep)| ==> sep !in Split(s, sep)[i]
  {
    if s != [] {
      SplitFieldsAreSeparatorFree(s[1..], sep);
      var rest, r := Split(s[1..], sep), Split(s, sep);
      if s[0] == sep {
        assert forall i :: 1 <= i < |r| ==> r[i] == rest[i - 1];
      } else {
        assert r[0] == [s[0]] + rest[0];
        assert forall i :: 1 <= i < |r| ==> r[i] == rest[i];
      }
    }
  }

  /** Joining the fields with the separator gives the string back. */
  lemma {:induction false} SplitJoinsBack(s: string, sep: char)
    ensures Join(Split(s, sep), sep) == s
  {
    if s != [] {
      SplitJoinsBack(s[1..], sep);
      var rest := Split(s[1..], sep);
      assert s == [s[0]] + s[1..];
      if s[0] != sep {
        JoinExtendsHead(rest, sep, s[0]);
      } else {
        var r := [[]] + rest;
        assert r[1..] == rest;
        if |rest| > 1 {
          assert Join(r, sep) == [] + [sep] + Join(rest, sep);
        } else {
          assert |r| > 1;
          assert Join(r, sep) == [] + [sep] + Join(r[1..], sep);
        }
      }
    }
  }

  lemma JoinExtendsHead(fields: seq<string>, sep: char, c: char)
    requires |fields| > 0
    ensures Join([[c] + fields[0]] + fields[1..], sep) == [c] + Join(fields, sep)
  {
    var g := [[c] + fields[0]] + fields[1..];
    assert g[1..] == fields[1..];
  }

  /** Splitting a join of separator-free fields gives the fields back. */
  lemma {:induction false} SplitJoin(fields: seq<string>, sep: char)
    requires |fields| > 0
    requires forall i :: 0 <= i < |fields| ==> sep !in fields[i]
    ensures Split(Join(fields, sep), sep) == fields
  {
    if |fields| == 1 {
      SplitWithoutSeparator(fields[0], sep);
    } else {
      SplitJoin(fields[1..], sep);
      SplitAround(fields[0], Join(fields[1..], sep), sep);
      assert fields == [fields[0]] + fields[1..];
    }
  }

  /** A string without the separator splits into itself. */
  lemma {:induction false} SplitWithoutSeparator(s: string, sep: char)
    requires sep !in s
    ensures Split(s, sep) == [s]
  {
    if s != [] {
      SplitWithoutSeparator(s[1..], sep);
      assert s == [s[0]] + s[1..];
    }
  }

  /** A separator-free prefix becomes the first field. */
  lemma {:induction false} SplitAround(a: string, b: string, sep: char)
    requires sep !in a
    ensures Split(a + [sep] + b, sep) == [a] + Split(b, sep)
  {
    if a == [] {
      assert a + [sep] + b == [sep] + b;
      assert ([sep] + b)[1..] == b;
    } else {
      var t := a + [sep] + b;
      assert t[0] == a[0] && t[1..] == a[1..] + [sep] + b;
      var rest := Split(t[1..], sep);
      assert rest == [a[1..]] + Split(b, sep) by {
        SplitAround(a[1..], b, sep);
      }
      assert Split(t, sep) == [[a[0]] + rest[0]] + rest[1..];
      assert [a[0]] + a[1..] == a;
    }
  }
}
