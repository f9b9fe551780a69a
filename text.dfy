/** The string operations the archive relies on: ASCII lower-casing (the
    extension check), replacing every occurrence of a character (the UTC
    marker of timestamps), substring search (message search) and the last
    occurrence of a character (splitting off a file extension). */
module Text {
  import opened Wrappers

  /** Lower-casing of one character; only ASCII letters change. */
  function LowerChar(c: char): char
  {
    if 'A' <= c <= 'Z' then (c as int + 32) as char else c
  }

  /** Lower-casing of a whole string, character by character. */
  function Lower(s: string): (r: string)
    ensures |r| == |s|
    ensures forall i :: 0 <= i < |s| ==> r[i] == LowerChar(s[i])
    ensures forall i :: 0 <= i < |r| ==> !('A' <= r[i] <= 'Z')
  {
    if s == [] then [] else [LowerChar(s[0])] + Lower(s[1..])
  }

  /** Lower-casing twice is lower-casing once. */
  lemma LowerIdempotent(s: string)
    ensures Lower(Lower(s)) == Lower(s)
  {
    var once := Lower(s);
    assert forall i :: 0 <= i < |once| ==> LowerChar(once[i]) == once[i];
  }

  /** Number of occurrences of `c` in `s`. */
  function Count(s: string, c: char): nat
  {
    if s == [] then 0 else (if s[0] == c then 1 else 0) + Count(s[1..], c)
  }

  /** Every occurrence of `c` in `s` replaced by `rep`, as Python's
      `str.replace(c, rep)` does. */
  function ReplaceAll(s: string, c: char, rep: string): string
  {
    if s == [] then []
    else (if s[0] == c then rep else [s[0]]) + ReplaceAll(s[1..], c, rep)
  }

  /** No `c` is left when the replacement has none. */
  lemma {:induction false} ReplaceAllRemoves(s: string, c: char, rep: string)
    ensures c !in rep ==> c !in ReplaceAll(s, c, rep)
  {
    if s != [] {
      ReplaceAllRemoves(s[1..], c, rep);
    }
  }

  /** A string without `c` is left as it is. */
  lemma {:induction false} ReplaceAllIdentity(s: string, c: char, rep: string)
    ensures c !in s ==> ReplaceAll(s, c, rep) == s
  {
    if s != [] {
      ReplaceAllIdentity(s[1..], c, rep);
      assert s == [s[0]] + s[1..];
    }
  }

  /** Every character of the result comes from `s` or from `rep`. */
  lemma {:induction false} ReplaceAllFrom(s: string, c: char, rep: string)
    ensures forall x :: x in ReplaceAll(s, c, rep) && x !in rep ==> x in s
  {
    if s != [] {
      ReplaceAllFrom(s[1..], c, rep);
      forall x | x in ReplaceAll(s, c, rep) && x !in rep ensures x in s {
        if x !in ReplaceAll(s[1..], c, rep) {
          assert x == s[0];
        }
      }
    }
  }

  /** Each occurrence of `c` turns into `|rep|` characters, every other
      character into one. */
  lemma {:induction false} ReplaceAllLength(s: string, c: char, rep: string)
    ensures |ReplaceAll(s, c, rep)| == |s| - Count(s, c) + Count(s, c) * |rep|
  {
    if s != [] {
      ReplaceAllLength(s[1..], c, rep);
      var n := Count(s[1..], c);
      if s[0] == c {
        assert (n + 1) * |rep| == n * |rep| + |rep|;
      }
    }
  }

  /** Replacement distributes over concatenation. */
  lemma {:induction false} ReplaceAllAppend(a: string, b: string, c: char, rep: string)
    ensures ReplaceAll(a + b, c, rep) == ReplaceAll(a, c, rep) + ReplaceAll(b, c, rep)
  {
    if a != [] {
      assert (a + b)[0] == a[0];
      assert (a + b)[1..] == a[1..] + b;
      ReplaceAllAppend(a[1..], b, c, rep);
    } else {
      assert a + b == b;
    }
  }

  /** `p` is a prefix of `s`. */
  predicate IsPrefix(p: string, s: string)
  {
    |p| <= |s| && s[..|p|] == p
  }

  /** `sub` occurs in `s` as a contiguous substring. */
  predicate Contains(s: string, sub: string)
    decreases |s|
  {
    IsPrefix(sub, s) || (|s| > 0 && Contains(s[1..], sub))
  }

  /** The recursive search agrees with the positional definition of a
      substring occurrence, in both directions. */
  lemma {:induction false} ContainsIffOccurrence(s: string, sub: string)
    ensures Contains(s, sub) <==> exists i :: 0 <= i <= |s| && IsPrefix(sub, s[i..])
    decreases |s|
  {
    if |s| > 0 {
      ContainsIffOccurrence(s[1..], sub);
      if IsPrefix(sub, s) {
        assert s[0..] == s;
      }
      if Contains(s[1..], sub) {
        var i :| 0 <= i <= |s| - 1 && IsPrefix(sub, s[1..][i..]);
        assert s[1..][i..] == s[i + 1..];
        assert IsPrefix(sub, s[i + 1..]);
      }
      if exists i :: 0 <= i <= |s| && IsPrefix(sub, s[i..]) {
        var i :| 0 <= i <= |s| && IsPrefix(sub, s[i..]);
        if i > 0 {
          assert s[1..][i - 1..] == s[i..];
          assert IsPrefix(sub, s[1..][i - 1..]);
          assert Contains(s[1..], sub);
        } else {
          assert s[0..] == s;
        }
        assert Contains(s, sub);
      }
    } else {
      assert s[0..] == s;
    }
  }

  /** Index of the last occurrence of `c` in `s`, if any. */
  function LastIndexOf(s: string, c: char): (r: Option<nat>)
    ensures r.None? <==> c !in s
    ensures r.Some? ==> r.value < |s| && s[r.value] == c && c !in s[r.value + 1..]
  {
    if s == [] then None
    else if s[|s| - 1] == c then Some(|s| - 1)
    else
      var r := LastIndexOf(s[..|s| - 1], c);
      assert s == s[..|s| - 1] + [s[|s| - 1]];
      r
  }
}
