/** String operations shared by the scripts: Python's `re.sub` with a literal
    pattern (also `str.replace`), substring occurrence, and the preview
    truncation the scripts apply before printing a value. */
module Text {

  predicate IsDigit(c: char)
  {
    '0' <= c <= '9'
  }

  /** No decimal digit anywhere in `s`. */
  predicate NoDigits(s: string)
  {
    forall i :: 0 <= i < |s| ==> !IsDigit(s[i])
  }

  /** Text without digits contains nothing that starts with a digit. */
  lemma NoDigitsExcludes(s: string, q: string)
    requires NoDigits(s)
    requires |q| > 0 && IsDigit(q[0])
    ensures !Occurs(s, q)
  {
    forall i | 0 <= i <= |s| - |q| ensures !OccursAt(s, q, i) {
      assert !IsDigit(s[i]);
      assert s[i..i + |q|][0] == s[i];
    }
  }

  predicate IsPrefix(p: string, s: string)
  {
    |p| <= |s| && s[..|p|] == p
  }

  /** `q` occurs in `s` starting at index `i`. */
  predicate OccursAt(s: string, q: string, i: int)
  {
    0 <= i && i + |q| <= |s| && s[i..i + |q|] == q
  }

  /** Python's `q in s`. */
  predicate Occurs(s: string, q: string)
  {
    exists i :: 0 <= i <= |s| - |q| && OccursAt(s, q, i)
  }

  /** `a` and `b` agree on their common length: one is a prefix of the other. */
  predicate Compatible(a: string, b: string)
  {
    var m := if |a| < |b| then |a| else |b|;
    a[..m] == b[..m]
  }

  /** No copy of `r` could start anywhere inside `u` and agree with the rest
      of `u`: a text that starts with `u` and came out of a rewrite writing `r`
      cannot have an `r` beginning within its first |u| characters. */
  predicate NoSeam(u: string, r: string)
  {
    forall k :: 0 <= k < |u| ==> !Compatible(u[k..], r)
  }

  /** Left-to-right, non-overlapping replacement of every occurrence of the
      literal `p` by `r`: `re.sub` with a pattern free of metacharacters, and
      `str.replace`. */
  function ReplaceAll(s: string, p: string, r: string): string
    requires |p| > 0
    decreases |s|
  {
    if |s| < |p| then s
    else if s[..|p|] == p then r + ReplaceAll(s[|p|..], p, r)
    else [s[0]] + ReplaceAll(s[1..], p, r)
  }

  /** A preview of at most `n` characters followed by "..." when cut. */
  function Truncate(s: string, n: nat): (r: string)
    ensures |r| <= n + 3
    ensures |s| <= n ==> r == s
    ensures |s| > n ==> IsPrefix(s[..n], r) && r[n..] == "..."
  {
    if |s| > n then s[..n] + "..." else s
  }

  /** `idx` places the elements of `a` in `b` at strictly increasing
      positions: `a` is `b` with some elements dropped, the rest in order. */
  predicate Embeds<T(==)>(idx: seq<nat>, a: seq<T>, b: seq<T>)
  {
    |idx| == |a| &&
    (forall k :: 0 <= k < |idx| ==> idx[k] < |b| && b[idx[k]] == a[k]) &&
    (forall k1, k2 :: 0 <= k1 < k2 < |idx| ==> idx[k1] < idx[k2])
  }

  /** An embedding survives an element added to `b`, and extends to one added
      to both sequences. */
  lemma EmbedsAppend<T>(idx: seq<nat>, a: seq<T>, b: seq<T>, x: T)
    requires Embeds(idx, a, b)
    ensures Embeds(idx, a, b + [x])
    ensures Embeds(idx + [|b|], a + [x], b + [x])
  {
  }

  lemma OccursAtSuffix(s: string, q: string, d: nat, j: int)
    requires d <= |s|
    requires OccursAt(s[d..], q, j)
    ensures OccursAt(s, q, j + d)
  {
    assert s[j + d..j + d + |q|] == s[d..][j..j + |q|];
  }

  lemma OccursSuffix(s: string, q: string, d: nat)
    requires d <= |s|
    ensures Occurs(s[d..], q) ==> Occurs(s, q)
  {
    if Occurs(s[d..], q) {
      var j :| 0 <= j <= |s[d..]| - |q| && OccursAt(s[d..], q, j);
      OccursAtSuffix(s, q, d, j);
    }
  }

  /** An occurrence of `q` past the front part `a` is an occurrence in `x`. */
  lemma OccursAtShift(a: string, x: string, q: string, i: int)
    requires i >= |a|
    ensures OccursAt(a + x, q, i) <==> OccursAt(x, q, i - |a|)
  {
    if i + |q| <= |a + x| {
      assert (a + x)[i..i + |q|] == x[i - |a|..i - |a| + |q|];
    }
  }

  /** The first |u| characters of a rewritten text are copied from the input,
      unless a copy of `r` can start among them. */
  lemma {:induction false} CopiedPrefixOrSeam(t: string, p: string, r: string, u: string)
    requires |p| > 0
    requires IsPrefix(u, ReplaceAll(t, p, r))
    ensures IsPrefix(u, t) || !NoSeam(u, r)
    decreases |t|
  {
    if |u| == 0 || |t| < |p| {
    } else if t[..|p|] == p {
      var out := ReplaceAll(t, p, r);
      assert out == r + ReplaceAll(t[|p|..], p, r);
      var m := if |u| < |r| then |u| else |r|;
      assert u[..m] == out[..m];
      assert out[..m] == r[..m];
      assert u[0..] == u;
      assert Compatible(u[0..], r);
    } else {
      var rest := ReplaceAll(t[1..], p, r);
      assert ReplaceAll(t, p, r) == [t[0]] + rest;
      var u' := u[1..];
      assert u' == rest[..|u'|];
      CopiedPrefixOrSeam(t[1..], p, r, u');
      if !NoSeam(u', r) {
        var k :| 0 <= k < |u'| && Compatible(u'[k..], r);
        assert u'[k..] == u[k + 1..];
      } else {
        assert u == [t[0]] + u';
      }
    }
  }

  /** The first |u| characters of a rewritten text are copied from the input
      when no replacement text can start among them. */
  lemma CopiedPrefix(t: string, p: string, r: string, u: string)
    requires |p| > 0
    requires NoSeam(u, r)
    requires IsPrefix(u, ReplaceAll(t, p, r))
    ensures IsPrefix(u, t)
  {
    CopiedPrefixOrSeam(t, p, r, u);
  }

  /** A piece of text starting inside a copy of `r` is not `q` when no suffix
      of `r` lines up with `q`. */
  lemma AtReplacement(r: string, x: string, q: string, i: int)
    requires 0 <= i < |r|
    ensures OccursAt(r + x, q, i) ==> Compatible(r[i..], q)
  {
    if OccursAt(r + x, q, i) {
      var m := if |r| - i < |q| then |r| - i else |q|;
      assert (r + x)[i..i + m] == r[i..][..m];
      assert (r + x)[i..i + m] == q[..m];
    }
  }

  /** Occurrences of `q` after the rewrite, position by position. */
  lemma {:induction false} ReplaceAllExcludesAt(s: string, p: string, r: string, q: string, i: int)
    requires |p| > 0 && |q| > 0
    requires q == p || !Occurs(s, q)
    requires NoSeam(q[1..], r)
    requires forall k :: 0 <= k < |r| ==> !Compatible(r[k..], q)
    ensures !OccursAt(ReplaceAll(s, p, r), q, i)
    decreases |s|
  {
    var out := ReplaceAll(s, p, r);
    if |s| < |p| {
      assert out == s;
    } else if s[..|p|] == p {
      var x := ReplaceAll(s[|p|..], p, r);
      assert out == r + x;
      OccursSuffix(s, q, |p|);
      if i >= |r| {
        ReplaceAllExcludesAt(s[|p|..], p, r, q, i - |r|);
        OccursAtShift(r, x, q, i);
      } else if 0 <= i {
        AtReplacement(r, x, q, i);
      }
    } else {
      var y := ReplaceAll(s[1..], p, r);
      assert out == [s[0]] + y;
      OccursSuffix(s, q, 1);
      if i == 0 {
        AtUncopied(s, p, r, q);
      } else if i > 0 {
        ReplaceAllExcludesAt(s[1..], p, r, q, i - 1);
        OccursAtShift([s[0]], y, q, i);
      }
    }
  }

  /** At a position where `p` does not start, the rewrite copies one
      character; `q` cannot start there unless it started there before. */
  lemma AtUncopied(s: string, p: string, r: string, q: string)
    requires |p| > 0 && |q| > 0
    requires |s| >= |p| && s[..|p|] != p
    requires NoSeam(q[1..], r)
    ensures OccursAt(ReplaceAll(s, p, r), q, 0) ==> OccursAt(s, q, 0)
  {
    var y := ReplaceAll(s[1..], p, r);
    var out := ReplaceAll(s, p, r);
    assert out == [s[0]] + y;
    if OccursAt(out, q, 0) {
      assert IsPrefix(q[1..], y) by {
        assert y[..|q| - 1] == out[1..|q|];
      }
      CopiedPrefix(s[1..], p, r, q[1..]);
      assert s[..|q|] == [s[0]] + s[1..][..|q| - 1];
    }
  }

  /** After replacing `p` by `r` everywhere, `q` does not occur, provided `q`
      either is `p` or did not occur before, and no copy of `r` can line up
      with a piece of `q`. */
  lemma ReplaceAllExcludes(s: string, p: string, r: string, q: string)
    requires |p| > 0 && |q| > 0
    requires q == p || !Occurs(s, q)
    requires NoSeam(q[1..], r)
    requires forall k :: 0 <= k < |r| ==> !Compatible(r[k..], q)
    ensures !Occurs(ReplaceAll(s, p, r), q)
  {
    forall i ensures !OccursAt(ReplaceAll(s, p, r), q, i) {
      ReplaceAllExcludesAt(s, p, r, q, i);
    }
  }

  /** A text without the pattern comes back unchanged. */
  lemma {:induction false} ReplaceAllIdentity(s: string, p: string, r: string)
    requires |p| > 0
    requires !Occurs(s, p)
    ensures ReplaceAll(s, p, r) == s
    decreases |s|
  {
    if |s| >= |p| {
      assert !OccursAt(s, p, 0);
      OccursSuffix(s, p, 1);
      ReplaceAllIdentity(s[1..], p, r);
      assert s == [s[0]] + s[1..];
    }
  }

  /** Replacing a pattern that the text is built around: text with no
      occurrence of `p`, then `p`, then text again loses exactly that `p`. */
  lemma {:induction false} ReplaceAllPrefixedOnce(t: string, p: string, r: string)
    requires |p| > 0
    requires !Occurs(t, p)
    ensures ReplaceAll(p + t, p, r) == r + t
  {
    assert (p + t)[..|p|] == p;
    assert (p + t)[|p|..] == t;
    ReplaceAllIdentity(t, p, r);
  }
}
