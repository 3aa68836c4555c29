/** The string operations the reconciliation relies on, written with Python's
    meaning: substring membership and `find`, `replace(marker, '')`,
    `split(';')`, `rsplit('\\', 1)` and an ASCII stand-in for `upper()`. */
module Text {
  import opened Wrappers

  // ---------------------------------------------------------------------------
  // Upper-casing (ASCII only)
  // ---------------------------------------------------------------------------

  /** Maps `a`..`z` to `A`..`Z` and leaves every other character alone. */
  function UpperChar(c: char): (u: char)
    ensures 'a' <= c <= 'z' ==> 'A' <= u <= 'Z' && u as int == c as int - 32
    ensures !('a' <= c <= 'z') ==> u == c
  {
    if 'a' <= c <= 'z' then (c as int - 32) as char else c
  }

  function Upper(s: string): (u: string)
    ensures |u| == |s|
    ensures forall i :: 0 <= i < |s| ==> u[i] == UpperChar(s[i])
  {
    seq(|s|, i requires 0 <= i < |s| => UpperChar(s[i]))
  }

  /** True of a string that `Upper` leaves unchanged. */
  predicate IsUpper(s: string) {
    forall i :: 0 <= i < |s| ==> !('a' <= s[i] <= 'z')
  }

  /** Upper-casing yields an upper-case string, and only upper-case strings
      are fixed points of it. */
  lemma UpperIsUpper(s: string)
    ensures IsUpper(Upper(s))
    ensures Upper(Upper(s)) == Upper(s)
    ensures IsUpper(s) <==> Upper(s) == s
  {
    if !IsUpper(s) {
      var i :| 0 <= i < |s| && 'a' <= s[i] <= 'z';
      assert Upper(s)[i] != s[i];
    }
  }

  // ---------------------------------------------------------------------------
  // Substring search
  // ---------------------------------------------------------------------------

  predicate StartsWith(s: string, p: string) {
    |p| <= |s| && s[..|p|] == p
  }

  /** Python's `p in s` for strings: `p` starts here or somewhere later. */
  predicate Contains(s: string, p: string)
    decreases |s|
  {
    StartsWith(s, p) || (|s| > 0 && Contains(s[1..], p))
  }

  /** Python's `s.find(p)`: the first position at which `p` occurs, and
      nothing exactly when `p in s` is false. */
  function Find(s: string, p: string): (r: Option<nat>)
    decreases |s|
    ensures r.Some? <==> Contains(s, p)
    ensures r.Some? ==> r.value <= |s| && StartsWith(s[r.value..], p)
    ensures r.Some? ==> forall i :: 0 <= i < r.value ==> !StartsWith(s[i..], p)
    ensures r.None? ==> forall i :: 0 <= i <= |s| ==> !StartsWith(s[i..], p)
  {
    if StartsWith(s, p) then Some(0)
    else if |s| == 0 then None
    else
      match Find(s[1..], p)
      case None =>
        assert forall i :: 1 <= i <= |s| ==> s[i..] == s[1..][i - 1..];
        None
      case Some(k) =>
        assert forall i :: 1 <= i <= k ==> s[i..] == s[1..][i - 1..];
        assert s[k + 1..] == s[1..][k..];
        Some(k + 1)
  }

  /** `p in s` holds exactly when `p` starts at some position of `s`. */
  lemma ContainsIff(s: string, p: string)
    ensures Contains(s, p) <==> exists i :: 0 <= i <= |s| && StartsWith(s[i..], p)
  {
    var r := Find(s, p);
  }

  /** An occurrence inside `b` is also an occurrence inside `a + b`. */
  lemma {:induction false} ContainsAppendLeft(a: string, b: string, p: string)
    requires Contains(b, p)
    ensures Contains(a + b, p)
  {
    if |a| == 0 {
      assert a + b == b;
    } else {
      ContainsAppendLeft(a[1..], b, p);
      assert (a + b)[1..] == a[1..] + b;
    }
  }

  /** A pattern whose last character occurs nowhere else in it, such as
      `.gdb\` and `.sde\`. Such a pattern cannot begin inside a clean
      prefix and end inside a later copy of itself. */
  predicate LastCharUnique(m: string) {
    |m| > 0 && forall i :: 0 <= i < |m| - 1 ==> m[i] != m[|m| - 1]
  }

  /** No occurrence of `m` starts inside `a` when `a` is free of `m` and is
      directly followed by `m`. */
  lemma NoMatchInsideCleanPrefix(a: string, m: string, rest: string, i: nat)
    requires LastCharUnique(m)
    requires !Contains(a, m)
    requires i < |a|
    ensures !StartsWith((a + m + rest)[i..], m)
  {
    ContainsIff(a, m);
    var s := a + m + rest;
    if i + |m| <= |a| {
      assert s[i..][..|m|] == a[i..][..|m|];
    } else {
      var j := i + |m| - 1;
      assert |a| <= j < |a| + |m| - 1;
      assert s[i..][|m| - 1] == s[j] == m[j - |a|];
    }
  }

  /** `find` in `a + m + rest` lands right after a prefix free of `m`. */
  lemma FindAfterCleanPrefix(a: string, m: string, rest: string)
    requires LastCharUnique(m)
    requires !Contains(a, m)
    ensures Find(a + m + rest, m) == Some(|a|)
  {
    var s := a + m + rest;
    assert s[|a|..][..|m|] == m;
    forall i | 0 <= i < |a|
      ensures !StartsWith(s[i..], m)
    {
      NoMatchInsideCleanPrefix(a, m, rest, i);
    }
  }

  // ---------------------------------------------------------------------------
  // Removal of every occurrence: Python's `s.replace(p, '')`
  // ---------------------------------------------------------------------------

  /** Scans left to right and drops every non-overlapping occurrence of `p`. */
  function RemoveAll(s: string, p: string): (r: string)
    requires |p| > 0
    decreases |s|
    ensures |r| <= |s|
  {
    if |s| == 0 then []
    else if StartsWith(s, p) then RemoveAll(s[|p|..], p)
    else [s[0]] + RemoveAll(s[1..], p)
  }

  /** A string without `p` is left unchanged. */
  lemma {:induction false} RemoveAllAbsent(s: string, p: string)
    requires |p| > 0
    requires !Contains(s, p)
    ensures RemoveAll(s, p) == s
  {
    if |s| > 0 {
      assert s[0..] == s;
      assert !StartsWith(s, p);
      RemoveAllAbsent(s[1..], p);
      assert [s[0]] + s[1..] == s;
    }
  }

  /** A leading `p` is dropped and removal carries on after it. */
  lemma RemoveAllLeading(p: string, rest: string)
    requires |p| > 0
    ensures RemoveAll(p + rest, p) == RemoveAll(rest, p)
  {
    assert (p + rest)[..|p|] == p;
    assert (p + rest)[|p|..] == rest;
  }

  /** Removal passes over a prefix free of `m` unchanged when `m` follows
      it; this is what makes `replace` remove the marker exactly where
      `find` found it. */
  lemma {:induction false} RemoveAllAfterCleanPrefix(a: string, m: string, rest: string)
    requires LastCharUnique(m)
    requires !Contains(a, m)
    ensures RemoveAll(a + m + rest, m) == a + RemoveAll(rest, m)
  {
    if |a| == 0 {
      assert a + m + rest == m + rest;
      RemoveAllLeading(m, rest);
    } else {
      var s := a + m + rest;
      NoMatchInsideCleanPrefix(a, m, rest, 0);
      assert s[0..] == s;
      RemoveAllAfterCleanPrefix(a[1..], m, rest);
      assert s[1..] == a[1..] + m + rest;
      assert [a[0]] + a[1..] == a;
    }
  }

  // ---------------------------------------------------------------------------
  // Splitting on a separator: Python's `s.split(';')`
  // ---------------------------------------------------------------------------

  /** Glues tokens back together with `sep` between neighbours. */
  function Join(ts: seq<string>, sep: char): string
    requires |ts| >= 1
  {
    if |ts| == 1 then ts[0] else ts[0] + [sep] + Join(ts[1..], sep)
  }

  /** Python's `s.split(sep)`: at least one token, empty tokens kept, and
      joining the tokens with `sep` gives back `s`. */
  function Split(s: string, sep: char): (r: seq<string>)
    decreases |s|
    ensures |r| >= 1
    ensures forall k :: 0 <= k < |r| ==> sep !in r[k]
    ensures Join(r, sep) == s
    ensures |r| == 1 <==> sep !in s
  {
    if |s| == 0 then [""]
    else
      var rest := Split(s[1..], sep);
      if s[0] == sep then
        assert [sep] + s[1..] == s;
        [""] + rest
      else
        var r := [[s[0]] + rest[0]] + rest[1..];
        assert r[1..] == rest[1..];
        assert [s[0]] + s[1..] == s;
        r
  }

  /** A token free of `sep` followed by `sep` splits off as the first token. */
  lemma {:induction false} SplitLeadingToken(t: string, sep: char, rest: string)
    requires sep !in t
    ensures Split(t + [sep] + rest, sep) == [t] + Split(rest, sep)
  {
    if |t| == 0 {
      assert t + [sep] + rest == [sep] + rest;
      assert ([sep] + rest)[1..] == rest;
    } else {
      var s := t + [sep] + rest;
      assert s[1..] == t[1..] + [sep] + rest;
      SplitLeadingToken(t[1..], sep, rest);
      assert [t[0]] + t[1..] == t;
    }
  }

  /** Splitting undoes joining whenever no token holds the separator. */
  lemma {:induction false} SplitJoin(ts: seq<string>, sep: char)
    requires |ts| >= 1
    requires forall k :: 0 <= k < |ts| ==> sep !in ts[k]
    ensures Split(Join(ts, sep), sep) == ts
  {
    if |ts| == 1 {
      var r := Split(ts[0], sep);
      assert Join(r, sep) == ts[0];
    } else {
      SplitLeadingToken(ts[0], sep, Join(ts[1..], sep));
      SplitJoin(ts[1..], sep);
      assert [ts[0]] + ts[1..] == ts;
    }
  }

  // ---------------------------------------------------------------------------
  // Splitting at the last separator: Python's `s.rsplit(c, 1)`
  // ---------------------------------------------------------------------------

  /** Python's `s.rfind(c)` for a single character. */
  function LastIndexOf(s: string, c: char): (r: Option<nat>)
    ensures r.Some? ==> r.value < |s| && s[r.value] == c
    ensures r.Some? ==> forall j :: r.value < j < |s| ==> s[j] != c
    ensures r.None? <==> c !in s
  {
    if |s| == 0 then None
    else if s[|s| - 1] == c then Some(|s| - 1)
    else
      assert forall j :: 0 <= j < |s| - 1 ==> s[..|s| - 1][j] == s[j];
      LastIndexOf(s[..|s| - 1], c)
  }

  /** `rsplit(c, 1)` when `c` occurs: the text before the last `c` and the
      text after it. */
  function SplitLast(s: string, c: char): (r: Option<(string, string)>)
    ensures r.None? <==> c !in s
    ensures r.Some? ==> r.value.0 + [c] + r.value.1 == s
    ensures r.Some? ==> c !in r.value.1
  {
    match LastIndexOf(s, c)
    case None => None
    case Some(k) =>
      assert s[..k] + [c] + s[k + 1..] == s;
      Some((s[..k], s[k + 1..]))
  }

  /** The split point is the last separator: whatever follows a separator
      in a string free of it is exactly what comes back. */
  lemma SplitLastOfJoin(head: string, c: char, tail: string)
    requires c !in tail
    ensures SplitLast(head + [c] + tail, c) == Some((head, tail))
  {
    var s := head + [c] + tail;
    assert s[|head|] == c;
    assert forall j :: |head| < j < |s| ==> s[j] == tail[j - |head| - 1];
    assert s[..|head|] == head;
    assert s[|head| + 1..] == tail;
  }
}
