/** The slash filter that runs over a path in place before it is compiled. */
module Slashes {
  import opened Strings
  import opened Rewriting

  /** Copies a string without a slash that follows a slash; seen says one came just before. */
  function Squeeze(seen: bool, s: string): string
    decreases |s|
  {
    if s == [] then []
    else if s[0] == '/' then (if seen then [] else ['/']) + Squeeze(true, s[1..])
    else [s[0]] + Squeeze(false, s[1..])
  }

  /** Exactly two leading slashes are a name space of their own. */
  predicate IsNamespace(s: string) {
    |s| >= 2 && s[0] == '/' && s[1] == '/' && (|s| > 2 ==> s[2] != '/')
  }

  function Filtered(s: string): string {
    if IsNamespace(s) then s[..2] + Squeeze(false, s[2..]) else Squeeze(false, s)
  }

  /** Filtering a path collapses its runs of slashes, but for the two slashes of a name space. */
  lemma {:induction false} SqueezeCollapses(s: string)
    ensures Squeeze(false, s) == Collapse(s)
    ensures ['/'] + Squeeze(true, s) == Collapse(['/'] + s)
  {
    var t := ['/'] + s;
    assert t[1..] == s;
    if s != [] {
      var rest := s[1..];
      SqueezeCollapses(rest);
      assert s == [s[0]] + rest;
      if s[0] == '/' {
        assert Squeeze(true, s) == [] + Squeeze(true, rest);
      } else {
        assert Collapse(s) == [s[0]] + Collapse(rest);
      }
    }
  }

  lemma FilteredCollapses(s: string)
    ensures Filtered(s) == if IsNamespace(s) then "//" + Collapse(s[2..]) else Collapse(s)
  {
    SqueezeCollapses(s);
    if IsNamespace(s) {
      SqueezeCollapses(s[2..]);
      assert s[..2] == "//";
    }
  }

  predicate NoDouble(s: string) {
    forall i :: 0 <= i < |s| - 1 ==> !(s[i] == '/' && s[i + 1] == '/')
  }

  lemma {:induction false} SqueezeHasNoDouble(seen: bool, s: string)
    ensures NoDouble(Squeeze(seen, s))
    ensures seen && Squeeze(seen, s) != [] ==> Squeeze(seen, s)[0] != '/'
    decreases |s|
  {
    if s != [] {
      SqueezeHasNoDouble(s[0] == '/', s[1..]);
    }
  }

  lemma {:induction false} SqueezeKeeps(seen: bool, s: string)
    requires NoDouble(s) && (seen && s != [] ==> s[0] != '/')
    ensures Squeeze(seen, s) == s
    decreases |s|
  {
    if s != [] {
      assert NoDouble(s[1..]) by {
        assert forall i :: 0 <= i < |s[1..]| ==> s[1..][i] == s[i + 1];
      }
      SqueezeKeeps(s[0] == '/', s[1..]);
    }
  }

  /** Filtering twice is filtering once. */
  lemma FilteringIsIdempotent(s: string)
    ensures Filtered(Filtered(s)) == Filtered(s)
  {
    var f := Filtered(s);
    if IsNamespace(s) {
      var t := Squeeze(false, s[2..]);
      SqueezeHasNoDouble(false, s[2..]);
      assert |s| > 2 ==> t != [] && t[0] == s[2..][0];
      assert f[..2] == s[..2] && f[2..] == t;
      SqueezeKeeps(false, t);
    } else {
      SqueezeHasNoDouble(false, s);
      SqueezeKeeps(false, f);
    }
  }

  lemma {:induction false} SqueezeKeepsLast(seen: bool, s: string)
    requires s != []
    ensures EndsInSlash(s) <==> Squeeze(seen, s) == [] || EndsInSlash(Squeeze(seen, s))
    ensures Squeeze(seen, s) == [] ==> seen && s[0] == '/'
    decreases |s|
  {
    if |s| > 1 {
      SqueezeKeepsLast(s[0] == '/', s[1..]);
      assert s[1..][|s| - 2] == s[|s| - 1];
    }
  }

  /** A path that ends in slashes still ends in one; only repeated slashes go. */
  lemma {:induction false} TrailingSlashStays(s: string)
    requires s != []
    ensures Filtered(s) != [] && (EndsInSlash(Filtered(s)) <==> EndsInSlash(s))
  {
    if IsNamespace(s) && |s| > 2 {
      SqueezeKeepsLast(false, s[2..]);
    } else {
      SqueezeKeepsLast(false, s);
    }
  }

  lemma ShortStays(s: string)
    requires |s| < 2
    ensures Filtered(s) == s
  {
    SqueezeKeeps(false, s);
  }

  /** What one turn of the filter adds to what it has written. */
  lemma SqueezeStep(seen: bool, s: string, k: nat, done: string)
    requires k < |s|
    ensures done + Squeeze(seen, s[k..]) ==
      if s[k] != '/' then (done + [s[k]]) + Squeeze(false, s[k + 1..])
      else if seen then done + Squeeze(true, s[k + 1..])
      else (done + ['/']) + Squeeze(true, s[k + 1..])
  {
    assert s[k..][0] == s[k] && s[k..][1..] == s[k + 1..];
    assert [] + Squeeze(true, s[k + 1..]) == Squeeze(true, s[k + 1..]);
  }

  /** n is the length of the C string in the buffer. */
  predicate IsCString(path: array<char>, n: int)
    reads path
  {
    0 <= n < path.Length && path[n] == '\0' && forall k :: 0 <= k < n ==> path[k] != '\0'
  }

  /** Where the filter stands: the front is written, the rest is still as it was. */
  ghost predicate Filtering(path: array<char>, n: int, s: string, sptr: int, dptr: int)
    reads path
  {
    && 0 <= dptr <= sptr <= n == |s| && n < path.Length && path[n] == '\0'
    && (forall k :: sptr <= k < n ==> path[k] == s[k] && path[k] != '\0')
    && (forall k :: 0 <= k < dptr ==> path[k] != '\0')
  }

  /** One turn over a character that is not the terminator. */
  method FilterOne(path: array<char>, ghost n: int, ghost s: string, sptr: int, dptr: int, seen: bool)
    returns (dptr': int, seen': bool)
    requires Filtering(path, n, s, sptr, dptr) && sptr < n
    modifies path
    ensures Filtering(path, n, s, sptr + 1, dptr')
    ensures path[..dptr'] + Squeeze(seen', s[sptr + 1..]) == old(path[..dptr]) + Squeeze(seen, s[sptr..])
  {
    ghost var done := path[..dptr];
    SqueezeStep(seen, s, sptr, done);
    var c := path[sptr];
    dptr', seen' := dptr, c == '/';
    if !(c == '/' && seen) {
      if dptr < sptr {
        path[dptr] := c;
      }
      dptr' := dptr + 1;
      assert path[..dptr'] == done + [c];
    }
  }

  /** The two-pointer loop, from where both pointers start. */
  method FilterFrom(path: array<char>, start: nat, ghost n: int, ghost s: string) returns (ghost m: int)
    requires IsCString(path, n) && start <= n && s == path[..n]
    modifies path
    ensures IsCString(path, m) && path[..m] == s[..start] + Squeeze(false, s[start..])
  {
    var sptr, dptr, seen := start, start, false;
    assert path[..start] == s[..start];
    while path[sptr] != '\0'
      invariant Filtering(path, n, s, sptr, dptr)
      invariant path[..dptr] + Squeeze(seen, s[sptr..]) == s[..start] + Squeeze(false, s[start..])
      decreases n - sptr
    {
      dptr, seen := FilterOne(path, n, s, sptr, dptr, seen);
      sptr := sptr + 1;
    }
    assert s[n..] == [];
    path[dptr] := '\0';
    return dptr;
  }

  method FilterSlashes(path: array<char>, ghost n: int) returns (ghost m: int)
    requires IsCString(path, n)
    modifies path
    ensures IsCString(path, m) && path[..m] == Filtered(old(path[..n]))
  {
    ghost var s := path[..n];
    if path[0] == '\0' || path[1] == '\0' {
      ShortStays(s);
      return n;
    }
    var start := 0;
    if path[0] == '/' && path[1] == '/' && path[2] != '/' {
      start := 2;
    }
    assert IsNamespace(s) <==> start == 2;
    assert s[..0] == [] && s[0..] == s;
    m := FilterFrom(path, start, n, s);
  }
}
