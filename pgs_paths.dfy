/** Path helpers of the PGS muxer (PGSEncoder/main.c): `matchchar` and
    `getabsolutepath`, which walk NUL-terminated `char` arrays with index
    variables. A C string is modelled as a `string` without NUL characters;
    the working directory that `getcwd` would return is a parameter. */
module PgsPaths {
  import opened Wrappers

  predicate NoNul(s: string)
  {
    forall i :: 0 <= i < |s| ==> s[i] != '\0'
  }

  /** q occurs in f starting at position p. */
  predicate PrefixAt(f: string, q: string, p: nat)
  {
    p + |q| <= |f| && f[p..p + |q|] == q
  }

  /** `matchchar(f, q, p)`: compares q with f from p on, character by
      character, until q's terminator; f's terminator never equals a
      character of q, so a q running past the end of f is a mismatch. */
  method MatchChar(f: string, q: string, p: nat) returns (r: bool)
    requires p <= |f| && NoNul(f) && NoNul(q)
    ensures r <==> PrefixAt(f, q, p)
  {
    var c := 0;
    while true
      invariant 0 <= c <= |q| && p + c <= |f|
      invariant f[p..p + c] == q[..c]
      decreases |q| - c
    {
      if c == |q| {
        assert q[..c] == q;
        return true;
      }
      if p + c == |f| || f[p + c] != q[c] {
        return false;
      }
      c := c + 1;
    }
  }

  /** Largest j < k with s[j] == '/', or -1. */
  function LastSlash(s: string, k: nat): (j: int)
    requires k <= |s|
    ensures -1 <= j < k
    ensures j >= 0 ==> s[j] == '/'
    ensures forall m :: j < m < k ==> s[m] != '/'
  {
    if k == 0 then -1 else if s[k - 1] == '/' then k - 1 else LastSlash(s, k - 1)
  }

  /** A directory prefix as `getabsolutepath` keeps it in `ap[0..pl)`. */
  predicate IsDir(d: string)
  {
    |d| > 0 && d[0] == '/' && d[|d| - 1] == '/'
  }

  /** One `../`: drop the trailing '/' and everything back to the previous
      '/'. For "/" the source reads `ap[-1]`, before its buffer: None. */
  function ParentDir(d: string): (r: Option<string>)
    requires IsDir(d)
    ensures r.Some? ==> IsDir(r.value) && |r.value| < |d| && r.value == d[..|r.value|]
    ensures r.None? <==> |d| == 1
  {
    if |d| == 1 then None else Some(d[..LastSlash(d, |d| - 1) + 1])
  }

  /** The loop of `getabsolutepath` from position i of the relative path,
      with d the directory built so far. */
  function Resolve(d: string, rp: string, i: nat): (r: Option<string>)
    requires IsDir(d) && i <= |rp|
    decreases |rp| - i
  {
    if PrefixAt(rp, "../", i) then
      match ParentDir(d)
      case None => None
      case Some(p) => Resolve(p, rp, i + 3)
    else if PrefixAt(rp, "./", i) then Resolve(d, rp, i + 2)
    else if PrefixAt(rp, "/", i) then Some(rp[i..])
    else Some(d + rp[i..])
  }

  /** The working directory with a '/' appended when it does not end in one. */
  function WithSlash(cwd: string): (d: string)
    requires |cwd| > 0 && cwd[0] == '/'
    ensures IsDir(d)
  {
    if cwd[|cwd| - 1] != '/' then cwd + "/" else cwd
  }

  function AbsolutePath(cwd: string, rp: string): Option<string>
    requires |cwd| > 0 && cwd[0] == '/'
  {
    Resolve(WithSlash(cwd), rp, 0)
  }

  /** One `../` applied to the directory in `ap[0..pl)`: the new length of
      the directory, or 0 when the source would read before the buffer. */
  method StepUp(ap: array<char>, pl: nat) returns (npl: nat)
    requires pl <= ap.Length && IsDir(ap[..pl])
    ensures npl == 0 <==> pl == 1
    ensures npl > 0 ==> npl <= pl && ParentDir(ap[..pl]) == Some(ap[..npl])
  {
    ghost var d := ap[..pl];
    npl := pl - 1;
    if npl == 0 {
      return;
    }
    while ap[npl - 1] != '/'
      invariant 1 <= npl <= |d| - 1
      invariant LastSlash(d, npl) == LastSlash(d, |d| - 1)
      decreases npl
    {
      npl := npl - 1;
    }
    assert d[..npl] == ap[..npl];
  }

  /** The final copy loop: the rest of the relative path and its terminator
      are written after the directory in `ap[0..pl)`. */
  method CopyRest(ap: array<char>, pl: nat, rp: string, i: nat) returns (npl: nat)
    requires i <= |rp| && pl + |rp| - i < ap.Length
    modifies ap
    ensures npl == pl + |rp| - i && ap[..npl] == old(ap[..pl]) + rp[i..]
  {
    ghost var prefix := ap[..pl];
    npl := pl;
    var k := i;
    while k < |rp|
      invariant i <= k <= |rp| && npl == pl + (k - i)
      invariant ap[..npl] == prefix + rp[i..k]
    {
      ap[npl] := rp[k];
      k := k + 1;
      npl := npl + 1;
    }
    ap[npl] := '\0';
    assert rp[i..k] == rp[i..];
  }

  /** The start of `getabsolutepath`: the working directory copied into a
      fresh buffer of `size` characters, with a slash added when it does not
      end in one; `pl` is the length written. */
  method WorkingDirectory(cwd: string, size: nat) returns (ap: array<char>, pl: nat)
    requires |cwd| > 0 && cwd[0] == '/' && NoNul(cwd) && size >= |cwd| + 2
    ensures fresh(ap) && ap.Length == size
    ensures 1 <= pl <= |cwd| + 1 && ap[..pl] == WithSlash(cwd)
  {
    ap := new char[size];
    // getcwd(ap, 512)
    var k := 0;
    while k < |cwd|
      invariant 0 <= k <= |cwd|
      invariant ap[..k] == cwd[..k]
    {
      ap[k] := cwd[k];
      k := k + 1;
    }
    ap[|cwd|] := '\0';
    pl := 0;
    while ap[pl] != '\0'
      invariant 0 <= pl <= |cwd|
      invariant ap[..|cwd|] == cwd && ap[|cwd|] == '\0'
      decreases |cwd| - pl
    {
      pl := pl + 1;
    }
    if ap[pl - 1] != '/' {
      ap[pl] := '/';
      pl := pl + 1;
    }
  }

  /** `getabsolutepath(rp, ap)`, writing into a buffer `ap` as the source does. */
  method GetAbsolutePath(cwd: string, rp: string) returns (r: Option<string>)
    requires |cwd| > 0 && cwd[0] == '/' && NoNul(cwd) && NoNul(rp)
    ensures r == AbsolutePath(cwd, rp)
  {
    var ap, pl := WorkingDirectory(cwd, |cwd| + |rp| + 2);
    var found, npl, i := ResolvePrefix(ap, pl, rp);
    if !found {
      return None;
    }
    npl := CopyRest(ap, npl, rp, i);
    r := Some(ap[..npl]);
  }

  /** The loop over the leading `../` and `./` segments: the directory
      left in `ap[0..pl)` and the index of the text to append, or not found
      when a `../` climbs above the root. A text starting with '/' empties
      the directory. */
  method ResolvePrefix(ap: array<char>, pl0: nat, rp: string) returns (found: bool, pl: nat, i: nat)
    requires 1 <= pl0 <= ap.Length && IsDir(ap[..pl0]) && NoNul(rp)
    ensures pl <= pl0 && i <= |rp|
    ensures !found ==> Resolve(ap[..pl0], rp, 0) == None
    ensures found ==> Resolve(ap[..pl0], rp, 0) == Some(ap[..pl] + rp[i..])
  {
    pl, i := pl0, 0;
    while true
      invariant 0 <= i <= |rp| && 1 <= pl <= pl0
      invariant IsDir(ap[..pl])
      invariant Resolve(ap[..pl], rp, i) == Resolve(ap[..pl0], rp, 0)
      decreases |rp| - i
    {
      var up := MatchChar(rp, "../", i);
      if up {
        i := i + 3;
        pl := StepUp(ap, pl);
        if pl == 0 {
          return false, pl, i;
        }
        continue;
      }
      var here := MatchChar(rp, "./", i);
      if here {
        i := i + 2;
        continue;
      }
      var root := MatchChar(rp, "/", i);
      if root {
        pl := 0;
        assert ap[..pl] + rp[i..] == rp[i..];
      }
      return true, pl, i;
    }
  }

  /** The result, when there is one, is an absolute path. */
  lemma {:induction false} ResolveIsAbsolute(d: string, rp: string, i: nat)
    requires IsDir(d) && i <= |rp|
    ensures Resolve(d, rp, i).Some? ==> |Resolve(d, rp, i).value| > 0 && Resolve(d, rp, i).value[0] == '/'
    decreases |rp| - i
  {
    if PrefixAt(rp, "../", i) {
      if ParentDir(d).Some? {
        ResolveIsAbsolute(ParentDir(d).value, rp, i + 3);
      }
    } else if PrefixAt(rp, "./", i) {
      ResolveIsAbsolute(d, rp, i + 2);
    } else if PrefixAt(rp, "/", i) {
      assert rp[i..][0] == rp[i];
    }
  }

  /** Leading `./` and `../` segments are consumed; whatever text follows is
      kept verbatim. The result is that text itself when it starts with '/',
      and otherwise the directory reached, followed by that text. */
  lemma {:induction false} ResolveKeepsRest(d: string, rp: string, i: nat)
    requires IsDir(d) && i <= |rp|
    ensures Resolve(d, rp, i).Some? ==>
      exists j, e :: i <= j <= |rp| && IsDir(e) &&
        Resolve(d, rp, i).value == (if PrefixAt(rp, "/", j) then rp[j..] else e + rp[j..])
    decreases |rp| - i
  {
    if PrefixAt(rp, "../", i) {
      if ParentDir(d).Some? {
        ResolveKeepsRest(ParentDir(d).value, rp, i + 3);
      }
    } else if PrefixAt(rp, "./", i) {
      ResolveKeepsRest(d, rp, i + 2);
    } else {
      assert i <= i <= |rp| && IsDir(d);
    }
  }

  /** A path that starts with '/' is returned unchanged. */
  lemma AbsoluteInputUnchanged(cwd: string, rp: string)
    requires |cwd| > 0 && cwd[0] == '/'
    requires |rp| > 0 && rp[0] == '/'
    ensures AbsolutePath(cwd, rp) == Some(rp)
  {
    assert !PrefixAt(rp, "../", 0) && !PrefixAt(rp, "./", 0);
    assert PrefixAt(rp, "/", 0);
    assert rp[0..] == rp;
  }

  /** A path with no leading '.' or '/' is appended to the working directory,
      with exactly one '/' between them. */
  lemma RelativeInputAppended(cwd: string, rp: string)
    requires |cwd| > 0 && cwd[0] == '/'
    requires |rp| > 0 && rp[0] != '.' && rp[0] != '/'
    ensures AbsolutePath(cwd, rp) == Some(WithSlash(cwd) + rp)
  {
    assert !PrefixAt(rp, "../", 0) && !PrefixAt(rp, "./", 0) && !PrefixAt(rp, "/", 0);
    assert rp[0..] == rp;
  }

  /** Shifting the relative path does not change how it resolves. */
  lemma {:induction false} ResolveShift(d: string, x: string, rp: string, i: nat)
    requires IsDir(d) && i <= |rp|
    ensures Resolve(d, x + rp, |x| + i) == Resolve(d, rp, i)
    decreases |rp| - i
  {
    var s := x + rp;
    assert forall q: string :: PrefixAt(s, q, |x| + i) <==> PrefixAt(rp, q, i) by {
      forall q: string ensures PrefixAt(s, q, |x| + i) <==> PrefixAt(rp, q, i) {
        if |x| + i + |q| <= |s| {
          assert s[|x| + i..|x| + i + |q|] == rp[i..i + |q|];
        }
      }
    }
    assert s[|x| + i..] == rp[i..];
    if PrefixAt(rp, "../", i) {
      if ParentDir(d).Some? {
        ResolveShift(ParentDir(d).value, x, rp, i + 3);
      }
    } else if PrefixAt(rp, "./", i) {
      ResolveShift(d, x, rp, i + 2);
    }
  }

  /** A leading "./" is ignored. */
  lemma DotSlashIgnored(cwd: string, rp: string)
    requires |cwd| > 0 && cwd[0] == '/'
    ensures AbsolutePath(cwd, "./" + rp) == AbsolutePath(cwd, rp)
  {
    var s := "./" + rp;
    assert s[1] == '/';
    assert !PrefixAt(s, "../", 0);
    assert PrefixAt(s, "./", 0);
    ResolveShift(WithSlash(cwd), "./", rp, 0);
  }

  /** A leading "../" resolves the rest against the parent directory. */
  lemma DotDotSlashIsParent(cwd: string, rp: string)
    requires |cwd| > 0 && cwd[0] == '/'
    ensures AbsolutePath(cwd, "../" + rp) ==
      match ParentDir(WithSlash(cwd))
      case None => None
      case Some(p) => Resolve(p, rp, 0)
  {
    var s := "../" + rp;
    assert PrefixAt(s, "../", 0);
    if ParentDir(WithSlash(cwd)).Some? {
      ResolveShift(ParentDir(WithSlash(cwd)).value, "../", rp, 0);
    }
  }
}
