/** The program's version string (`version::get`, config/src/version.cpp):
    the base version, then "-channel" when there is a release channel, then
    "-" and the short commit hash when the build knows its git state, and
    "-dirty" after it when the work tree had uncommitted changes. The
    string is computed on the first call and kept. */
module Version {
  import opened Wrappers

  /** The build constants the string is made of. */
  datatype BuildInfo = BuildInfo(
    version: string,
    channel: string,
    gitSha1: string,
    gitHasInfo: bool,
    gitIsDirty: bool)

  /** `git_sha1.substr(0, 8)`: at most the first eight characters. */
  function ShortSha(sha: string): (s: string)
    ensures |s| == if |sha| < 8 then |sha| else 8
    ensures s == sha[..|s|]
  {
    if |sha| < 8 then sha else sha[..8]
  }

  /** How many characters the channel adds. */
  function ChannelLength(info: BuildInfo): nat
  {
    if info.channel == [] then 0 else 1 + |info.channel|
  }

  /** How many characters the git state adds. */
  function GitLength(info: BuildInfo): nat
  {
    if !info.gitHasInfo then 0
    else 1 + |ShortSha(info.gitSha1)| + (if info.gitIsDirty then 6 else 0)
  }

  /** The layout of the version string: the base version first; the
      channel after a dash exactly when it is not empty; the short hash
      after a dash exactly when git information is present, followed by
      "-dirty" exactly when the tree is also dirty; nothing else. */
  predicate Shaped(info: BuildInfo, v: string)
  {
    var b := |info.version|;
    var o := b + ChannelLength(info);
    var h := ShortSha(info.gitSha1);
    && |v| == o + GitLength(info)
    && v[..b] == info.version
    && (info.channel != [] ==> v[b] == '-' && v[b + 1..o] == info.channel)
    && (info.gitHasInfo ==>
          && v[o] == '-' && v[o + 1..o + 1 + |h|] == h
          && (info.gitIsDirty ==> v[o + 1 + |h|..] == "-dirty"))
  }

  /** The string is appended piece by piece, as the `stringstream` does. */
  method Calculate(info: BuildInfo) returns (v: string)
    ensures Shaped(info, v)
  {
    var b := |info.version|;
    v := info.version;
    if info.channel != [] {
      v := v + "-" + info.channel;
      assert v[..b] == info.version;
      assert v[b + 1..] == info.channel;
    }
    var o := |v|;
    assert v[..b] == info.version;
    if info.gitHasInfo {
      var h := ShortSha(info.gitSha1);
      var before := v;
      v := v + "-" + h;
      assert v[..o] == before;
      assert v[o + 1..] == h;
      if info.gitIsDirty {
        var hashed := v;
        v := v + "-dirty";
        assert v[..o + 1 + |h|] == hashed;
        assert v[o + 1 + |h|..] == "-dirty";
      }
      assert v[..o] == before;
    }
  }

  /** The layout leaves no freedom: two strings that have it are equal, so
      it is a complete description of the version string. */
  lemma ShapedUnique(info: BuildInfo, a: string, c: string)
    requires Shaped(info, a) && Shaped(info, c)
    ensures a == c
  {
    var b := |info.version|;
    var o := b + ChannelLength(info);
    var h := ShortSha(info.gitSha1);
    forall i | 0 <= i < |a|
      ensures a[i] == c[i]
    {
      if i < b {
        assert a[..b][i] == c[..b][i];
      } else if i < o {
        if i > b {
          assert a[b + 1..o][i - b - 1] == c[b + 1..o][i - b - 1];
        }
      } else if i == o {
      } else if i < o + 1 + |h| {
        assert a[o + 1..o + 1 + |h|][i - o - 1] == c[o + 1..o + 1 + |h|][i - o - 1];
      } else {
        assert a[o + 1 + |h|..][i - o - 1 - |h|] == c[o + 1 + |h|..][i - o - 1 - |h|];
      }
    }
  }

  /** The function-local static that holds the string once computed. */
  class VersionCache {
    const info: BuildInfo
    var cached: Option<string>

    /** A string held has the layout. */
    predicate Valid()
      reads this
    {
      cached.Some? ==> Shaped(info, cached.value)
    }

    constructor (info0: BuildInfo)
      ensures info == info0 && cached == None && Valid()
    {
      info := info0;
      cached := None;
    }

    /** `version::get`: the first call computes the string, every later
        call returns the same one. */
    method Get() returns (v: string)
      requires Valid()
      modifies this
      ensures Valid() && cached == Some(v)
      ensures Shaped(info, v)
      ensures old(cached).Some? ==> v == old(cached).value
    {
      if cached.None? {
        var s := Calculate(info);
        cached := Some(s);
      }
      v := cached.value;
    }
  }

  /** Two calls give the same string. */
  method TwoCalls(cache: VersionCache) returns (first: string, second: string)
    requires cache.Valid()
    modifies cache
    ensures first == second
  {
    first := cache.Get();
    second := cache.Get();
  }
}
