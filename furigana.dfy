/** Ruby markup in subtitle lines: a `{kanji|reading}` group prints the
    reading above the kanji. `getLineWithoutFurigana`, the same in
    subtitle-renderer/src/pngrenderer.cpp and SubtitleRenderer/pngrenderer.cpp,
    strips the markup with the pattern `\{(.*?)\|(.*?)\}` and records where
    each kanji ends up in the stripped line. Strings are sequences of
    characters, and positions and lengths count characters; `QString`
    counts UTF-16 code units, which differ for characters outside the Basic
    Multilingual Plane. */
module Furigana {
  import opened Wrappers
  import opened SrtText

  /** One match of the pattern found in the line: the indices of its `{`,
      of the `|` that ends the first group and of the closing `}`. */
  datatype Group = Group(open: nat, bar: nat, close: nat)

  /** What a `QRegularExpressionMatch` reports: where the whole match starts,
      its length, and the two captured texts. */
  datatype Match = Match(start: nat, length: nat, kanji: string, reading: string)

  /** The line as the global match cuts it: a code unit outside every match,
      or a whole match. */
  datatype Token = Unit(c: char) | Ruby(m: Match)

  /** What a furigana pair records: the kanji, the reading, where the kanji
      starts in the stripped line and how many units it has. */
  datatype Pair = Pair(kanji: string, furigana: string, startPos: int, length: nat)

  /** The first index from `from` on holding `c` or a line break (which `.`
      does not match), or the length of `s`. */
  function Scan(s: string, c: char, from: nat): (k: nat)
    requires from <= |s|
    ensures from <= k <= |s|
    decreases |s| - from
  {
    if from == |s| || s[from] == c || s[from] == '\n' then from else Scan(s, c, from + 1)
  }

  /** `Scan` stops at the first `c` or line break. */
  lemma {:induction false} ScanStops(s: string, c: char, from: nat)
    requires from <= |s|
    ensures var k := Scan(s, c, from);
      && (k < |s| ==> s[k] == c || s[k] == '\n')
      && forall j :: from <= j < k ==> s[j] != c && s[j] != '\n'
    decreases |s| - from
  {
    if from < |s| && s[from] != c && s[from] != '\n' {
      ScanStops(s, c, from + 1);
    }
  }

  /** The pattern could match from `open` with its bar at `bar` and its
      closing brace at `close`, laziness aside. */
  predicate Fits(s: string, open: int, bar: int, close: int)
  {
    && 0 <= open < bar < close < |s|
    && s[open] == '{' && s[bar] == '|' && s[close] == '}'
    && '\n' !in s[open..close]
  }

  /** The pattern tried at index `i`. Both groups are lazy, so the first group
      ends at the first bar and the match at the first closing brace after it. */
  function MatchAt(s: string, i: nat): (r: Option<Group>)
    requires i < |s|
    ensures r.Some? ==> r.value.open == i < r.value.bar < r.value.close < |s|
  {
    if s[i] != '{' then None
    else
      var b := Scan(s, '|', i + 1);
      if b == |s| || s[b] != '|' then None
      else
        var c := Scan(s, '}', b + 1);
        if c == |s| || s[c] != '}' then None
        else Some(Group(i, b, c))
  }

  /** A lazy match: the first bar after the brace, then the first closing
      brace after it, all on one line. */
  lemma MatchAtSound(s: string, i: nat)
    requires i < |s| && MatchAt(s, i).Some?
    ensures var g := MatchAt(s, i).value;
      && Fits(s, i, g.bar, g.close)
      && '|' !in s[i + 1..g.bar] && '}' !in s[g.bar + 1..g.close]
  {
    var g := MatchAt(s, i).value;
    assert g.bar == Scan(s, '|', i + 1) && g.close == Scan(s, '}', g.bar + 1);
    ScanStops(s, '|', i + 1);
    ScanStops(s, '}', g.bar + 1);
    assert forall j :: i < j < g.close ==> s[j] != '\n';
  }

  /** Whenever the pattern can match at `i` at all, the lazy match is found. */
  lemma MatchAtComplete(s: string, i: nat, bar: int, close: int)
    requires Fits(s, i, bar, close)
    ensures MatchAt(s, i).Some?
  {
    forall j | i < j < close
      ensures s[j] != '\n'
    {
      assert s[j] == s[i..close][j - i];
    }
    var b := Scan(s, '|', i + 1);
    ScanStops(s, '|', i + 1);
    var c := Scan(s, '}', b + 1);
    ScanStops(s, '}', b + 1);
  }

  /** The match object for a group. */
  function MatchOf(s: string, g: Group): Match
    requires g.open < g.bar < g.close < |s|
  {
    Match(g.open, g.close + 1 - g.open, s[g.open + 1..g.bar], s[g.bar + 1..g.close])
  }

  /** The line from `from` on as `globalMatch` walks it: the leftmost match,
      then on after its end; a unit that starts no match stays as it is. */
  function Tokens(s: string, from: nat): seq<Token>
    requires from <= |s|
    decreases |s| - from
  {
    if from == |s| then []
    else
      match MatchAt(s, from)
      case Some(g) => [Ruby(MatchOf(s, g))] + Tokens(s, g.close + 1)
      case None => [Unit(s[from])] + Tokens(s, from + 1)
  }

  /** The matches among the tokens, in order. */
  function Matches(ts: seq<Token>): seq<Match>
  {
    if ts == [] then []
    else if ts[0].Ruby? then [ts[0].m] + Matches(ts[1..])
    else Matches(ts[1..])
  }

  /** `line.split(furiganaCapture).join("|")`: every match becomes one bar. */
  function Placeholders(ts: seq<Token>): string
  {
    if ts == [] then []
    else (match ts[0] case Unit(c) => [c] case Ruby(_) => "|") + Placeholders(ts[1..])
  }

  /** The line as meant to be shown: every match replaced by its kanji. */
  function Stripped(ts: seq<Token>): string
  {
    if ts == [] then []
    else (match ts[0] case Unit(c) => [c] case Ruby(m) => m.kanji) + Stripped(ts[1..])
  }

  /** No bar outside the matches. */
  predicate StrayFree(ts: seq<Token>)
  {
    forall i :: 0 <= i < |ts| ==> ts[i] != Unit('|')
  }

  /** How many units of the line a token takes. */
  function Width(t: Token): nat
  {
    match t
    case Unit(_) => 1
    case Ruby(m) => m.length
  }

  /** What the lexing guarantees of the tokens laid from `from` on: each
      match starts where it sits, is longer than its kanji, and its kanji
      holds no bar. */
  predicate Lexed(ts: seq<Token>, from: nat)
    decreases |ts|
  {
    ts != [] ==>
      && (ts[0].Ruby? ==>
            && ts[0].m.start == from && |ts[0].m.kanji| < ts[0].m.length
            && '|' !in ts[0].m.kanji)
      && Lexed(ts[1..], from + Width(ts[0]))
  }

  /** The tokens of a line are lexed. */
  lemma {:induction false} TokensLexed(s: string, from: nat)
    requires from <= |s|
    ensures Lexed(Tokens(s, from), from)
    decreases |s| - from
  {
    if from < |s| {
      match MatchAt(s, from)
      case Some(g) =>
        TokensLexed(s, g.close + 1);
        LexedAtMatch(s, from);
      case None =>
        TokensLexed(s, from + 1);
        LexedAtUnit(s, from);
    }
  }

  /** A match at `from` in front of lexed tokens. */
  lemma LexedAtMatch(s: string, from: nat)
    requires from < |s| && MatchAt(s, from).Some?
    requires Lexed(Tokens(s, MatchAt(s, from).value.close + 1), MatchAt(s, from).value.close + 1)
    ensures Lexed(Tokens(s, from), from)
  {
    var g := MatchAt(s, from).value;
    TokensAtMatch(s, from);
    MatchLexes(s, from);
    LexedCons(Ruby(MatchOf(s, g)), Tokens(s, g.close + 1), from);
  }

  lemma TokensAtMatch(s: string, from: nat)
    requires from < |s| && MatchAt(s, from).Some?
    ensures var g := MatchAt(s, from).value;
      Tokens(s, from) == [Ruby(MatchOf(s, g))] + Tokens(s, g.close + 1)
  {
  }

  /** The match found at `from` starts there, spans up to its closing brace,
      and its kanji is shorter than it and holds no bar. */
  lemma MatchLexes(s: string, from: nat)
    requires from < |s| && MatchAt(s, from).Some?
    ensures var g := MatchAt(s, from).value;
      var m := MatchOf(s, g);
      && m.start == from && m.length == g.close + 1 - from
      && |m.kanji| < m.length && '|' !in m.kanji
  {
    MatchAtSound(s, from);
  }

  /** A unit at `from` in front of lexed tokens. */
  lemma LexedAtUnit(s: string, from: nat)
    requires from < |s| && MatchAt(s, from).None? && Lexed(Tokens(s, from + 1), from + 1)
    ensures Lexed(Tokens(s, from), from)
  {
    LexedCons(Unit(s[from]), Tokens(s, from + 1), from);
  }

  /** A token in front of lexed tokens, laid where it starts. */
  lemma LexedCons(t: Token, ts: seq<Token>, from: nat)
    requires t.Ruby? ==> t.m.start == from && |t.m.kanji| < t.m.length && '|' !in t.m.kanji
    requires Lexed(ts, from + Width(t))
    ensures Lexed([t] + ts, from)
  {
    assert ([t] + ts)[1..] == ts;
  }

  /** How many bars a line holds. */
  function Bars(t: string): nat
  {
    if t == [] then 0 else (if t[0] == '|' then 1 else 0) + Bars(t[1..])
  }

  lemma {:induction false} BarsAppend(a: string, b: string)
    ensures Bars(a + b) == Bars(a) + Bars(b)
  {
    if a != [] {
      assert (a + b)[0] == a[0];
      assert (a + b)[1..] == a[1..] + b;
      BarsAppend(a[1..], b);
      assert Bars(a + b) == (if a[0] == '|' then 1 else 0) + Bars(a[1..] + b);
    } else {
      assert a + b == b;
    }
  }

  lemma {:induction false} BarsIn(t: string)
    ensures Bars(t) > 0 <==> '|' in t
  {
    if t != [] {
      BarsIn(t[1..]);
      assert t == [t[0]] + t[1..];
    }
  }

  /** The placeholder line holds a bar for every match. */
  lemma {:induction false} PlaceholderBars(ts: seq<Token>)
    ensures Bars(Placeholders(ts)) >= |Matches(ts)|
  {
    if ts != [] {
      PlaceholderBars(ts[1..]);
      match ts[0]
      case Unit(c) =>
        BarsAppend([c], Placeholders(ts[1..]));
      case Ruby(_) =>
        BarsAppend("|", Placeholders(ts[1..]));
    }
  }

  /** One edit: the first bar of `t` replaced by `k`. */
  function ReplaceFirst(t: string, k: string): string
    requires '|' in t
  {
    var i := Find(t, '|');
    t[..i] + k + t[i + 1..]
  }

  /** An edit removes one bar and may bring others in with the kanji. */
  lemma ReplaceFirstBars(t: string, k: string)
    requires '|' in t
    ensures Bars(ReplaceFirst(t, k)) + 1 >= Bars(t)
  {
    var i := Find(t, '|');
    var before, after := t[..i], t[i + 1..];
    SplitAround(t, i);
    BarsAppend(before, "|" + after);
    BarsAppend("|", after);
    Regroup3(before, k, after);
    BarsAppend(before, k + after);
    BarsAppend(k, after);
  }

  /** A sequence around one of its elements. */
  lemma SplitAround<T>(t: seq<T>, i: nat)
    requires i < |t|
    ensures t == t[..i] + ([t[i]] + t[i + 1..])
  {
  }

  lemma Regroup3<T>(a: seq<T>, b: seq<T>, c: seq<T>)
    ensures a + b + c == a + (b + c)
  {
  }

  /** The edits of the loop in `getLineWithoutFurigana`
      (subtitle-renderer/src/pngrenderer.cpp:64-76): for each match in turn,
      the first bar of the line (the search restarts at index 0) is removed
      and the match's kanji inserted in its place. */
  function ReplaceBars(t: string, ms: seq<Match>): string
    requires Bars(t) >= |ms|
    decreases |ms|
  {
    if ms == [] then t
    else
      BarsIn(t);
      ReplaceFirstBars(t, ms[0].kanji);
      ReplaceBars(ReplaceFirst(t, ms[0].kanji), ms[1..])
  }

  /** The line `getLineWithoutFurigana` returns, as written. */
  function Edited(ts: seq<Token>): string
  {
    PlaceholderBars(ts);
    ReplaceBars(Placeholders(ts), Matches(ts))
  }

  /** How much a match shrinks the line: its length less its kanji's. */
  function Shrink(m: Match): int
  {
    m.length - |m.kanji|
  }

  /** The start offset summed over the first k matches. */
  function Offset(ms: seq<Match>, k: nat): int
    requires k <= |ms|
  {
    if k == 0 then 0 else Offset(ms, k - 1) + Shrink(ms[k - 1])
  }

  /** The pair recorded for the k-th match (lines 78-99). */
  function PairOf(ms: seq<Match>, k: nat): Pair
    requires k < |ms|
  {
    Pair(ms[k].kanji, ms[k].reading, ms[k].start - Offset(ms, k), |ms[k].kanji|)
  }

  /** The pairs of the first n matches. */
  function Pairs(ms: seq<Match>, n: nat): (ps: seq<Pair>)
    requires n <= |ms|
    ensures |ps| == n
  {
    if n == 0 then [] else Pairs(ms, n - 1) + [PairOf(ms, n - 1)]
  }

  /** The pairs of the first n matches, one by one. */
  lemma {:induction false} PairsAt(ms: seq<Match>, n: nat, i: nat)
    requires i < n <= |ms|
    ensures Pairs(ms, n)[i] == PairOf(ms, i)
  {
    if i < n - 1 {
      PairsAt(ms, n - 1, i);
    }
  }

  /** `getLineWithoutFurigana` (subtitle-renderer/src/pngrenderer.cpp:54-106,
      SubtitleRenderer/pngrenderer.cpp:48-100). The split-and-join and the
      match iterator are library calls, taken as `Placeholders` and
      `Matches` of the line's tokens; the loop edits the line in place and
      appends the pairs. */
  method LineWithoutFurigana(line: string) returns (newLine: string, pairs: seq<Pair>)
    ensures newLine == Edited(Tokens(line, 0))
    ensures pairs == Pairs(Matches(Tokens(line, 0)), |Matches(Tokens(line, 0))|)
  {
    var ts := Tokens(line, 0);
    newLine := Placeholders(ts);
    var matches := Matches(ts);
    PlaceholderBars(ts);
    var lastMatches: seq<Match> := [];
    pairs := [];
    var n := 0;
    while n < |matches|
      invariant n <= |matches| && lastMatches == matches[..n]
      invariant Bars(newLine) >= |matches| - n
      invariant ReplaceBars(newLine, matches[n..]) == Edited(ts)
      invariant pairs == Pairs(matches, n)
    {
      newLine, pairs, lastMatches := Advance(newLine, pairs, lastMatches, matches, n);
      n := n + 1;
    }
    assert matches[n..] == [];
  }

  /** One turn of the loop of lines 64-99 for the n-th match: the bar it
      left is replaced by the kanji and the pair is recorded. */
  method Advance(line: string, pairs: seq<Pair>, lastMatches: seq<Match>, matches: seq<Match>, n: nat)
    returns (line': string, pairs': seq<Pair>, lastMatches': seq<Match>)
    requires n < |matches| && lastMatches == matches[..n]
    requires Bars(line) >= |matches| - n
    requires pairs == Pairs(matches, n)
    ensures lastMatches' == matches[..n + 1]
    ensures Bars(line') >= |matches| - (n + 1)
    ensures ReplaceBars(line', matches[n + 1..]) == ReplaceBars(line, matches[n..])
    ensures pairs' == Pairs(matches, n + 1)
  {
    var m := matches[n];
    // one bar is left per remaining match, so the search never fails
    EditStep(line, matches, n);
    line' := ReplaceAtFirstBar(line, m.kanji);
    var startOffset := StartOffset(lastMatches);
    OffsetPrefix(matches, n, n);
    pairs' := pairs + [Pair(m.kanji, m.reading, m.start - startOffset, |m.kanji|)];
    lastMatches' := lastMatches + [m];
    assert matches[..n + 1] == matches[..n] + [m];
  }

  /** The loop's edit for the n-th match leaves the rest of the edits
      leading to the same line. */
  lemma EditStep(t: string, ms: seq<Match>, n: nat)
    requires n < |ms| && Bars(t) >= |ms| - n
    ensures '|' in t
    ensures Bars(ReplaceFirst(t, ms[n].kanji)) >= |ms| - (n + 1)
    ensures ReplaceBars(ReplaceFirst(t, ms[n].kanji), ms[n + 1..]) == ReplaceBars(t, ms[n..])
  {
    BarsIn(t);
    ReplaceFirstBars(t, ms[n].kanji);
    assert ms[n..][0] == ms[n] && ms[n..][1..] == ms[n + 1..];
  }

  /** The edit of lines 66-67: the first bar removed, the kanji inserted
      where it was. */
  method ReplaceAtFirstBar(t: string, k: string) returns (r: string)
    requires '|' in t
    ensures r == ReplaceFirst(t, k)
  {
    var lastIndex := Find(t, '|');
    EditInPlace(t, lastIndex, k);
    r := t[..lastIndex] + t[lastIndex + 1..];
    r := r[..lastIndex] + k + r[lastIndex..];
  }

  /** Removing the bar at `i` and inserting `k` there is the edit. */
  lemma EditInPlace(t: string, i: nat, k: string)
    requires '|' in t && i == Find(t, '|')
    ensures var u := t[..i] + t[i + 1..];
      i <= |u| && u[..i] + k + u[i..] == ReplaceFirst(t, k)
  {
    var u := t[..i] + t[i + 1..];
    assert u[..i] == t[..i];
    assert u[i..] == t[i + 1..];
  }

  /** The start offset of lines 80-91: what the earlier matches took out. */
  method StartOffset(lastMatches: seq<Match>) returns (startOffset: int)
    ensures startOffset == Offset(lastMatches, |lastMatches|)
  {
    startOffset := 0;
    for j := 0 to |lastMatches|
      invariant startOffset == Offset(lastMatches, j)
    {
      startOffset := startOffset + lastMatches[j].length - |lastMatches[j].kanji|;
    }
  }

  /** The offset before a match depends only on the matches before it. */
  lemma {:induction false} OffsetPrefix(ms: seq<Match>, k: nat, n: nat)
    requires k <= n <= |ms|
    ensures Offset(ms[..n], k) == Offset(ms, k)
  {
    if k > 0 {
      OffsetPrefix(ms, k - 1, n);
      assert ms[..n][k - 1] == ms[k - 1];
    }
  }

  /** The first bar is where the characterisation of `Find` puts it. */
  lemma FindAt(t: string, k: nat)
    requires k < |t| && t[k] == '|'
    requires forall j :: 0 <= j < k ==> t[j] != '|'
    ensures Find(t, '|') == k
  {
  }

  /** A bar-free prefix is passed over by the search for the first bar. */
  lemma FindAfterPrefix(p: string, t: string)
    requires '|' !in p && '|' in t
    ensures Find(p + t, '|') == |p| + Find(t, '|')
  {
    var i := Find(t, '|');
    var pt := p + t;
    forall j | 0 <= j < |p| + i
      ensures pt[j] != '|'
    {
      if j < |p| {
        assert pt[j] == p[j];
      } else {
        assert pt[j] == t[j - |p|];
      }
    }
    assert pt[|p| + i] == t[i];
    FindAt(pt, |p| + i);
  }

  /** ... and so is the edit. */
  lemma ReplaceFirstPrefix(p: string, t: string, k: string)
    requires '|' !in p && '|' in t
    ensures ReplaceFirst(p + t, k) == p + ReplaceFirst(t, k)
  {
    var i := Find(t, '|');
    FindAfterPrefix(p, t);
    SlicesOfConcat(p, t, i);
    SlicesOfConcat(p, t, i + 1);
    Regroup(p, t[..i], k, t[i + 1..]);
  }

  lemma Regroup<T>(a: seq<T>, b: seq<T>, c: seq<T>, d: seq<T>)
    ensures a + b + c + d == a + (b + c + d)
  {
  }

  /** Cutting p + t inside t. */
  lemma SlicesOfConcat<T>(p: seq<T>, t: seq<T>, i: nat)
    requires i <= |t|
    ensures (p + t)[..|p| + i] == p + t[..i]
    ensures (p + t)[|p| + i..] == t[i..]
  {
  }

  /** ... and so by all the edits. */
  lemma {:induction false} ReplaceBarsPrefix(p: string, t: string, ms: seq<Match>)
    requires '|' !in p && Bars(t) >= |ms|
    ensures Bars(p + t) >= |ms|
    ensures ReplaceBars(p + t, ms) == p + ReplaceBars(t, ms)
    decreases |ms|
  {
    BarsAppend(p, t);
    if ms != [] {
      BarsIn(t);
      ReplaceFirstBars(t, ms[0].kanji);
      ReplaceFirstPrefix(p, t, ms[0].kanji);
      ReplaceBarsPrefix(p, ReplaceFirst(t, ms[0].kanji), ms[1..]);
    }
  }

  /** The first edit on a line that starts with a bar. */
  lemma ReplaceBarsHead(rest: string, m: Match, ms: seq<Match>)
    requires Bars(rest) >= |ms|
    ensures Bars("|" + rest) >= |[m] + ms|
    ensures Bars(m.kanji + rest) >= |ms|
    ensures ReplaceBars("|" + rest, [m] + ms) == ReplaceBars(m.kanji + rest, ms)
  {
    BarsAppend("|", rest);
    BarsAppend(m.kanji, rest);
    assert Find("|" + rest, '|') == 0;
    assert ("|" + rest)[..0] + m.kanji + ("|" + rest)[1..] == m.kanji + rest;
    assert ([m] + ms)[0] == m && ([m] + ms)[1..] == ms;
  }

  /** Without stray bars, the edits give the intended line. */
  lemma {:induction false} StripWhenStrayFree(ts: seq<Token>, from: nat)
    requires Lexed(ts, from) && StrayFree(ts)
    ensures Edited(ts) == Stripped(ts)
    decreases |ts|
  {
    if ts != [] {
      var rest := ts[1..];
      assert StrayFree(rest) by {
        forall i | 0 <= i < |rest|
          ensures rest[i] != Unit('|')
        {
          assert rest[i] == ts[i + 1];
        }
      }
      StripWhenStrayFree(rest, from + Width(ts[0]));
      PlaceholderBars(rest);
      var p, ms := Placeholders(rest), Matches(rest);
      match ts[0]
      case Unit(c) =>
        assert c != '|' by {
          assert ts[0] != Unit('|');
        }
        ReplaceBarsPrefix([c], p, ms);
      case Ruby(m) =>
        ReplaceBarsHead(p, m, ms);
        ReplaceBarsPrefix(m.kanji, p, ms);
    }
  }

  /** The line-level form: without stray bars the line shown is the line
      with every match replaced by its kanji. */
  lemma StripLineWhenStrayFree(line: string)
    requires StrayFree(Tokens(line, 0))
    ensures Edited(Tokens(line, 0)) == Stripped(Tokens(line, 0))
  {
    TokensLexed(line, 0);
    StripWhenStrayFree(Tokens(line, 0), 0);
  }

  /** A stray bar before a match takes the kanji instead of the match's
      placeholder: "|{a|b}" comes out as "a|" rather than "|a". */
  lemma StrayBarMisplaces()
    ensures var ts := Tokens("|{a|b}", 0);
      && Stripped(ts) == "|a"
      && Edited(ts) == "a|"
  {
    var s := "|{a|b}";
    assert MatchAt(s, 0).None?;
    assert Scan(s, '|', 2) == 3 && Scan(s, '}', 4) == 5;
    assert MatchAt(s, 1) == Some(Group(1, 3, 5));
    var m := Match(1, 5, "a", "b");
    assert MatchOf(s, Group(1, 3, 5)) == m;
    var ts := [Unit('|'), Ruby(m)];
    assert Tokens(s, 6) == [];
    assert Tokens(s, 1) == [Ruby(m)];
    assert Tokens(s, 0) == ts;
    var t1 := [Ruby(m)];
    assert ts[1..] == t1 && t1[1..] == [];
    assert Matches(t1) == [m] + Matches([]);
    assert Matches(ts) == [m];
    assert Placeholders(t1) == "|" + Placeholders([]);
    assert Placeholders(ts) == "|" + Placeholders(t1) == "||";
    assert Stripped(t1) == "a" + Stripped([]);
    assert Stripped(ts) == "|" + Stripped(t1) == "|a";
    assert Find("||", '|') == 0;
  }

  /** `x` sits in `t` from `pos` on. */
  predicate Locates(t: string, pos: int, x: string)
  {
    0 <= pos && pos + |x| <= |t| && t[pos..pos + |x|] == x
  }

  /** The k-th match's kanji sits in the stripped line `st` where the start
      offset arithmetic puts it, for matches laid from `from` on. */
  predicate Located(st: string, ms: seq<Match>, from: nat, k: nat)
    requires k < |ms|
  {
    Locates(st, ms[k].start - from - Offset(ms, k), ms[k].kanji)
  }

  /** The offset of a match list split after its first match. */
  lemma {:induction false} OffsetCons(m: Match, ms: seq<Match>, k: nat)
    requires k <= |ms|
    ensures Offset([m] + ms, k + 1) == Shrink(m) + Offset(ms, k)
  {
    if k > 0 {
      assert ([m] + ms)[k] == ms[k - 1];
      OffsetCons(m, ms, k - 1);
    }
  }

  /** Each match's kanji is located. */
  lemma {:induction false} KanjiLocated(ts: seq<Token>, from: nat, k: nat)
    requires Lexed(ts, from) && k < |Matches(ts)|
    ensures Located(Stripped(ts), Matches(ts), from, k)
    decreases |ts|
  {
    var rest := ts[1..];
    if ts[0].Unit? {
      UnitHead(ts);
      KanjiLocated(rest, from + 1, k);
      ShiftPastUnit(ts[0].c, Matches(rest), Stripped(rest), from, k);
    } else if k == 0 {
      RubyHead(ts);
      FirstLocated(ts[0].m, Matches(rest), Stripped(rest), from);
    } else {
      RubyHead(ts);
      KanjiLocated(rest, from + ts[0].m.length, k - 1);
      ShiftPastMatch(ts[0].m, Matches(rest), Stripped(rest), from, k);
    }
  }

  /** A line that starts with a unit outside the matches: its match list
      and stripped line. */
  lemma UnitHead(ts: seq<Token>)
    requires ts != [] && ts[0].Unit?
    ensures Matches(ts) == Matches(ts[1..])
    ensures Stripped(ts) == [ts[0].c] + Stripped(ts[1..])
  {
  }

  /** A line that starts with a match: its match list and stripped line. */
  lemma RubyHead(ts: seq<Token>)
    requires ts != [] && ts[0].Ruby?
    ensures Matches(ts) == [ts[0].m] + Matches(ts[1..])
    ensures Stripped(ts) == ts[0].m.kanji + Stripped(ts[1..])
  {
  }

  /** A match located after one unit is located, one further on, with the
      unit in front. */
  lemma ShiftPastUnit(c: char, ms: seq<Match>, tail: string, from: nat, k: nat)
    requires k < |ms| && Located(tail, ms, from + 1, k)
    ensures Located([c] + tail, ms, from, k)
  {
    LocatesShift([c], tail, ms[k].start - (from + 1) - Offset(ms, k), ms[k].kanji);
  }

  /** The first match, starting where the tokens start, is located at the
      front of the stripped line. */
  lemma FirstLocated(m: Match, rest: seq<Match>, tail: string, from: nat)
    requires m.start == from
    ensures Located(m.kanji + tail, [m] + rest, from, 0)
  {
    assert (m.kanji + tail)[0..|m.kanji|] == m.kanji;
  }

  /** A match located in the rest of the line is located, shifted by the
      kanji of a match in front of it, in the whole line. */
  lemma ShiftPastMatch(m: Match, rest: seq<Match>, tail: string, from: nat, k: nat)
    requires 0 < k <= |rest| && Located(tail, rest, from + m.length, k - 1)
    ensures Located(m.kanji + tail, [m] + rest, from, k)
  {
    var h := rest[k - 1];
    OffsetCons(m, rest, k - 1);
    assert ([m] + rest)[k] == h;
    LocatesShift(m.kanji, tail, h.start - (from + m.length) - Offset(rest, k - 1), h.kanji);
  }

  /** What sits in the back sits, shifted, in the whole. */
  lemma LocatesShift(a: string, b: string, pos: int, x: string)
    requires Locates(b, pos, x)
    ensures Locates(a + b, |a| + pos, x)
  {
    assert (a + b)[|a| + pos..|a| + pos + |x|] == b[pos..pos + |x|];
  }

  /** Every recorded pair locates its kanji in the stripped line, whatever
      the line holds. */
  lemma PairsLocateKanji(line: string, k: nat)
    requires k < |Matches(Tokens(line, 0))|
    ensures var ts := Tokens(line, 0);
      var ms := Matches(ts);
      var p := Pairs(ms, |ms|)[k];
      && 0 <= p.startPos && p.startPos + p.length <= |Stripped(ts)|
      && Stripped(ts)[p.startPos..p.startPos + p.length] == p.kanji
  {
    var ts := Tokens(line, 0);
    TokensLexed(line, 0);
    KanjiLocated(ts, 0, k);
    PairsAt(Matches(ts), |Matches(ts)|, k);
    PairLocates(Stripped(ts), Matches(ts), k);
  }

  /** The pair of a match located from the start of the line records where
      its kanji sits. */
  lemma PairLocates(st: string, ms: seq<Match>, k: nat)
    requires k < |ms| && Located(st, ms, 0, k)
    ensures var p := PairOf(ms, k);
      && 0 <= p.startPos && p.startPos + p.length <= |st|
      && st[p.startPos..p.startPos + p.length] == p.kanji
  {
  }

  /** The pattern matches somewhere from `from` on exactly when a brace, a bar
      and a closing brace follow each other there on one line. */
  lemma {:induction false} MatchesExist(s: string, from: nat)
    requires from <= |s|
    ensures Matches(Tokens(s, from)) != [] <==> exists o, b, c :: from <= o && Fits(s, o, b, c)
    decreases |s| - from
  {
    if from < |s| {
      var ts := Tokens(s, from);
      match MatchAt(s, from)
      case Some(g) =>
        MatchAtSound(s, from);
        assert Fits(s, g.open, g.bar, g.close);
      case None =>
        assert ts[1..] == Tokens(s, from + 1);
        MatchesExist(s, from + 1);
        if exists o, b, c :: from <= o && Fits(s, o, b, c) {
          var o, b, c :| from <= o && Fits(s, o, b, c);
          if o == from {
            MatchAtComplete(s, o, b, c);
          }
        }
    }
  }

  /** `hasLineFurigana` (subtitle-renderer/src/pngrenderer.cpp:108-113,
      SubtitleRenderer/pngrenderer.cpp:102-107): whether any pair was recorded. */
  method HasLineFurigana(line: string) returns (r: bool)
    ensures r <==> exists o, b, c :: Fits(line, o, b, c)
  {
    var _, pairs := LineWithoutFurigana(line);
    MatchesExist(line, 0);
    r := |pairs| != 0;
  }

  /** `splitIntoCharacters` (subtitle-renderer/src/pngrenderer.cpp:131-139,
      SubtitleRenderer/pngrenderer.cpp:109-117): one string per unit. */
  method SplitIntoCharacters(str: string) returns (chars: seq<string>)
    ensures |chars| == |str|
    ensures forall i :: 0 <= i < |chars| ==> chars[i] == [str[i]]
    ensures Concat(chars) == str
  {
    chars := [];
    for i := 0 to |str|
      invariant |chars| == i
      invariant forall j :: 0 <= j < i ==> chars[j] == [str[j]]
      invariant Concat(chars) == str[..i]
    {
      ConcatSnoc(chars, [str[i]]);
      assert str[..i + 1] == str[..i] + [str[i]];
      chars := chars + [[str[i]]];
    }
    assert str[..|str|] == str;
  }

  function Concat(pieces: seq<string>): string
  {
    if pieces == [] then [] else Concat(pieces[..|pieces| - 1]) + pieces[|pieces| - 1]
  }

  lemma ConcatSnoc(pieces: seq<string>, p: string)
    ensures Concat(pieces + [p]) == Concat(pieces) + p
  {
    assert (pieces + [p])[..|pieces|] == pieces;
  }
}
