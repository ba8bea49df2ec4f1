/** The text handling under the SRT parser (SubtitleParser/srtparser.cpp):
    `split`, which cuts a string with `std::getline` at a delimiter, the
    line reading of the parse loop, the removal of carriage returns and the
    skipping of a UTF-8 byte-order mark. Characters stand for the bytes of
    the file. */
module SrtText {

  /** The first index of c in s, or |s| when c does not occur. */
  function Find(s: string, c: char): (k: nat)
    ensures k <= |s|
    ensures k < |s| ==> s[k] == c
    ensures forall j :: 0 <= j < k ==> s[j] != c
  {
    if s == [] then 0
    else if s[0] == c then 0
    else 1 + Find(s[1..], c)
  }

  /** What successive `std::getline(ss, item, delim)` calls produce: the
      pieces between delimiters. A delimiter at the very end does not start
      an empty piece, and the empty string has no pieces. */
  function Split(s: string, delim: char): (pieces: seq<string>)
    ensures forall i :: 0 <= i < |pieces| ==> delim !in pieces[i]
    ensures pieces == [] <==> s == []
    decreases |s|
  {
    if s == [] then []
    else
      var k := Find(s, delim);
      if k == |s| then [s] else [s[..k]] + Split(s[k + 1..], delim)
  }

  /** Pieces put back together with the delimiter between them. */
  function Join(pieces: seq<string>, delim: char): string
  {
    if pieces == [] then []
    else if |pieces| == 1 then pieces[0]
    else pieces[0] + [delim] + Join(pieces[1..], delim)
  }

  /** `split` (SubtitleParser/srtparser.cpp:16-27): appends the pieces of s to elems. */
  method SplitInto(s: string, delim: char, elems: seq<string>) returns (r: seq<string>)
    ensures r == elems + Split(s, delim)
  {
    r := elems;
    var pos := 0;
    while pos < |s|
      invariant 0 <= pos <= |s|
      invariant elems + Split(s, delim) == r + Split(s[pos..], delim)
    {
      var item, next := ReadPiece(s, delim, pos);
      SplitAdvance(s, delim, pos, next);
      ghost var later := if next == |s| then Split(s[|s|..], delim) else Split(s[next + 1..], delim);
      assert r + Split(s[pos..], delim) == (r + [item]) + later;
      r := r + [item];
      pos := if next < |s| then next + 1 else next;
    }
    assert s[..] == s;
  }

  /** The characters up to the next delimiter or the end, as `std::getline`
      extracts them into `item`. */
  method ReadPiece(s: string, delim: char, start: nat) returns (item: string, pos: nat)
    requires start < |s|
    ensures start <= pos <= |s| && item == s[start..pos] && delim !in item
    ensures pos == |s| || s[pos] == delim
    ensures start < pos || pos < |s|
  {
    item := "";
    pos := start;
    while pos < |s| && s[pos] != delim
      invariant start <= pos <= |s|
      invariant item == s[start..pos]
      invariant delim !in item
    {
      item := item + [s[pos]];
      pos := pos + 1;
    }
  }

  /** One `getline` call: the piece from `start` runs to the next delimiter. */
  lemma SplitAdvance(s: string, delim: char, start: nat, pos: nat)
    requires start < pos <= |s| || start == pos < |s|
    requires delim !in s[start..pos] && (pos == |s| || s[pos] == delim)
    ensures Split(s[start..], delim) ==
      [s[start..pos]] + (if pos == |s| then Split(s[|s|..], delim) else Split(s[pos + 1..], delim))
  {
    if pos == |s| {
      SplitLast(s, delim, start);
    } else {
      SplitMiddle(s, delim, start, pos);
    }
  }

  /** The last piece runs to the end of the text. */
  lemma SplitLast(s: string, delim: char, start: nat)
    requires start < |s| && delim !in s[start..|s|]
    ensures Split(s[start..], delim) == [s[start..|s|]] + Split(s[|s|..], delim)
  {
    SliceOfSlice(s, start, |s|);
    SplitStep(s[start..], delim, |s| - start);
    assert s[|s|..] == [];
  }

  /** A piece ended by a delimiter. */
  lemma SplitMiddle(s: string, delim: char, start: nat, pos: nat)
    requires start <= pos < |s| && delim !in s[start..pos] && s[pos] == delim
    ensures Split(s[start..], delim) == [s[start..pos]] + Split(s[pos + 1..], delim)
  {
    var t, k := s[start..], pos - start;
    SliceOfSlice(s, start, pos);
    assert t[k] == delim;
    FindIs(t, delim, k);
  }

  /** Slices of a suffix are slices of the whole. */
  lemma SliceOfSlice<T>(s: seq<T>, start: nat, pos: nat)
    requires start <= pos <= |s|
    ensures s[start..][..pos - start] == s[start..pos]
    ensures pos < |s| ==> s[start..][pos - start + 1..] == s[pos + 1..]
  {
  }

  /** The first piece of s ends at the first delimiter. */
  lemma SplitStep(s: string, delim: char, k: nat)
    requires 0 < |s| || k == 0
    requires k <= |s| && delim !in s[..k] && (k == |s| || s[k] == delim)
    ensures s != [] ==> Split(s, delim) == [s[..k]] + (if k == |s| then [] else Split(s[k + 1..], delim))
  {
    if s != [] {
      FindIs(s, delim, k);
      if k == |s| {
        assert s[..k] == s;
      }
    }
  }

  /** The first delimiter is where the prefix before it holds none. */
  lemma FindIs(s: string, delim: char, k: nat)
    requires k <= |s| && delim !in s[..k] && (k == |s| || s[k] == delim)
    ensures Find(s, delim) == k
  {
    forall j | 0 <= j < k
      ensures s[j] != delim
    {
      assert s[..k][j] == s[j];
    }
  }

  lemma JoinCons(a: string, ps: seq<string>, delim: char)
    ensures Join([a] + ps, delim) == if ps == [] then a else a + [delim] + Join(ps, delim)
  {
    assert ([a] + ps)[1..] == ps;
  }

  /** Pieces joined after a non-empty first piece start with it; with more
      pieces the delimiter and at least one more character follow when the
      rest joins to something. */
  lemma JoinFront(a: string, ps: seq<string>, delim: char)
    requires a != []
    ensures |Join([a] + ps, delim)| >= |a| && Join([a] + ps, delim)[0] == a[0]
    ensures ps != [] && Join(ps, delim) != [] ==> |Join([a] + ps, delim)| >= |a| + 2
  {
    JoinCons(a, ps, delim);
  }

  /** Splitting and joining again gives the string back, up to a trailing
      delimiter, which splitting drops. */
  lemma {:induction false} JoinSplit(s: string, delim: char)
    ensures Join(Split(s, delim), delim) + Trailing(s, delim) == s
    decreases |s|
  {
    if s != [] {
      var k := Find(s, delim);
      if k < |s| {
        var head := s[..k];
        var rest := s[k + 1..];
        assert s == head + [delim] + rest;
        assert Split(s, delim) == [head] + Split(rest, delim);
        JoinCons(head, Split(rest, delim), delim);
        if rest == [] {
          assert Join(Split(s, delim), delim) == head;
          assert Trailing(s, delim) == [delim];
        } else {
          JoinSplit(rest, delim);
          assert Trailing(s, delim) == Trailing(rest, delim);
          var j := Join(Split(rest, delim), delim);
          assert Join(Split(s, delim), delim) == head + [delim] + j;
          Associative(head + [delim], j, Trailing(rest, delim));
        }
      } else {
        assert s[..k] == s;
      }
    }
  }

  lemma Associative<T>(a: seq<T>, b: seq<T>, c: seq<T>)
    ensures a + b + c == a + (b + c)
  {
  }

  /** The delimiter that ends s, if it does. */
  function Trailing(s: string, delim: char): string
  {
    if s != [] && s[|s| - 1] == delim then [delim] else []
  }

  /** Joining pieces that hold no delimiter, the last of them non-empty, and
      splitting again recovers the pieces. */
  lemma {:induction false} SplitJoin(pieces: seq<string>, delim: char)
    requires forall i :: 0 <= i < |pieces| ==> delim !in pieces[i]
    requires pieces != [] ==> pieces[|pieces| - 1] != []
    ensures Split(Join(pieces, delim), delim) == pieces
    decreases |pieces|
  {
    if |pieces| == 1 {
      SplitStep(pieces[0], delim, |pieces[0]|);
      assert pieces[0][..|pieces[0]|] == pieces[0];
    } else if |pieces| > 1 {
      var rest := Join(pieces[1..], delim);
      var s := pieces[0] + [delim] + rest;
      SplitJoin(pieces[1..], delim);
      assert s[..|pieces[0]|] == pieces[0];
      assert s[|pieces[0]| + 1..] == rest;
      SplitStep(s, delim, |pieces[0]|);
      assert [pieces[0]] + pieces[1..] == pieces;
    }
  }

  /** `s.find(pattern) != std::string::npos`. */
  predicate Occurs(pattern: string, s: string)
  {
    exists i | 0 <= i <= |s| :: OccursAt(pattern, s, i)
  }

  predicate OccursAt(pattern: string, s: string, i: int)
  {
    0 <= i && i + |pattern| <= |s| && s[i..i + |pattern|] == pattern
  }

  /** Pieces, each followed by the delimiter: how a text made of complete
      lines is laid out. */
  function Terminated(pieces: seq<string>, delim: char): string
  {
    if pieces == [] then [] else pieces[0] + [delim] + Terminated(pieces[1..], delim)
  }

  /** Splitting a text made of delimiter-terminated pieces gives the pieces,
      followed by the pieces of whatever comes after them. */
  lemma {:induction false} SplitTerminated(pieces: seq<string>, rest: string, delim: char)
    requires forall i :: 0 <= i < |pieces| ==> delim !in pieces[i]
    ensures Split(Terminated(pieces, delim) + rest, delim) == pieces + Split(rest, delim)
    decreases |pieces|
  {
    if pieces != [] {
      var p := pieces[0];
      var others := pieces[1..];
      var tail := Terminated(others, delim) + rest;
      assert delim !in p;
      assert Split(Terminated(pieces, delim) + rest, delim) == [p] + Split(tail, delim) by {
        var s := Terminated(pieces, delim) + rest;
        Associative(p + [delim], Terminated(others, delim), rest);
        assert s == p + [delim] + tail;
        assert s[..|p|] == p;
        assert s[|p| + 1..] == tail;
        SplitStep(s, delim, |p|);
      }
      assert forall i :: 0 <= i < |others| ==> delim !in others[i] by {
        forall i | 0 <= i < |others| ensures delim !in others[i] {
          assert others[i] == pieces[i + 1];
        }
      }
      SplitTerminated(others, rest, delim);
      assert pieces + Split(rest, delim) == [p] + (others + Split(rest, delim)) by {
        Associative([p], others, Split(rest, delim));
        assert pieces == [p] + others;
      }
    } else {
      assert Terminated(pieces, delim) + rest == rest;
    }
  }

  lemma {:induction false} TerminatedAppend(a: seq<string>, b: seq<string>, delim: char)
    ensures Terminated(a + b, delim) == Terminated(a, delim) + Terminated(b, delim)
    decreases |a|
  {
    if a != [] {
      assert (a + b)[0] == a[0] && (a + b)[1..] == a[1..] + b;
      assert Terminated(a + b, delim) == a[0] + [delim] + Terminated(a[1..] + b, delim);
      TerminatedAppend(a[1..], b, delim);
      Associative(a[0] + [delim], Terminated(a[1..], delim), Terminated(b, delim));
    } else {
      assert a + b == b;
    }
  }

  /** Two or more terminated pieces, the first not empty: the text starts
      with the first piece's first character and holds at least three. */
  lemma TerminatedFront(pieces: seq<string>, delim: char)
    requires |pieces| >= 2 && pieces[0] != []
    ensures |Terminated(pieces, delim)| >= 3
    ensures Terminated(pieces, delim)[0] == pieces[0][0]
  {
    TerminatedEnds(pieces[1..], delim);
  }

  lemma TerminatedEnds(pieces: seq<string>, delim: char)
    ensures Terminated(pieces, delim) == [] <==> pieces == []
    ensures pieces != [] ==> Terminated(pieces, delim)[|Terminated(pieces, delim)| - 1] == delim
    decreases |pieces|
  {
    if pieces != [] {
      TerminatedEnds(pieces[1..], delim);
    }
  }

  /** One line as the parse loop sees it, with the stream's end-of-file flag
      after `std::getline` read it. */
  datatype Line = Line(text: string, eof: bool)

  /** The lines `while (std::getline(infile, line))` reads: the pieces
      between newlines; the flag is set on the last piece when the text does
      not end with a newline (the read stopped at the end of the file). */
  function ReadLines(text: string): (lines: seq<Line>)
    ensures |lines| == |Split(text, '\n')|
  {
    var pieces := Split(text, '\n');
    var eofLast := text != [] && text[|text| - 1] != '\n';
    seq(|pieces|, i requires 0 <= i < |pieces| => Line(pieces[i], eofLast && i == |pieces| - 1))
  }

  /** Only the last line can carry the end-of-file flag, and it does exactly
      when the text does not end with a newline; the texts of the lines
      joined by newlines give the text back. */
  lemma ReadLinesFaithful(text: string)
    ensures var lines := ReadLines(text);
      && (forall i :: 0 <= i < |lines| - 1 ==> !lines[i].eof)
      && (lines != [] ==> (lines[|lines| - 1].eof <==> text[|text| - 1] != '\n'))
      && Join(Split(text, '\n'), '\n') + Trailing(text, '\n') == text
  {
    JoinSplit(text, '\n');
    if ReadLines(text) != [] {
      assert text != [];
    }
  }

  /** The text of s without its carriage returns, everything else in order. */
  function WithoutCR(s: string): (r: string)
    ensures '\r' !in r && |r| <= |s|
  {
    if s == [] then []
    else WithoutCR(s[..|s| - 1]) + (if s[|s| - 1] == '\r' then [] else [s[|s| - 1]])
  }

  lemma {:induction false} WithoutCRUnchanged(s: string)
    requires '\r' !in s
    ensures WithoutCR(s) == s
  {
    if s != [] {
      WithoutCRUnchanged(s[..|s| - 1]);
      assert s == s[..|s| - 1] + [s[|s| - 1]];
    }
  }

  /** `line.erase(std::remove(line.begin(), line.end(), '\r'), line.end())`
      (SubtitleParser/srtparser.cpp:83): the kept characters move to the
      front in order, and the new length is returned. */
  method RemoveCarriageReturns(line: array<char>) returns (len: nat)
    modifies line
    ensures len <= line.Length
    ensures line[..len] == WithoutCR(old(line[..]))
  {
    ghost var original := line[..];
    len := 0;
    var i := 0;
    while i < line.Length
      invariant len <= i <= line.Length
      invariant line[..len] == WithoutCR(original[..i])
      invariant line[i..] == original[i..]
    {
      assert original[..i + 1][..i] == original[..i];
      if line[i] != '\r' {
        line[len] := line[i];
        len := len + 1;
      }
      i := i + 1;
    }
    assert original[..line.Length] == original;
  }

  /** The three bytes of the UTF-8 byte-order mark. */
  const BOM: string := ['ï', '»', '¿']

  /** `skip_utf8_bom` (SubtitleParser/srtparser.cpp:30-45) and what the
      stream then yields: three characters are read; if they are the mark
      reading goes on after them, otherwise the stream seeks back to 0. A
      file shorter than three characters leaves the stream failed (the
      third `get` sets the fail bit, which the seek does not clear), so
      nothing is read at all. */
  function SkipUtf8Bom(file: string): (rest: string)
    ensures rest == [] || rest == file || (|file| >= 3 && file[..3] == BOM && rest == file[3..])
  {
    if |file| < 3 then []
    else if file[..3] == BOM then file[3..]
    else file
  }

  /** The mark is dropped when present, and a file of at least three
      characters that does not start with it is read whole. */
  lemma SkipUtf8BomCases(s: string)
    ensures SkipUtf8Bom(BOM + s) == s
    ensures |s| >= 3 && s[..3] != BOM ==> SkipUtf8Bom(s) == s
    ensures |s| < 3 ==> SkipUtf8Bom(s) == []
  {
    assert (BOM + s)[..3] == BOM;
    assert (BOM + s)[3..] == s;
  }
}
