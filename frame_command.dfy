/** The optional post-processing command of the newer frame creator
    (subtitle-renderer/src/pgsframecreator.cpp): the command line is
    trimmed and cut into arguments at spaces, a few dangerous programs are
    refused, and for every rendered image the first "%f" argument is
    replaced by the image's path. Running the process is not modelled. */
module FrameCommand {
  import opened Wrappers
  import opened Numbers
  import opened SrtText

  /** The index of the first character from `i` on that is not
      `isspace`, or the length. */
  function SkipSpace(s: string, i: nat): (k: nat)
    requires i <= |s|
    ensures i <= k <= |s|
    decreases |s| - i
  {
    if i == |s| || !IsSpace(s[i]) then i else SkipSpace(s, i + 1)
  }

  /** The end of `s[..j]` once its trailing `isspace` characters are gone. */
  function SkipSpaceBack(s: string, j: nat): (k: nat)
    requires j <= |s|
    ensures k <= j
  {
    if j == 0 || !IsSpace(s[j - 1]) then j else SkipSpaceBack(s, j - 1)
  }

  lemma {:induction false} SkipSpaceSpec(s: string, i: nat)
    requires i <= |s|
    ensures var k := SkipSpace(s, i);
      && (forall m :: i <= m < k ==> IsSpace(s[m]))
      && (k < |s| ==> !IsSpace(s[k]))
    decreases |s| - i
  {
    if i < |s| && IsSpace(s[i]) {
      SkipSpaceSpec(s, i + 1);
    }
  }

  lemma {:induction false} SkipSpaceBackSpec(s: string, j: nat)
    requires j <= |s|
    ensures var k := SkipSpaceBack(s, j);
      && (forall m :: k <= m < j ==> IsSpace(s[m]))
      && (k > 0 ==> !IsSpace(s[k - 1]))
  {
    if j > 0 && IsSpace(s[j - 1]) {
      SkipSpaceBackSpec(s, j - 1);
    }
  }

  /** What `ltrim` leaves: everything from the first non-space on. */
  function TrimStart(s: string): string
  {
    s[SkipSpace(s, 0)..]
  }

  /** What `rtrim` leaves: everything up to the last non-space. */
  function TrimEnd(s: string): string
  {
    s[..SkipSpaceBack(s, |s|)]
  }

  /** What `trim` leaves. */
  function Trimmed(s: string): string
  {
    TrimEnd(TrimStart(s))
  }

  /** `ltrim`: erases up to the first character that is not `isspace`. */
  method LTrim(s: string) returns (r: string)
    ensures r == TrimStart(s)
  {
    var i := 0;
    while i < |s| && IsSpace(s[i])
      invariant 0 <= i <= |s|
      invariant SkipSpace(s, i) == SkipSpace(s, 0)
    {
      i := i + 1;
    }
    r := s[i..];
  }

  /** `rtrim`: erases after the last character that is not `isspace`. */
  method RTrim(s: string) returns (r: string)
    ensures r == TrimEnd(s)
  {
    var j := |s|;
    while j > 0 && IsSpace(s[j - 1])
      invariant 0 <= j <= |s|
      invariant SkipSpaceBack(s, j) == SkipSpaceBack(s, |s|)
    {
      j := j - 1;
    }
    r := s[..j];
  }

  /** `trim`. */
  method Trim(s: string) returns (r: string)
    ensures r == Trimmed(s)
  {
    r := LTrim(s);
    r := RTrim(r);
  }

  /** `trim` removes exactly the white space at both ends: the result is
      the text between a white prefix and a white suffix, and has no white
      space at either end; it is empty exactly for blank text. */
  lemma TrimmedShape(s: string)
    ensures var r := Trimmed(s); var k := SkipSpace(s, 0);
      && k + |r| <= |s| && r == s[k..k + |r|]
      && (forall m :: 0 <= m < k ==> IsSpace(s[m]))
      && (forall m :: k + |r| <= m < |s| ==> IsSpace(s[m]))
      && (r == [] || (!IsSpace(r[0]) && !IsSpace(r[|r| - 1])))
    ensures Trimmed(s) == [] <==> forall m :: 0 <= m < |s| ==> IsSpace(s[m])
  {
    var k := SkipSpace(s, 0);
    var t := s[k..];
    var e := SkipSpaceBack(t, |t|);
    TrimmedParts(s);
    var r := Trimmed(s);
    if r == [] {
      assert k == |s|;
    } else {
      assert !IsSpace(s[k]);
    }
  }

  /** The pieces `trim` works with: the white prefix `ltrim` skips, the
      white suffix `rtrim` drops, and what is left between them. */
  lemma TrimmedParts(s: string)
    ensures var k := SkipSpace(s, 0); var t := s[k..]; var e := SkipSpaceBack(t, |t|);
      && Trimmed(s) == t[..e] == s[k..k + e]
      && (forall m :: 0 <= m < k ==> IsSpace(s[m]))
      && (forall m :: k + e <= m < |s| ==> IsSpace(s[m]))
      && (k < |s| ==> !IsSpace(s[k]) && e > 0)
      && (e > 0 ==> !IsSpace(t[e - 1]))
  {
    var k := SkipSpace(s, 0);
    SkipSpaceSpec(s, 0);
    var t := s[k..];
    var e := SkipSpaceBack(t, |t|);
    TrimEndParts(t);
    forall m | k + e <= m < |s| ensures IsSpace(s[m]) {
      assert s[m] == t[m - k];
    }
    if k < |s| {
      assert t[0] == s[k];
    }
  }

  /** What `rtrim` keeps: a white suffix is dropped, and a text that starts
      with a non-space keeps at least that character. */
  lemma TrimEndParts(t: string)
    ensures var e := SkipSpaceBack(t, |t|);
      && (forall m :: e <= m < |t| ==> IsSpace(t[m]))
      && (e > 0 ==> !IsSpace(t[e - 1]))
      && (t != [] && !IsSpace(t[0]) ==> e > 0)
  {
    SkipSpaceBackSpec(t, |t|);
  }

  /** A text with no white space at either end is left as it is. */
  lemma TrimmedFixed(s: string)
    requires s == [] || (!IsSpace(s[0]) && !IsSpace(s[|s| - 1]))
    ensures Trimmed(s) == s
  {
    assert SkipSpace(s, 0) == 0;
    assert TrimStart(s) == s by {
      assert s[0..] == s;
    }
    assert SkipSpaceBack(s, |s|) == |s|;
    assert s[..|s|] == s;
  }

  /** Trimming twice is trimming once. */
  lemma TrimIdempotent(s: string)
    ensures Trimmed(Trimmed(s)) == Trimmed(s)
  {
    TrimmedShape(s);
    TrimmedFixed(Trimmed(s));
  }

  /** The pieces `getline(splitter, arg, ' ')` cuts from the command, each
      trimmed, the empty ones dropped (lines 419-428). */
  function KeptArgs(pieces: seq<string>): (args: seq<string>)
    ensures |args| <= |pieces|
  {
    if pieces == [] then []
    else
      var a := Trimmed(pieces[0]);
      (if a == [] then [] else [a]) + KeptArgs(pieces[1..])
  }

  function Arguments(command: string): seq<string>
  {
    KeptArgs(Split(command, ' '))
  }

  /** An argument as the template holds it: not empty, no space in it and
      no white space at its ends. */
  predicate IsArgument(a: string)
  {
    a != [] && ' ' !in a && Trimmed(a) == a
  }

  /** Every kept piece is an argument. */
  lemma {:induction false} KeptAreArguments(pieces: seq<string>)
    requires forall i :: 0 <= i < |pieces| ==> ' ' !in pieces[i]
    ensures forall i :: 0 <= i < |KeptArgs(pieces)| ==> IsArgument(KeptArgs(pieces)[i])
  {
    if pieces != [] {
      var p := pieces[0];
      var a := Trimmed(p);
      TrimIdempotent(p);
      TrimmedShape(p);
      var k := SkipSpace(p, 0);
      assert forall m :: 0 <= m < |a| ==> a[m] == p[k + m];
      assert ' ' !in a;
      KeptAreArguments(pieces[1..]);
    }
  }

  /** Arguments of a command line are arguments. */
  lemma ArgumentsAreArguments(command: string)
    ensures forall i :: 0 <= i < |Arguments(command)| ==> IsArgument(Arguments(command)[i])
  {
    KeptAreArguments(Split(command, ' '));
  }

  /** A command line that `trim` leaves non-empty yields at least one
      argument, so `_args_template.at(0)` on line 432 never throws. */
  lemma ArgumentsNonEmpty(command: string)
    requires command != [] && Trimmed(command) == command
    ensures Arguments(command) != []
  {
    TrimmedShape(command);
    var k := Find(command, ' ');
    var first := command[..k];
    assert Split(command, ' ')[0] == first;
    TrimmedShape(first);
    assert !IsSpace(first[0]);
  }

  /** Arguments joined with single spaces are split back into themselves. */
  lemma {:induction false} KeptArgumentsFixed(args: seq<string>)
    requires forall i :: 0 <= i < |args| ==> IsArgument(args[i])
    ensures KeptArgs(args) == args
  {
    if args != [] {
      KeptArgumentsFixed(args[1..]);
    }
  }

  /** One piece of the `getline` loop: what it appends, followed by the
      arguments of the later pieces, are the arguments of all of them. */
  lemma KeptStep(before: seq<string>, piece: string, later: seq<string>, after: seq<string>)
    requires after == before + (if Trimmed(piece) == [] then [] else [Trimmed(piece)])
    ensures after + KeptArgs(later) == before + KeptArgs([piece] + later)
  {
    assert ([piece] + later)[1..] == later;
  }

  /** The `getline` loop of lines 419-428: each piece between spaces is
      trimmed and kept when something is left. */
  method SplitArguments(command: string) returns (args: seq<string>)
    ensures args == Arguments(command)
  {
    args := [];
    var pos := 0;
    while pos < |command|
      invariant 0 <= pos <= |command|
      invariant args + KeptArgs(Split(command[pos..], ' ')) == Arguments(command)
    {
      var arg, next := ReadPiece(command, ' ', pos);
      SplitAdvance(command, ' ', pos, next);
      ghost var later := if next == |command| then Split(command[|command|..], ' ')
        else Split(command[next + 1..], ' ');
      ghost var before, piece := args, arg;
      arg := Trim(arg);
      if arg != [] {
        args := args + [arg];
      }
      KeptStep(before, piece, later, args);
      pos := if next < |command| then next + 1 else next;
      assert Split(command[pos..], ' ') == later;
    }
    assert command[|command|..] == [];
  }

  /** The programs `setCommand` refuses to run (lines 433-440). */
  predicate IsDangerous(program: string)
  {
    program == "rm" || program == "mv" || program == "del" || program == "rmdir"
    || program == "find" || program == "%f"
  }

  /** The first argument of a command line names a refused program. */
  predicate StartsDangerous(command: string)
  {
    var args := Arguments(command);
    args != [] && IsDangerous(args[0])
  }

  /** `s.erase(pos, count)`: removes at most `count` characters from `pos`;
      `pos` past the end throws, which no caller here does. */
  function Erase(s: string, pos: nat, count: nat): (r: string)
    requires pos <= |s|
    ensures |r| == |s| - (if pos + count <= |s| then count else |s| - pos)
  {
    s[..pos] + s[(if pos + count <= |s| then pos + count else |s|)..]
  }

  /** The command settings of `PGSFrameCreator`. */
  class FrameCreator {
    var command: string
    var argsTemplate: seq<string>
    var dangerous: bool

    /** What `setCommand` keeps true: a refused command leaves nothing
        behind, and a kept command is trimmed and split into its
        arguments, the first of which is not refused. */
    predicate Valid()
      reads this
    {
      && (dangerous ==> command == [] && argsTemplate == [])
      && (command != [] ==>
            && Trimmed(command) == command
            && argsTemplate == Arguments(command)
            && argsTemplate != [] && !IsDangerous(argsTemplate[0]))
    }

    constructor ()
      ensures Valid() && command == [] && argsTemplate == [] && !dangerous
    {
      command, argsTemplate, dangerous := [], [], false;
    }

    /** `setCommand`. An empty command returns early and keeps the old
        argument template; a blank one clears it. */
    method SetCommand(c: string)
      modifies this
      ensures Valid()
      ensures c == [] ==> command == [] && argsTemplate == old(argsTemplate) && !dangerous
      ensures c != [] && Trimmed(c) == [] ==> command == [] && argsTemplate == [] && !dangerous
      ensures Trimmed(c) != [] && StartsDangerous(Trimmed(c)) ==>
        command == [] && argsTemplate == [] && dangerous
      ensures Trimmed(c) != [] && !StartsDangerous(Trimmed(c)) ==>
        command == Trimmed(c) && argsTemplate == Arguments(Trimmed(c)) && !dangerous
    {
      command := c;
      dangerous := false;
      if command == [] {
        return;
      }
      command := Trim(command);
      argsTemplate := [];
      if command == [] {
        return;
      }
      argsTemplate := SplitArguments(command);
      TrimIdempotent(c);
      ArgumentsNonEmpty(command);
      var program := argsTemplate[0];
      if IsDangerous(program) {
        command := [];
        argsTemplate := [];
        dangerous := true;
      }
    }

    /** `commandTemplate`: every argument followed by one space. The erase
        on line 460 starts at the end and removes nothing. */
    method CommandTemplate() returns (cmd: string, isDangerous: bool)
      ensures cmd == Terminated(argsTemplate, ' ')
      ensures isDangerous == dangerous
    {
      cmd := [];
      var i := 0;
      while i < |argsTemplate|
        invariant 0 <= i <= |argsTemplate|
        invariant cmd == Terminated(argsTemplate[..i], ' ')
      {
        TerminatedAppend(argsTemplate[..i], [argsTemplate[i]], ' ');
        assert argsTemplate[..i + 1] == argsTemplate[..i] + [argsTemplate[i]];
        cmd := cmd + argsTemplate[i] + " ";
        i := i + 1;
      }
      assert argsTemplate[..i] == argsTemplate;
      isDangerous := dangerous;
      if cmd != [] {
        cmd := Erase(cmd, |cmd|, (|cmd| - 2) % TWO64);
      }
    }

    /** The arguments the image's command runs with (lines 297-326): None
        when there is no command, when its template is empty, or when no
        argument is "%f"; otherwise the template with its first "%f"
        replaced by the image path. */
    method ImageCommand(pngPath: string) returns (args: Option<seq<string>>)
      ensures command == [] ==> args == None
      ensures command != [] ==> args == Substituted(argsTemplate, pngPath)
    {
      if command == [] {
        return None;
      }
      if argsTemplate == [] {
        return None;
      }
      args := SubstitutePlaceholder(argsTemplate, pngPath);
    }
  }

  /** The index of the first "%f" argument, or the number of arguments. */
  function PlaceholderIndex(args: seq<string>): (k: nat)
    ensures k <= |args|
    ensures k < |args| ==> args[k] == "%f"
    ensures forall j :: 0 <= j < k ==> args[j] != "%f"
  {
    if args == [] then 0
    else if args[0] == "%f" then 0
    else 1 + PlaceholderIndex(args[1..])
  }

  /** The arguments with their first "%f" replaced, or None without one. */
  function Substituted(args: seq<string>, path: string): Option<seq<string>>
  {
    var k := PlaceholderIndex(args);
    if k == |args| then None else Some(args[k := path])
  }

  /** The search of lines 310-319: stops at the first "%f". */
  method SubstitutePlaceholder(args: seq<string>, path: string) returns (r: Option<seq<string>>)
    ensures r == Substituted(args, path)
  {
    var found := false;
    var out := args;
    var i := 0;
    while i < |args|
      invariant 0 <= i <= |args| && out == args
      invariant forall j :: 0 <= j < i ==> args[j] != "%f"
    {
      if args[i] == "%f" {
        out := out[i := path];
        found := true;
        break;
      }
      i := i + 1;
    }
    if !found {
      return None;
    }
    r := Some(out);
  }

  /** With the settings `setCommand` leaves, the program itself is never
      the placeholder: a substitution replaces an argument after it. */
  lemma ProgramNeverReplaced(fc: FrameCreator, path: string)
    requires fc.Valid() && fc.command != []
    ensures PlaceholderIndex(fc.argsTemplate) > 0
    ensures Substituted(fc.argsTemplate, path).Some? ==>
      Substituted(fc.argsTemplate, path).value[0] == fc.argsTemplate[0]
  {
  }

  /** The template the erase on line 460 evidently meant: the arguments
      with single spaces between them and none after the last. */
  function IntendedTemplate(args: seq<string>): string
  {
    Join(args, ' ')
  }

  /** The intended template is a command line `setCommand` accepts back
      unchanged: it is trimmed and splits into the same arguments. */
  lemma IntendedTemplateRoundTrip(args: seq<string>)
    requires forall i :: 0 <= i < |args| ==> IsArgument(args[i])
    ensures Arguments(IntendedTemplate(args)) == args
  {
    SplitJoin(args, ' ');
    KeptArgumentsFixed(args);
  }

  /** The template as written ends with a space whenever there is an
      argument, so it differs from the intended one by that space. */
  lemma TemplateTrailingSpace(args: seq<string>)
    requires args != []
    ensures Terminated(args, ' ') == IntendedTemplate(args) + " "
    ensures Terminated(args, ' ')[|Terminated(args, ' ')| - 1] == ' '
  {
    TerminatedIsJoin(args);
  }

  lemma {:induction false} TerminatedIsJoin(args: seq<string>)
    requires args != []
    ensures Terminated(args, ' ') == Join(args, ' ') + " "
    decreases |args|
  {
    if |args| > 1 {
      TerminatedIsJoin(args[1..]);
    }
  }
}
