/** The timing script of the older frame creator
    (`PGSFrameCreator::render`, SubtitleRenderer/pgsframecreator.cpp:45-175):
    the file "pgs.script" next to the images, one line per event,
    "timestamp x y image". An empty image "0.png" opens the script; each
    subtitle then shows its image `k.png` at its start tick and clears the
    screen at its end tick. */
module TimingScript {
  import opened Wrappers
  import opened Numbers
  import opened SrtText
  import opened FrameTime
  import opened FramePlacement

  /** One subtitle as the script sees it: its times in milliseconds and
      where its image is placed. */
  datatype Frame = Frame(start: nat, end: nat, at: Placed)

  /** What a script line says. */
  datatype Entry = Entry(tick: nat, x: nat, y: nat, image: string)

  /** `stream << t << ' ' << x << ' ' << y << ' ' << name`. */
  function ShowLine(t: nat, x: nat, y: nat, name: string): string
  {
    NatToString(t) + " " + NatToString(x) + " " + NatToString(y) + " " + name
  }

  /** The file name of frame `k`. */
  function ImageName(k: nat): (name: string)
    ensures name != [] && ' ' !in name && '\n' !in name
  {
    DigitsNoSeparator(NatToString(k));
    NatToString(k) + ".png"
  }

  /** The two lines of the subtitle numbered `frameNo`. */
  function FrameLines(f: Frame, frameNo: nat): seq<string>
  {
    [ ShowLine(PgsTimestamp(f.start), f.at.x, f.at.y, ImageName(frameNo)),
      ShowLine(PgsTimestamp(f.end), 0, 0, "clean") ]
  }

  /** The lines of the script, numbering the subtitles from 1. */
  function Script(frames: seq<Frame>): (lines: seq<string>)
    ensures |lines| == 1 + 2 * |frames|
  {
    if frames == [] then [ShowLine(0, 0, 0, "0.png")]
    else Script(frames[..|frames| - 1]) + FrameLines(frames[|frames| - 1], |frames|)
  }

  /** The text of the script file: every line ends with a newline. */
  function ScriptText(frames: seq<Frame>): string
  {
    Terminated(Script(frames), '\n')
  }

  /** `render`, as far as the timing file goes. `directoryReady` is whether
      the output directory exists or `mkpath` created it, `fileOpened`
      whether the timing file could be opened; the frames carry the
      placement computed for each subtitle. On failure nothing is
      written. */
  method Render(directoryReady: bool, fileOpened: bool, frames: seq<Frame>) returns (ok: bool, text: string)
    ensures ok <==> directoryReady && fileOpened
    ensures ok ==> text == ScriptText(frames)
    ensures !ok ==> text == []
  {
    if !directoryReady || !fileOpened {
      return false, [];
    }
    text := ShowLine(0, 0, 0, "0.png") + "\n";
    assert Script(frames[..0]) == [ShowLine(0, 0, 0, "0.png")];
    TerminatedPair(ShowLine(0, 0, 0, "0.png"), [], '\n');
    var frameNo: nat := 1;
    for i := 0 to |frames|
      invariant frameNo == i + 1
      invariant text == ScriptText(frames[..i])
    {
      var sub := frames[i];
      var filename := NatToString(frameNo) + ".png";
      var startLine := ShowLine(PgsTimestamp(sub.start), sub.at.x, sub.at.y, filename);
      var endLine := ShowLine(PgsTimestamp(sub.end), 0, 0, "clean");
      AppendFrame(frames, i);
      text := text + (startLine + "\n" + endLine + "\n");
      frameNo := frameNo + 1;
    }
    assert frames[..|frames|] == frames;
    ok := true;
  }

  /** The script text grows by the two lines of the next subtitle. */
  lemma AppendFrame(frames: seq<Frame>, i: nat)
    requires i < |frames|
    ensures var lines := FrameLines(frames[i], i + 1);
      ScriptText(frames[..i + 1]) == ScriptText(frames[..i]) + (lines[0] + "\n" + lines[1] + "\n")
  {
    var lines := FrameLines(frames[i], i + 1);
    assert frames[..i + 1][..i] == frames[..i];
    TerminatedAppend(Script(frames[..i]), lines, '\n');
    TerminatedPair(lines[0], [lines[1]], '\n');
    TerminatedPair(lines[1], [], '\n');
  }

  /** A line followed by more lines, each ended by the delimiter. */
  lemma TerminatedPair(a: string, rest: seq<string>, delim: char)
    ensures Terminated([a] + rest, delim) == a + [delim] + Terminated(rest, delim)
  {
    assert ([a] + rest)[1..] == rest;
  }

  /** Line by line: the empty first frame, then for the `k`-th subtitle
      (from 0) its image `k+1.png` at its start tick and position, and a
      clean at its end tick. */
  lemma {:induction false} ScriptLines(frames: seq<Frame>)
    ensures |Script(frames)| == 1 + 2 * |frames|
    ensures Script(frames)[0] == ShowLine(0, 0, 0, "0.png")
    ensures forall k :: 0 <= k < |frames| ==>
      && Script(frames)[1 + 2 * k]
           == ShowLine(PgsTimestamp(frames[k].start), frames[k].at.x, frames[k].at.y, ImageName(k + 1))
      && Script(frames)[2 + 2 * k] == ShowLine(PgsTimestamp(frames[k].end), 0, 0, "clean")
    decreases |frames|
  {
    if frames != [] {
      var init := frames[..|frames| - 1];
      ScriptLines(init);
      forall k | 0 <= k < |init|
        ensures frames[k] == init[k]
      {
      }
    }
  }

  /** A reader of one script line: four space-separated fields, three
      numbers and an image name. */
  function ReadEntry(line: string): (e: Option<Entry>)
  {
    var fields := Split(line, ' ');
    if |fields| != 4 then None
    else
      match (Stoul(fields[0]), Stoul(fields[1]), Stoul(fields[2]))
      case (Some(t), Some(x), Some(y)) => Some(Entry(t, x, y, fields[3]))
      case _ => None
  }

  /** A line is its four fields joined by spaces. */
  lemma LineIsJoin(a: string, b: string, c: string, d: string)
    ensures a + " " + b + " " + c + " " + d == Join([a, b, c, d], ' ')
  {
    JoinCons(c, [d], ' ');
    assert [b, c, d][1..] == [c, d];
    JoinCons(b, [c, d], ' ');
    assert [a, b, c, d][1..] == [b, c, d];
    JoinCons(a, [b, c, d], ' ');
  }

  /** Every line the script writes reads back as what was written, as long
      as the values fit the 64-bit range of `unsigned long`. */
  lemma ReadShownLine(t: nat, x: nat, y: nat, name: string)
    requires t <= ULONG_MAX && x <= ULONG_MAX && y <= ULONG_MAX
    requires name != [] && ' ' !in name
    ensures ReadEntry(ShowLine(t, x, y, name)) == Some(Entry(t, x, y, name))
  {
    var fields := [NatToString(t), NatToString(x), NatToString(y), name];
    DigitsNoSeparator(fields[0]);
    DigitsNoSeparator(fields[1]);
    DigitsNoSeparator(fields[2]);
    LineIsJoin(fields[0], fields[1], fields[2], name);
    SplitJoin(fields, ' ');
    StoulOfDecimal(t);
    StoulOfDecimal(x);
    StoulOfDecimal(y);
  }

  /** The script file splits back into its lines. */
  lemma ScriptSplits(frames: seq<Frame>)
    ensures Split(ScriptText(frames), '\n') == Script(frames)
  {
    var lines := Script(frames);
    var text := Terminated(lines, '\n');
    ScriptHasNoNewline(frames);
    SplitTerminated(lines, [], '\n');
    assert text + [] == text;
    assert lines + Split([], '\n') == lines;
  }

  /** Reading the script back: the file splits into its lines, the line
      of each subtitle's start names its image, tick and position, and the
      line after it clears the screen at its end tick. */
  lemma ScriptReadsBack(frames: seq<Frame>, k: nat)
    requires k < |frames|
    requires frames[k].at.x <= ULONG_MAX && frames[k].at.y <= ULONG_MAX
    ensures Split(ScriptText(frames), '\n') == Script(frames)
    ensures |Script(frames)| == 1 + 2 * |frames|
    ensures ReadEntry(Script(frames)[1 + 2 * k])
      == Some(Entry(PgsTimestamp(frames[k].start), frames[k].at.x, frames[k].at.y, ImageName(k + 1)))
    ensures ReadEntry(Script(frames)[2 + 2 * k])
      == Some(Entry(PgsTimestamp(frames[k].end), 0, 0, "clean"))
  {
    ScriptSplits(frames);
    ScriptLines(frames);
    ReadShownLine(PgsTimestamp(frames[k].start), frames[k].at.x, frames[k].at.y, ImageName(k + 1));
    ReadShownLine(PgsTimestamp(frames[k].end), 0, 0, "clean");
  }

  /** No line of the script contains a newline. */
  lemma {:induction false} ScriptHasNoNewline(frames: seq<Frame>)
    ensures forall i :: 0 <= i < |Script(frames)| ==> '\n' !in Script(frames)[i]
    decreases |frames|
  {
    if frames == [] {
      ShownLineHasNoNewline(0, 0, 0, "0.png");
    } else {
      var k := |frames| - 1;
      ScriptHasNoNewline(frames[..k]);
      ShownLineHasNoNewline(PgsTimestamp(frames[k].start), frames[k].at.x, frames[k].at.y, ImageName(k + 1));
      ShownLineHasNoNewline(PgsTimestamp(frames[k].end), 0, 0, "clean");
    }
  }

  lemma ShownLineHasNoNewline(t: nat, x: nat, y: nat, name: string)
    requires '\n' !in name
    ensures '\n' !in ShowLine(t, x, y, name)
  {
    DigitsNoSeparator(NatToString(t));
    DigitsNoSeparator(NatToString(x));
    DigitsNoSeparator(NatToString(y));
  }
}
