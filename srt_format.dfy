/** Well-formed SubRip files and what `parse` makes of them: a file written
    as numbered blocks, each with its timing line, its text lines and a
    blank line, parses back to one item per block. */
module SrtFormat {
  import opened Wrappers
  import opened Numbers
  import opened SrtText
  import opened SrtParser

  /** A time as a block states it. */
  datatype Time = Time(h: nat, m: nat, s: nat, ms: nat)

  function TimeText(t: Time): string
  {
    SrtTime(t.h, t.m, t.s, t.ms)
  }

  function TimeMs(t: Time): nat
  {
    Millis(t.h, t.m, t.s, t.ms)
  }

  predicate TimeFits(t: Time)
  {
    t.h <= ULONG_MAX && t.m <= ULONG_MAX && t.s <= ULONG_MAX && t.ms <= ULONG_MAX
  }

  /** One subtitle as an SRT block: its number, its times and its text lines. */
  datatype Block = Block(number: nat, start: Time, end: Time, lines: seq<string>)

  /** A line of subtitle text the parser keeps as text: not blank, one line,
      no carriage return and no "-->". */
  predicate TextLine(l: string)
  {
    l != [] && '\n' !in l && '\r' !in l && !Occurs("-->", l)
  }

  predicate WellFormed(b: Block)
  {
    && b.number <= ULONG_MAX && TimeFits(b.start) && TimeFits(b.end)
    && forall i :: 0 <= i < |b.lines| ==> TextLine(b.lines[i])
  }

  function TimingLine(b: Block): string
  {
    TimeText(b.start) + " --> " + TimeText(b.end)
  }

  /** The lines of a block up to its last text line. */
  function BlockBody(b: Block): seq<string>
  {
    [NatToString(b.number), TimingLine(b)] + b.lines
  }

  /** The lines of a block with the blank line that ends it. */
  function BlockLines(b: Block): seq<string>
  {
    BlockBody(b) + [""]
  }

  function AllLines(bs: seq<Block>): seq<string>
  {
    if bs == [] then [] else BlockLines(bs[0]) + AllLines(bs[1..])
  }

  /** A file of blocks, every line ended by a newline. */
  function SrtFile(bs: seq<Block>): string
  {
    Terminated(AllLines(bs), '\n')
  }

  /** The item a block stands for. */
  function ItemOf(b: Block): Item
  {
    Item(b.number, TimeText(b.start), TimeText(b.end), Join(b.lines, '\n'), TimeMs(b.start), TimeMs(b.end))
  }

  function Items(bs: seq<Block>): (items: seq<Item>)
    ensures |items| == |bs|
  {
    if bs == [] then [] else [ItemOf(bs[0])] + Items(bs[1..])
  }

  /** Lines read from the middle of a file: no end-of-file flag. */
  function Plain(ls: seq<string>): (lines: seq<Line>)
    ensures |lines| == |ls|
  {
    seq(|ls|, i requires 0 <= i < |ls| => Line(ls[i], false))
  }

  /** The state between blocks. */
  predicate Ready(st: State)
  {
    st.turn == 0 && st.completeLine == "" && st.timeLine == ""
  }

  lemma {:induction false} StepsAppend(st: State, a: seq<Line>, b: seq<Line>)
    ensures Steps(st, a).Ok? ==> Steps(st, a + b) == Steps(Steps(st, a).value, b)
    ensures !Steps(st, a).Ok? ==> Steps(st, a + b) == Steps(st, a)
    decreases |a|
  {
    if a == [] {
      assert a + b == b;
    } else {
      assert (a + b)[0] == a[0] && (a + b)[1..] == a[1..] + b;
      if Step(st, a[0]).Ok? {
        StepsAppend(Step(st, a[0]).value, a[1..], b);
      }
    }
  }

  lemma PlainSnoc(ls: seq<string>)
    requires ls != []
    ensures Plain(ls) == Plain(ls[..|ls| - 1]) + [Line(ls[|ls| - 1], false)]
  {
  }

  lemma PlainAppend(a: seq<string>, b: seq<string>)
    ensures Plain(a + b) == Plain(a) + Plain(b)
  {
  }

  lemma TimeTextChars(t: Time)
    ensures TimeText(t) != [] && ' ' !in TimeText(t) && '\n' !in TimeText(t) && '\r' !in TimeText(t)
  {
    DigitsNoSeparator(PadZero(t.h, 2));
    DigitsNoSeparator(PadZero(t.m, 2));
    DigitsNoSeparator(PadZero(t.s, 2));
    DigitsNoSeparator(PadZero(t.ms, 3));
  }

  /** The number line starts a block. */
  lemma NumberLineStep(st: State, n: nat)
    requires st.turn == 0 && n <= ULONG_MAX
    ensures Step(st, Line(NatToString(n), false)) == Ok(st.(subNo := n, turn := 1))
  {
    var d := NatToString(n);
    DigitsNoSeparator(d);
    WithoutCRUnchanged(d);
    StoulOfDecimal(n);
  }

  /** The timing line holds "-->" and splits at spaces into the two times
      around it. */
  lemma TimingLineText(a: string, c: string)
    requires a != [] && ' ' !in a && '\r' !in a
    requires c != [] && ' ' !in c && '\r' !in c
    ensures var tl := a + " --> " + c;
      && '\r' !in tl && Occurs("-->", tl) && Split(tl, ' ') == [a, "-->", c]
  {
    ArrowOccurs(a, c);
    TimingLineSplit(a, c);
  }

  /** The arrow sits right after the start time and its space. */
  lemma ArrowOccurs(a: string, c: string)
    ensures Occurs("-->", a + " --> " + c)
  {
    var tl := a + " --> " + c;
    assert OccursAt("-->", tl, |a| + 1) by {
      assert tl[|a| + 1..|a| + 4] == "-->";
    }
  }

  /** A timing line splits at its two spaces. */
  lemma TimingLineSplit(a: string, c: string)
    requires a != [] && ' ' !in a && c != [] && ' ' !in c
    ensures Split(a + " --> " + c, ' ') == [a, "-->", c]
  {
    JoinTriple(a, "-->", c, ' ');
    assert Join([a, "-->", c], ' ') == a + " --> " + c;
    SplitJoin([a, "-->", c], ' ');
  }

  /** The timing line sets the start and end strings. */
  lemma TimingLineStep(st: State, b: Block)
    requires st.turn == 1 && st.timeLine == "" && WellFormed(b)
    ensures Step(st, Line(TimingLine(b), false))
         == Ok(st.(timeLine := TimingLine(b), start := TimeText(b.start), end := TimeText(b.end), turn := 2))
  {
    var tl := TimingLine(b);
    TimingLineShape(b);
    EmptyFront(st.timeLine, tl);
    ArrowStep(st, tl);
  }

  /** A timing line holds no carriage return, holds the arrow, and splits at
      its spaces into the start time, the arrow and the end time. */
  lemma TimingLineShape(b: Block)
    ensures var tl := TimingLine(b);
      && tl != [] && WithoutCR(tl) == tl && Occurs("-->", tl)
      && Split(tl, ' ') == [TimeText(b.start), "-->", TimeText(b.end)]
  {
    TimeTextChars(b.start);
    TimeTextChars(b.end);
    TimingLineText(TimeText(b.start), TimeText(b.end));
    WithoutCRUnchanged(TimingLine(b));
  }

  lemma EmptyFront<T>(a: seq<T>, b: seq<T>)
    requires a == []
    ensures a + b == b
  {
  }

  /** A line with an arrow goes onto `timeLine`, which is cut at spaces
      into the start and end strings. */
  lemma ArrowStep(st: State, text: string)
    requires st.turn != 0 && text != [] && WithoutCR(text) == text && Occurs("-->", text)
    requires |Split(st.timeLine + text, ' ')| >= 3
    ensures var parts := Split(st.timeLine + text, ' ');
      Step(st, Line(text, false))
        == Ok(st.(timeLine := st.timeLine + text, start := parts[0], end := parts[2], turn := st.turn + 1))
  {
  }

  /** `completeLine` after further text lines: the lines joined by newlines. */
  function Joined(c: string, ls: seq<string>): string
  {
    if ls == [] then c else if c == "" then Join(ls, '\n') else c + "\n" + Join(ls, '\n')
  }

  /** Text lines are collected into `completeLine`, newline between them. */
  lemma {:induction false} TextLinesSteps(st: State, ls: seq<string>)
    requires st.turn >= 1
    requires forall i :: 0 <= i < |ls| ==> TextLine(ls[i])
    ensures Steps(st, Plain(ls)) == Ok(st.(turn := st.turn + |ls|, completeLine := Joined(st.completeLine, ls)))
    decreases |ls|
  {
    if ls != [] {
      var l := ls[0];
      var c := st.completeLine;
      var c1 := (if c != "" then c + "\n" else c) + l;
      var st1 := st.(completeLine := c1, turn := st.turn + 1);
      assert Steps(st, Plain(ls)) == Steps(st1, Plain(ls[1..])) by {
        assert Plain(ls)[0] == Line(l, false) && Plain(ls)[1..] == Plain(ls[1..]);
        TextLineStep(st, l);
      }
      TextLinesSteps(st1, ls[1..]);
      assert Joined(c1, ls[1..]) == Joined(c, ls) by {
        JoinedStep(c, l, ls[1..]);
        assert [l] + ls[1..] == ls;
      }
    }
  }

  /** A text line goes onto `completeLine`. */
  lemma TextLineStep(st: State, l: string)
    requires st.turn >= 1 && TextLine(l)
    ensures Step(st, Line(l, false))
         == Ok(st.(completeLine := (if st.completeLine != "" then st.completeLine + "\n" else st.completeLine) + l,
                   turn := st.turn + 1))
  {
    WithoutCRUnchanged(l);
  }

  /** One more line on `completeLine`. */
  lemma JoinedStep(c: string, l: string, rest: seq<string>)
    requires l != []
    ensures Joined((if c != "" then c + "\n" else c) + l, rest) == Joined(c, [l] + rest)
  {
    JoinCons(l, rest, '\n');
    if rest != [] && c != "" {
      Associative(c + "\n" + l, "\n", Join(rest, '\n'));
      Associative(c + "\n", l + "\n", Join(rest, '\n'));
    }
  }

  /** The state once a block's lines up to its last text line are read. */
  function Filled(st: State, b: Block): State
  {
    st.(turn := 2 + |b.lines|, subNo := b.number, start := TimeText(b.start), end := TimeText(b.end),
        timeLine := TimingLine(b), completeLine := Join(b.lines, '\n'))
  }

  lemma BodySteps(st: State, b: Block)
    requires Ready(st) && WellFormed(b)
    ensures Steps(st, Plain(BlockBody(b))) == Ok(Filled(st, b))
  {
    var st1 := st.(subNo := b.number, turn := 1);
    var st2 := st1.(timeLine := TimingLine(b), start := TimeText(b.start), end := TimeText(b.end), turn := 2);
    NumberThen(st, b);
    TimingThen(st1, b);
    assert st2.(turn := st2.turn + |b.lines|, completeLine := Joined(st2.completeLine, b.lines)) == Filled(st, b);
    TextLinesSteps(st2, b.lines);
  }

  lemma NumberThen(st: State, b: Block)
    requires Ready(st) && WellFormed(b)
    ensures Steps(st, Plain(BlockBody(b)))
         == Steps(st.(subNo := b.number, turn := 1), [Line(TimingLine(b), false)] + Plain(b.lines))
  {
    var n := NatToString(b.number);
    var rest := [Line(TimingLine(b), false)] + Plain(b.lines);
    assert Plain(BlockBody(b)) == [Line(n, false)] + rest by {
      PlainAppend([n, TimingLine(b)], b.lines);
    }
    NumberLineStep(st, b.number);
    StepsCons(st, Line(n, false), rest);
  }

  lemma TimingThen(st1: State, b: Block)
    requires st1.turn == 1 && st1.timeLine == "" && WellFormed(b)
    ensures Steps(st1, [Line(TimingLine(b), false)] + Plain(b.lines))
         == Steps(st1.(timeLine := TimingLine(b), start := TimeText(b.start), end := TimeText(b.end), turn := 2),
                  Plain(b.lines))
  {
    TimingLineStep(st1, b);
    StepsCons(st1, Line(TimingLine(b), false), Plain(b.lines));
  }

  /** A successful first step hands the rest to the next state. */
  lemma StepsCons(st: State, l: Line, rest: seq<Line>)
    requires Step(st, l).Ok?
    ensures Steps(st, [l] + rest) == Steps(Step(st, l).value, rest)
  {
    assert ([l] + rest)[0] == l && ([l] + rest)[1..] == rest;
  }

  /** Appending the item of a filled block. */
  lemma PushFilled(st: State, b: Block)
    requires WellFormed(b)
    ensures Push(Filled(st, b)) == Ok(Filled(st, b).(subtitles := st.subtitles + [ItemOf(b)]))
  {
    TimeMSecOfSrtTime(b.start.h, b.start.m, b.start.s, b.start.ms);
    TimeMSecOfSrtTime(b.end.h, b.end.m, b.end.s, b.end.ms);
  }

  /** A block ended by its blank line yields its item and leaves the state
      ready for the next block. */
  lemma BlockSteps(st: State, b: Block)
    requires Ready(st) && WellFormed(b)
    ensures Steps(st, Plain(BlockLines(b)))
         == Ok(State(0, b.number, TimeText(b.start), TimeText(b.end), "", "", st.subtitles + [ItemOf(b)]))
  {
    var f := Filled(st, b);
    BodySteps(st, b);
    PushFilled(st, b);
    assert WithoutCR("") == "";
    PlainAppend(BlockBody(b), [""]);
    StepsAppend(st, Plain(BlockBody(b)), Plain([""]));
  }

  lemma {:induction false} BlocksSteps(st: State, bs: seq<Block>)
    requires Ready(st)
    requires forall i :: 0 <= i < |bs| ==> WellFormed(bs[i])
    ensures Steps(st, Plain(AllLines(bs))).Ok?
    ensures Ready(Steps(st, Plain(AllLines(bs))).value)
    ensures Steps(st, Plain(AllLines(bs))).value.subtitles == st.subtitles + Items(bs)
    decreases |bs|
  {
    if bs == [] {
      assert st.subtitles + [] == st.subtitles;
    } else {
      var b := bs[0];
      BlockSteps(st, b);
      var st1 := State(0, b.number, TimeText(b.start), TimeText(b.end), "", "", st.subtitles + [ItemOf(b)]);
      PlainAppend(BlockLines(b), AllLines(bs[1..]));
      StepsAppend(st, Plain(BlockLines(b)), Plain(AllLines(bs[1..])));
      BlocksSteps(st1, bs[1..]);
      Associative(st.subtitles, [ItemOf(b)], Items(bs[1..]));
    }
  }

  /** No line of a well-formed file holds a newline. */
  lemma {:induction false} AllLinesSingle(bs: seq<Block>)
    requires forall i :: 0 <= i < |bs| ==> WellFormed(bs[i])
    ensures forall i :: 0 <= i < |AllLines(bs)| ==> '\n' !in AllLines(bs)[i]
    decreases |bs|
  {
    if bs != [] {
      BlockLinesSingle(bs[0]);
      AllLinesSingle(bs[1..]);
    }
  }

  lemma BodySingle(b: Block)
    requires WellFormed(b)
    ensures forall i :: 0 <= i < |BlockBody(b)| ==> '\n' !in BlockBody(b)[i] && BlockBody(b)[i] != []
  {
    var d := NatToString(b.number);
    DigitsNoSeparator(d);
    TimingLineChars(b);
    assert BlockBody(b)[0] == d;
  }

  lemma BlockLinesSingle(b: Block)
    requires WellFormed(b)
    ensures forall i :: 0 <= i < |BlockLines(b)| ==> '\n' !in BlockLines(b)[i]
  {
    BodySingle(b);
    var lines := BlockLines(b);
    assert forall i :: 0 <= i < |lines| - 1 ==> lines[i] == BlockBody(b)[i];
  }

  lemma TimingLineChars(b: Block)
    ensures '\n' !in TimingLine(b) && TimingLine(b) != []
  {
    TimeTextChars(b.start);
    TimeTextChars(b.end);
  }

  /** The lines `parse` reads from a file of complete lines. */
  lemma ReadTerminated(ls: seq<string>)
    requires forall i :: 0 <= i < |ls| ==> '\n' !in ls[i]
    ensures ReadLines(Terminated(ls, '\n')) == Plain(ls)
  {
    var text := Terminated(ls, '\n');
    assert Split(text, '\n') == ls by {
      SplitTerminated(ls, [], '\n');
      assert text + [] == text;
      assert ls + Split([], '\n') == ls;
    }
    assert !(text != [] && text[|text| - 1] != '\n') by {
      TerminatedEnds(ls, '\n');
    }
    ReadNewlineEnded(text, ls);
  }

  /** A text that is empty or ends with a newline reads as plain lines. */
  lemma ReadNewlineEnded(text: string, ls: seq<string>)
    requires Split(text, '\n') == ls && (text == [] || text[|text| - 1] == '\n')
    ensures ReadLines(text) == Plain(ls)
  {
    var r := ReadLines(text);
    forall i | 0 <= i < |ls| ensures r[i] == Plain(ls)[i] {
    }
  }

  /** A text that starts with a digit does not start with a byte-order
      mark, and is read whole once it is three characters long. */
  lemma DigitStart(f: string)
    requires |f| >= 3 && IsDigit(f[0])
    ensures SkipUtf8Bom(f) == f
  {
    assert f[..3][0] == f[0];
  }

  /** A non-empty well-formed file starts with the first block's number and
      is at least three characters long. */
  lemma FileStart(bs: seq<Block>)
    requires bs != [] && WellFormed(bs[0])
    ensures |SrtFile(bs)| >= 3 && IsDigit(SrtFile(bs)[0])
  {
    var d := NatToString(bs[0].number);
    var ls := AllLines(bs);
    assert ls == BlockLines(bs[0]) + AllLines(bs[1..]);
    assert ls[0] == d && |ls| >= 2;
    TerminatedFront(ls, '\n');
    assert IsDigit(d[0]);
  }

  /** A file of well-formed blocks, each ended by a blank line, parses to
      the blocks' items, with or without a byte-order mark in front. */
  lemma ParseSrtFile(bs: seq<Block>)
    requires forall i :: 0 <= i < |bs| ==> WellFormed(bs[i])
    ensures Parse(true, SrtFile(bs)) == Outcome(Items(bs), false, None)
    ensures Parse(true, BOM + SrtFile(bs)) == Outcome(Items(bs), false, None)
  {
    AllLinesSingle(bs);
    ReadTerminated(AllLines(bs));
    BlocksSteps(Initial, bs);
    assert [] + Items(bs) == Items(bs);
    SkipUtf8BomCases(SrtFile(bs));
    if bs != [] {
      FileStart(bs);
      DigitStart(SrtFile(bs));
    }
  }

  /** The last character of joined pieces is that of the last piece when it
      is not empty. */
  lemma {:induction false} JoinLast(ps: seq<string>, d: char)
    requires ps != [] && ps[|ps| - 1] != []
    ensures Join(ps, d) != [] && Join(ps, d)[|Join(ps, d)| - 1] == ps[|ps| - 1][|ps[|ps| - 1]| - 1]
    decreases |ps|
  {
    if |ps| > 1 {
      JoinLast(ps[1..], d);
    }
  }

  /** A last block without the blank line and the final newline is still
      appended: its last line carries the end-of-file flag. */
  lemma ParseUnterminated(bs: seq<Block>, b: Block)
    requires forall i :: 0 <= i < |bs| ==> WellFormed(bs[i])
    requires WellFormed(b)
    ensures Parse(true, SrtFile(bs) + Join(BlockBody(b), '\n')) == Outcome(Items(bs) + [ItemOf(b)], false, None)
  {
    var body := BlockBody(b);
    var k := |body|;
    var front := Plain(AllLines(bs));
    var back := Plain(body[..k - 1]) + [Line(body[k - 1], true)];
    UnterminatedStart(bs, b);
    AllLinesSingle(bs);
    BodySingle(b);
    UnterminatedLines(AllLines(bs), body);
    BlocksSteps(Initial, bs);
    var st := Steps(Initial, front).value;
    StepsAppend(Initial, front, back);
    EndOfFileBlock(st, b);
    assert [] + Items(bs) == Items(bs);
  }

  /** A file whose last block lacks the blank line and the final newline
      still starts with a digit and is read whole. */
  lemma UnterminatedStart(bs: seq<Block>, b: Block)
    requires bs != [] ==> WellFormed(bs[0])
    requires WellFormed(b)
    ensures SkipUtf8Bom(SrtFile(bs) + Join(BlockBody(b), '\n')) == SrtFile(bs) + Join(BlockBody(b), '\n')
  {
    var tail := Join(BlockBody(b), '\n');
    var file := SrtFile(bs) + tail;
    if bs != [] {
      FileStart(bs);
      FrontOf(SrtFile(bs), tail);
    } else {
      EmptyFront(SrtFile(bs), tail);
      BodyStart(b);
    }
    DigitStart(file);
  }

  /** The lines of a block joined by newlines start with the block's number
      and hold at least three characters. */
  lemma BodyStart(b: Block)
    requires WellFormed(b)
    ensures var j := Join(BlockBody(b), '\n');
      |j| >= 3 && IsDigit(j[0])
  {
    var d := NatToString(b.number);
    var tl := TimingLine(b);
    TimingLineShape(b);
    JoinFront(tl, b.lines, '\n');
    JoinFront(d, [tl] + b.lines, '\n');
    ConsPair(d, tl, b.lines);
    assert IsDigit(d[0]);
  }

  lemma ConsPair<T>(x: T, y: T, s: seq<T>)
    ensures [x] + ([y] + s) == [x, y] + s
  {
  }

  lemma FrontOf<T>(a: seq<T>, b: seq<T>)
    requires a != []
    ensures |a + b| >= |a| && (a + b)[0] == a[0]
  {
  }

  /** Complete lines followed by lines without a final newline: the last
      line read carries the end-of-file flag. */
  lemma UnterminatedLines(front: seq<string>, body: seq<string>)
    requires forall i :: 0 <= i < |front| ==> '\n' !in front[i]
    requires forall i :: 0 <= i < |body| ==> '\n' !in body[i] && body[i] != []
    requires body != []
    ensures ReadLines(Terminated(front, '\n') + Join(body, '\n'))
         == Plain(front) + (Plain(body[..|body| - 1]) + [Line(body[|body| - 1], true)])
  {
    var file := Terminated(front, '\n') + Join(body, '\n');
    UnterminatedText(front, body);
    ReadLinesEof(file);
    DropLast(front, body);
    PlainAppend(front, body[..|body| - 1]);
    Assoc(Plain(front), Plain(body[..|body| - 1]), [Line(body[|body| - 1], true)]);
  }

  /** Complete lines followed by lines without a final newline: the text
      splits into all of them and does not end with a newline. */
  lemma UnterminatedText(front: seq<string>, body: seq<string>)
    requires forall i :: 0 <= i < |front| ==> '\n' !in front[i]
    requires forall i :: 0 <= i < |body| ==> '\n' !in body[i] && body[i] != []
    requires body != []
    ensures var file := Terminated(front, '\n') + Join(body, '\n');
      && Split(file, '\n') == front + body
      && file != [] && file[|file| - 1] != '\n'
  {
    var tail := Join(body, '\n');
    var file := Terminated(front, '\n') + tail;
    assert Split(file, '\n') == front + body by {
      SplitTerminated(front, tail, '\n');
      SplitJoin(body, '\n');
    }
    JoinLast(body, '\n');
    assert file[|file| - 1] == tail[|tail| - 1];
  }

  lemma Assoc<T>(a: seq<T>, b: seq<T>, c: seq<T>)
    ensures a + b + c == a + (b + c)
  {
  }

  /** A text that does not end with a newline: its last line carries the
      end-of-file flag. */
  lemma ReadLinesEof(text: string)
    requires text != [] && text[|text| - 1] != '\n'
    ensures var ls := Split(text, '\n');
      ReadLines(text) == Plain(ls[..|ls| - 1]) + [Line(ls[|ls| - 1], true)]
  {
  }

  lemma DropLast<T>(a: seq<T>, b: seq<T>)
    requires b != []
    ensures (a + b)[..|a + b| - 1] == a + b[..|b| - 1] && (a + b)[|a + b| - 1] == b[|b| - 1]
  {
  }

  /** A block whose last line ends the file is appended by the end-of-file
      check. */
  lemma EndOfFileBlock(st: State, b: Block)
    requires Ready(st) && WellFormed(b)
    ensures var body := BlockBody(b);
      Steps(st, Plain(body[..|body| - 1]) + [Line(body[|body| - 1], true)])
        == Ok(Filled(st, b).(subtitles := st.subtitles + [ItemOf(b)]))
  {
    var body := BlockBody(b);
    var k := |body|;
    BodySteps(st, b);
    PlainSnoc(body);
    EndOfFileLast(st, Plain(body[..k - 1]), body[k - 1], Filled(st, b));
    PushFilled(st, b);
  }

  /** Lines whose last one leaves `turn` at 2 or more: read with the
      end-of-file flag on that line, one more item is appended. */
  lemma EndOfFileLast(st: State, prefix: seq<Line>, t: string, result: State)
    requires Steps(st, prefix + [Line(t, false)]) == Ok(result) && result.turn >= 2
    ensures Steps(st, prefix + [Line(t, true)]) == Push(result)
  {
    StepsSnoc(st, prefix, Line(t, false));
    StepsSnoc(st, prefix, Line(t, true));
    EndOfFileAppends(Steps(st, prefix).value, t);
  }

  /** One more line after the others. */
  lemma StepsSnoc(st: State, lines: seq<Line>, line: Line)
    ensures Steps(st, lines + [line])
         == if Steps(st, lines).Ok? then Step(Steps(st, lines).value, line) else Steps(st, lines)
  {
    StepsAppend(st, lines, [line]);
    if Steps(st, lines).Ok? {
      StepsSingle(Steps(st, lines).value, line);
    }
  }

  lemma StepsSingle(st: State, line: Line)
    ensures Steps(st, [line]) == Step(st, line)
  {
    assert [line][1..] == [];
  }
}
