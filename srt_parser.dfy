/** The SubRip parser (SubtitleParser/srtparser.cpp) and its subtitle item
    (subtitle-parser/include/srtparser/srtparser.hpp). The file arrives as
    its existence and its text; the loop over `std::getline` goes through
    the lines `ReadLines` gives. */
module SrtParser {
  import opened Wrappers
  import opened Numbers
  import opened SrtText

  /** A step that can fail: normal completion, a thrown `std::exception`
      with its `what()` text, or undefined behaviour (a `std::vector`
      subscript past the end), which the model treats as a failure with no
      message. */
  datatype Try<T> = Ok(value: T) | Throws(what: string) | Undefined

  /** The `what()` text of the exceptions `std::stoull` throws when there is
      no number or it is out of range. */
  const STOULL: string := "stoull"

  /** `SubtitleItem::timeMSec` (SubtitleParser/srtparser.cpp:154-168): split
      at ':' into hours, minutes and the rest, split the rest at ',' into
      seconds and milliseconds, and add up in 64-bit unsigned arithmetic.
      The conversions run in that order, so the first bad field decides. */
  function TimeMSec(value: string): (r: Try<nat>)
    ensures r.Ok? ==> r.value < TWO64
    ensures r.Throws? ==> r.what == STOULL
  {
    var t := Split(value, ':');
    if |t| < 1 then Undefined
    else match Stoul(t[0])
    case None => Throws(STOULL)
    case Some(hours) =>
      if |t| < 2 then Undefined
      else match Stoul(t[1])
      case None => Throws(STOULL)
      case Some(mins) =>
        if |t| < 3 then Undefined
        else
          var secs := Split(t[2], ',');
          if |secs| < 1 then Undefined
          else match Stoul(secs[0])
          case None => Throws(STOULL)
          case Some(seconds) =>
            if |secs| < 2 then Undefined
            else match Stoul(secs[1])
            case None => Throws(STOULL)
            case Some(milliseconds) => Ok(Millis(hours, mins, seconds, milliseconds))
  }

  /** The sum of the four fields in `timestamp_t`, an unsigned 64-bit type. */
  function Millis(hours: nat, mins: nat, seconds: nat, milliseconds: nat): (r: nat)
    ensures r < TWO64
  {
    (hours * 3600000 + mins * 60000 + seconds * 1000 + milliseconds) % TWO64
  }

  /** The usual "HH:MM:SS,mmm" text of a time, zero padded. */
  function SrtTime(h: nat, m: nat, s: nat, ms: nat): string
  {
    PadZero(h, 2) + ":" + PadZero(m, 2) + ":" + (PadZero(s, 2) + "," + PadZero(ms, 3))
  }

  lemma JoinPair(a: string, b: string, d: char)
    ensures Join([a, b], d) == a + [d] + b
  {
    assert [a, b][1..] == [b];
  }

  lemma JoinTriple(a: string, b: string, c: string, d: char)
    ensures Join([a, b, c], d) == a + [d] + b + [d] + c
  {
    assert [a, b, c][1..] == [b, c];
    JoinPair(b, c, d);
  }

  /** Reading a written time gives back its milliseconds. */
  lemma TimeMSecOfSrtTime(h: nat, m: nat, s: nat, ms: nat)
    requires h <= ULONG_MAX && m <= ULONG_MAX && s <= ULONG_MAX && ms <= ULONG_MAX
    ensures TimeMSec(SrtTime(h, m, s, ms)) == Ok(Millis(h, m, s, ms))
  {
    var hs, mins, ss, mss := PadZero(h, 2), PadZero(m, 2), PadZero(s, 2), PadZero(ms, 3);
    PaddedNumber(h, 2);
    PaddedNumber(m, 2);
    PaddedNumber(s, 2);
    PaddedNumber(ms, 3);
    TimeFields(hs, mins, ss, mss, h, m, s, ms);
    JoinPair(ss, mss, ',');
    JoinTriple(hs, mins, Join([ss, mss], ','), ':');
  }

  /** Four fields without separators, joined as "H:M:S,ms", are read back field by field. */
  lemma TimeFields(hs: string, mins: string, ss: string, mss: string, h: nat, m: nat, s: nat, ms: nat)
    requires Stoul(hs) == Some(h) && Stoul(mins) == Some(m) && Stoul(ss) == Some(s) && Stoul(mss) == Some(ms)
    requires ':' !in hs && ':' !in mins && ':' !in ss && ':' !in mss && ',' !in ss && ',' !in mss && mss != []
    ensures TimeMSec(Join([hs, mins, Join([ss, mss], ',')], ':')) == Ok(Millis(h, m, s, ms))
  {
    var rest := Join([ss, mss], ',');
    assert Split(rest, ',') == [ss, mss] by {
      SplitJoin([ss, mss], ',');
    }
    assert rest != [] && ':' !in rest by {
      JoinPair(ss, mss, ',');
    }
    assert Split(Join([hs, mins, rest], ':'), ':') == [hs, mins, rest] by {
      SplitJoin([hs, mins, rest], ':');
    }
    TimeOfPieces(Join([hs, mins, rest], ':'), hs, mins, rest, ss, mss, h, m, s, ms);
  }

  /** A time whose pieces split as expected and convert. */
  lemma TimeOfPieces(value: string, hs: string, mins: string, rest: string, ss: string, mss: string,
                     h: nat, m: nat, s: nat, ms: nat)
    requires Split(value, ':') == [hs, mins, rest] && Split(rest, ',') == [ss, mss]
    requires Stoul(hs) == Some(h) && Stoul(mins) == Some(m) && Stoul(ss) == Some(s) && Stoul(mss) == Some(ms)
    ensures TimeMSec(value) == Ok(Millis(h, m, s, ms))
  {
  }

  /** A zero-padded number is a non-empty run of digits, without separators,
      that `std::stoull` reads back. */
  lemma PaddedNumber(n: nat, width: nat)
    requires n <= ULONG_MAX
    ensures var p := PadZero(n, width);
      p != [] && Stoul(p) == Some(n) && ':' !in p && ',' !in p && ' ' !in p && '\n' !in p && '\r' !in p
  {
    var p := PadZero(n, width);
    PadZeroValue(n, width);
    assert p != [] by {
      var d := NatToString(n);
      if |d| >= width { assert p == d; } else { assert |p| == width - |d| + |d|; }
    }
    ScanDigits(p);
    assert n % TWO64 == n;
  }

  /** The values of one subtitle. */
  datatype Item = Item(subNo: nat, startString: string, endString: string, text: string,
                       startTime: nat, endTime: nat)

  /** `SubtitleItem(subNo, start, end, text)`: the times are read with
      `timeMSec`, whose exceptions reach the caller. */
  function MakeItem(subNo: nat, start: string, end: string, text: string): (r: Try<Item>)
    ensures r.Ok? <==> TimeMSec(start).Ok? && TimeMSec(end).Ok?
    ensures r.Throws? ==> r.what == STOULL
    ensures r.Ok? ==>
      && r.value.startTime == TimeMSec(start).value && r.value.endTime == TimeMSec(end).value
      && r.value.startString == start && r.value.endString == end && r.value.text == text
      && r.value.subNo == subNo
  {
    match TimeMSec(start)
    case Throws(w) => Throws(w)
    case Undefined => Undefined
    case Ok(s) =>
      match TimeMSec(end)
      case Throws(w) => Throws(w)
      case Undefined => Undefined
      case Ok(e) => Ok(Item(subNo, start, end, text, s, e))
  }

  /** The item object of subtitle-parser/include/srtparser/srtparser.hpp:27-116. */
  class SubtitleItem {
    var startTime: nat
    var endTime: nat
    var text: string
    var subNo: nat
    var startTimeString: string
    var endTimeString: string

    /** Times and numbers fit the unsigned 64-bit types. */
    ghost predicate Valid()
      reads this
    {
      startTime < TWO64 && endTime < TWO64 && subNo < TWO64
    }

    /** The values the getters return. */
    function Value(): Item
      reads this
    {
      Item(subNo, startTimeString, endTimeString, text, startTime, endTime)
    }

    /** The four-argument constructor (srtparser.hpp:33-41): the strings and
        number are stored as given, and the times are their `timeMSec`. */
    constructor (subNo: nat, start: string, end: string, text: string)
      requires subNo < TWO64 && TimeMSec(start).Ok? && TimeMSec(end).Ok?
      ensures Valid()
      ensures Ok(Value()) == MakeItem(subNo, start, end, text)
    {
      this.text := text;
      this.subNo := subNo;
      this.startTimeString := start;
      this.endTimeString := end;
      var s := TimeMSecOf(start);
      var e := TimeMSecOf(end);
      this.startTime := s;
      this.endTime := e;
    }

    method SetStartTime(t: nat)
      requires t < TWO64 && Valid()
      modifies this
      ensures Valid() && Value() == old(Value()).(startTime := t)
    {
      startTime := t;
    }

    method SetEndTime(t: nat)
      requires t < TWO64 && Valid()
      modifies this
      ensures Valid() && Value() == old(Value()).(endTime := t)
    {
      endTime := t;
    }

    method SetText(s: string)
      requires Valid()
      modifies this
      ensures Valid() && Value() == old(Value()).(text := s)
    {
      text := s;
    }

    method SetSubNumber(n: nat)
      requires n < TWO64 && Valid()
      modifies this
      ensures Valid() && Value() == old(Value()).(subNo := n)
    {
      subNo := n;
    }
  }

  /** `timeMSec` as the loop-free code it is: two `split` calls and four
      conversions. */
  method TimeMSecOf(value: string) returns (ms: nat)
    requires TimeMSec(value).Ok?
    ensures ms == TimeMSec(value).value
  {
    var t := SplitInto(value, ':', []);
    assert t == Split(value, ':');
    var hours := Stoul(t[0]).value;
    var mins := Stoul(t[1]).value;
    var secs := SplitInto(t[2], ',', []);
    assert secs == Split(t[2], ',');
    var seconds := Stoul(secs[0]).value;
    var milliseconds := Stoul(secs[1]).value;
    ms := Millis(hours, mins, seconds, milliseconds);
  }

  /** The variables of `parse` (SubtitleParser/srtparser.cpp:68-70) and the
      vector it fills. `turn` is 0 before a block's number line, 1 after it
      and counts the further non-empty lines of the block. */
  datatype State = State(turn: nat, subNo: nat, start: string, end: string,
                         completeLine: string, timeLine: string, subtitles: seq<Item>)

  const Initial: State := State(0, 0, "", "", "", "", [])

  /** `subtitles.emplace_back(SubtitleItem(subNo, start, end, completeLine))`. */
  function Push(st: State): (r: Try<State>)
    ensures r.Throws? ==> r.what == STOULL
    ensures r.Ok? <==> MakeItem(st.subNo, st.start, st.end, st.completeLine).Ok?
    ensures r.Ok? ==> r.value == st.(subtitles := st.subtitles + [MakeItem(st.subNo, st.start, st.end, st.completeLine).value])
  {
    match MakeItem(st.subNo, st.start, st.end, st.completeLine)
    case Ok(item) => Ok(st.(subtitles := st.subtitles + [item]))
    case Throws(w) => Throws(w)
    case Undefined => Undefined
  }

  /** What a line does apart from the end-of-file check, for every line but
      a block's number line (SubtitleParser/srtparser.cpp:95-122). */
  function Read(st: State, text: string): (r: Try<State>)
    ensures r.Throws? ==> r.what == STOULL
    ensures r.Ok? ==> st.subtitles <= r.value.subtitles
    ensures r.Ok? ==> |r.value.subtitles| == |st.subtitles| + if text == [] then 1 else 0
    ensures r.Ok? ==> r.value.turn == if text == [] then 0 else st.turn + 1
    ensures text != [] && Occurs("-->", text) ==> (r.Undefined? <==> |Split(st.timeLine + text, ' ')| < 3)
    ensures text != [] && !Occurs("-->", text) ==> r.Ok?
  {
    if text == [] then
      match Push(st)
      case Ok(p) => Ok(p.(turn := 0, completeLine := "", timeLine := ""))
      case Throws(w) => Throws(w)
      case Undefined => Undefined
    else if Occurs("-->", text) then
      var timeLine := st.timeLine + text;
      var srtTime := Split(timeLine, ' ');
      if |srtTime| < 3 then Undefined
      else Ok(st.(timeLine := timeLine, start := srtTime[0], end := srtTime[2], turn := st.turn + 1))
    else
      var joined := if st.completeLine != "" then st.completeLine + "\n" else st.completeLine;
      Ok(st.(completeLine := joined + text, turn := st.turn + 1))
  }

  /** How many items a line appends: one for an empty line, and one more at
      the end of the file unless the line was a number line, whose
      `continue` skips the check. */
  function Appended(st: State, line: Line): nat
  {
    var text := WithoutCR(line.text);
    var numberLine := text != [] && st.turn == 0;
    (if text == [] then 1 else 0) + (if line.eof && !numberLine then 1 else 0)
  }

  /** One pass of the `while (std::getline(...))` body
      (SubtitleParser/srtparser.cpp:80-128). */
  function Step(st: State, line: Line): (r: Try<State>)
    ensures r.Throws? ==> r.what == STOULL
    ensures r.Ok? ==> st.subtitles <= r.value.subtitles
    ensures r.Ok? ==> |r.value.subtitles| == |st.subtitles| + Appended(st, line)
    ensures r.Ok? ==> r.value.turn == if WithoutCR(line.text) == [] then 0 else st.turn + 1
  {
    var text := WithoutCR(line.text);
    if text != [] && st.turn == 0 then
      match Stoul(text)
      case None => Throws(STOULL)
      case Some(n) => Ok(st.(subNo := n, turn := 1))
    else
      match Read(st, text)
      case Ok(next) => if line.eof then Push(next) else Ok(next)
      case Throws(w) => Throws(w)
      case Undefined => Undefined
  }

  /** The loop over the remaining lines, stopping at the first failure. */
  function Steps(st: State, lines: seq<Line>): (r: Try<State>)
    ensures r.Throws? ==> r.what == STOULL
    ensures r.Ok? ==> st.subtitles <= r.value.subtitles
    decreases |lines|
  {
    if lines == [] then Ok(st)
    else
      match Step(st, lines[0])
      case Ok(next) => Steps(next, lines[1..])
      case Throws(w) => Throws(w)
      case Undefined => Undefined
  }

  /** The end-of-file flag appends one more item after what the line
      itself does, except on a number line. */
  lemma EndOfFileAppends(st: State, text: string)
    requires Step(st, Line(text, false)).Ok? ==> Step(st, Line(text, false)).value.turn != 1 || st.turn != 0
    ensures var plain := Step(st, Line(text, false));
      Step(st, Line(text, true)) == if plain.Ok? then Push(plain.value) else plain
  {
  }

  /** What `parse` hands back: the items, the `error` flag and what it
      stores in `exception` (None: left untouched). */
  datatype Outcome = Outcome(subtitles: seq<Item>, error: bool, exception: Option<string>)

  /** `parse(fileName, &error, &exception)` (SubtitleParser/srtparser.cpp:49-152)
      on a file that exists as a regular file or not, with the given text. */
  function Parse(present: bool, file: string): (r: Outcome)
    ensures r.error ==> r.subtitles == []
    ensures r.exception.Some? ==> r.error && r.exception.value == STOULL
  {
    if !present then Outcome([], true, None)
    else
      match Steps(Initial, ReadLines(SkipUtf8Bom(file)))
      case Ok(st) => Outcome(st.subtitles, false, None)
      case Throws(w) => Outcome([], true, Some(w))
      case Undefined => Outcome([], true, None)
  }

  /** An item as the constructor leaves it: its times are the readings of
      its time strings, its number fits `sub_number_t` and its text has no
      carriage return. */
  predicate Consistent(it: Item)
  {
    && TimeMSec(it.startString) == Ok(it.startTime)
    && TimeMSec(it.endString) == Ok(it.endTime)
    && '\r' !in it.text
    && it.subNo < TWO64
  }

  /** What holds of the loop variables between lines. */
  predicate Good(st: State)
  {
    && '\r' !in st.completeLine
    && st.subNo < TWO64
    && forall i :: 0 <= i < |st.subtitles| ==> Consistent(st.subtitles[i])
  }

  lemma PushKeepsGood(st: State)
    requires Good(st)
    ensures Push(st).Ok? ==> Good(Push(st).value)
  {
    if Push(st).Ok? {
      var item := MakeItem(st.subNo, st.start, st.end, st.completeLine).value;
      assert Consistent(item);
      var subs := Push(st).value.subtitles;
      assert subs == st.subtitles + [item];
      forall i | 0 <= i < |subs|
        ensures Consistent(subs[i])
      {
        if i < |st.subtitles| { assert subs[i] == st.subtitles[i]; }
      }
    }
  }

  lemma StepKeepsGood(st: State, line: Line)
    requires Good(st)
    ensures Step(st, line).Ok? ==> Good(Step(st, line).value)
  {
    var text := WithoutCR(line.text);
    if !(text != [] && st.turn == 0) {
      var r := Read(st, text);
      if text == [] {
        PushKeepsGood(st);
      } else if !Occurs("-->", text) {
        var joined := if st.completeLine != "" then st.completeLine + "\n" else st.completeLine;
        assert '\r' !in joined + text;
      }
      if r.Ok? && line.eof {
        PushKeepsGood(r.value);
      }
    }
  }

  lemma {:induction false} StepsKeepGood(st: State, lines: seq<Line>)
    requires Good(st)
    ensures Steps(st, lines).Ok? ==> Good(Steps(st, lines).value)
    decreases |lines|
  {
    if lines != [] {
      StepKeepsGood(st, lines[0]);
      if Step(st, lines[0]).Ok? {
        StepsKeepGood(Step(st, lines[0]).value, lines[1..]);
      }
    }
  }

  /** Every item `parse` returns has its times read from its own time
      strings and no carriage return in its text. */
  lemma ParsedItemsConsistent(present: bool, file: string)
    ensures forall i :: 0 <= i < |Parse(present, file).subtitles| ==> Consistent(Parse(present, file).subtitles[i])
  {
    if present {
      StepsKeepGood(Initial, ReadLines(SkipUtf8Bom(file)));
    }
  }

  /** `parse` as the loop it is (SubtitleParser/srtparser.cpp:49-152): the
      loop variables, kept in a `State`, change line by line, and the first
      exception or out-of-range subscript ends the parse with an empty
      result. */
  method ParseFile(present: bool, file: string) returns (subtitles: seq<Item>, error: bool, exception: Option<string>)
    ensures Outcome(subtitles, error, exception) == Parse(present, file)
  {
    if !present {
      return [], true, None;
    }
    var lines := ReadLines(SkipUtf8Bom(file));
    var st := Initial;
    var i := 0;
    while i < |lines|
      invariant 0 <= i <= |lines|
      invariant st.subNo < TWO64
      invariant Steps(st, lines[i..]) == Steps(Initial, lines)
    {
      var line := lines[i];
      assert lines[i..][0] == line && lines[i..][1..] == lines[i + 1..];
      var text := WithoutCR(line.text);
      if text != [] && st.turn == 0 {
        var n := Stoul(text);
        if n.None? {
          return [], true, Some(STOULL);
        }
        st := st.(subNo := n.value, turn := 1);
      } else {
        var r := ReadLine(st, text);
        if r.Ok? && line.eof {
          assert r.value.subNo == st.subNo;
          r := EmplaceBack(r.value);
        }
        if !r.Ok? {
          return [], true, if r.Throws? then Some(r.what) else None;
        }
        st := r.value;
      }
      i := i + 1;
    }
    assert lines[|lines|..] == [];
    return st.subtitles, false, None;
  }

  /** The body of the loop for a line that is not a block's number line
      (SubtitleParser/srtparser.cpp:95-122). */
  method ReadLine(st: State, text: string) returns (r: Try<State>)
    requires st.subNo < TWO64
    ensures r == Read(st, text)
  {
    if text == [] {
      r := EmplaceBack(st);
      if r.Ok? {
        r := Ok(r.value.(turn := 0, completeLine := "", timeLine := ""));
      }
    } else if Occurs("-->", text) {
      var timeLine := st.timeLine + text;
      var srtTime := SplitInto(timeLine, ' ', []);
      assert srtTime == Split(timeLine, ' ');
      if |srtTime| < 3 {
        return Undefined;
      }
      r := Ok(st.(timeLine := timeLine, start := srtTime[0], end := srtTime[2], turn := st.turn + 1));
    } else {
      var completeLine := st.completeLine;
      if completeLine != "" {
        completeLine := completeLine + "\n";
      }
      completeLine := completeLine + text;
      r := Ok(st.(completeLine := completeLine, turn := st.turn + 1));
    }
  }

  /** `subtitles.emplace_back(SubtitleItem(subNo, start, end, completeLine))`:
      the item object is built, and its values are appended. */
  method EmplaceBack(st: State) returns (r: Try<State>)
    requires st.subNo < TWO64
    ensures r == Push(st)
  {
    var start := TimeMSec(st.start);
    if !start.Ok? {
      return if start.Throws? then Throws(start.what) else Undefined;
    }
    var end := TimeMSec(st.end);
    if !end.Ok? {
      return if end.Throws? then Throws(end.what) else Undefined;
    }
    var item := new SubtitleItem(st.subNo, st.start, st.end, st.completeLine);
    r := Ok(st.(subtitles := st.subtitles + [item.Value()]));
  }
}
