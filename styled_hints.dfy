/** The style-hint layer over the SRT parser, in both generations of the
    program: SubtitleParser/styledsrtparser.hpp and .cpp (the legacy
    generation) and subtitle-parser/src/styledsrtparser.cpp (the current
    one). Comment lines `# key=value` inside a subtitle's text set style
    hints; the first subtitle carries the global hints, which every other
    subtitle inherits and may override. The two generations run the same
    algorithm over different default tables and read numbers with different
    conversions. */
module StyledHints {
  import opened Wrappers
  import opened Numbers
  import opened SrtText
  import opened SrtParser

  /** `style_hints_t`, a `std::map<std::string, std::string>`. */
  type Hints = map<string, string>

  datatype Generation = Legacy | Current

  const MARGIN_OVERWRITE: string := "margin-overwrite"

  /** `default_hints` of the legacy generation
      (SubtitleParser/styledsrtparser.cpp:17-41): 19 keys. The keys are
      distinct, so the map display holds what the `std::map` initializer
      list builds. */
  const LEGACY_DEFAULTS: Hints := map[
    "text-direction" := "horizontal",
    "text-alignment" := "center",
    "text-justify" := "center",
    "margin-bottom" := "100",
    "margin-side" := "100",
    "margin-top" := "150",
    "font-family" := "TakaoPGothic",
    "font-size" := "48",
    "font-color" := "#f1f1f1",
    "horizontal-numbers" := "true",
    "furigana-spacing" := "font",
    "furigana-distance" := "unchanged",
    "furigana-font-size" := "20",
    "furigana-font-color" := "#f1f1f1",
    "line-space-reduction" := "0",
    "furigana-line-space-reduction" := "0",
    "border-color" := "#191919",
    "border-size" := "4",
    "furigana-border-size" := "2"]

  /** `default_hints` of the current generation
      (subtitle-parser/src/styledsrtparser.cpp:14-46): 24 keys, adding the
      video size, the blur and the colour limit. */
  const CURRENT_DEFAULTS: Hints := map[
    "width" := "1920",
    "height" := "1080",
    "text-direction" := "horizontal",
    "text-alignment" := "center",
    "text-justify" := "center",
    "margin-bottom" := "150",
    "margin-side" := "130",
    "margin-top" := "90",
    "font-family" := "TakaoPGothic",
    "font-size" := "46",
    "font-color" := "#f1f1f1",
    "horizontal-numbers" := "true",
    "furigana-spacing" := "font",
    "furigana-distance" := "unchanged",
    "furigana-font-size" := "20",
    "furigana-font-color" := "#f1f1f1",
    "line-space-reduction" := "0",
    "furigana-line-space-reduction" := "0",
    "border-color" := "#191919",
    "border-size" := "3",
    "furigana-border-size" := "2",
    "blur-radius" := "10",
    "blur-sigma" := "0.5",
    "color-limit" := "40"]

  function Defaults(g: Generation): Hints
  {
    match g
    case Legacy => LEGACY_DEFAULTS
    case Current => CURRENT_DEFAULTS
  }

  /** `validate_hints`: keys accepted in hints that are not defaults. */
  const VALIDATE_HINTS: Hints := map[MARGIN_OVERWRITE := ""]

  /** A key `parse_hint` accepts under a default table. */
  predicate Known(defaults: Hints, key: string)
  {
    key in defaults || key in VALIDATE_HINTS
  }

  /** Hints as the parser keeps them: only known keys, every value
      non-empty, and every default key present. */
  predicate Good(defaults: Hints, h: Hints)
  {
    && (forall k :: k in defaults ==> k in h)
    && (forall k :: k in h ==> Known(defaults, k) && h[k] != "")
  }

  /** A default table the parser works with: good itself, holding the keys
      the per-item clean-up reads and writes, and not the overwrite key. */
  predicate Fit(defaults: Hints)
  {
    && Good(defaults, defaults)
    && "text-direction" in defaults && "text-alignment" in defaults
    && "margin-bottom" in defaults && "margin-side" in defaults
    && MARGIN_OVERWRITE !in defaults
  }

  /** Both generations' tables are fit. */
  lemma DefaultsFit(g: Generation)
    ensures Fit(Defaults(g))
  {
    if g == Legacy {
      LegacyGood();
    } else {
      CurrentGood();
    }
  }

  lemma LegacyGood()
    ensures Good(LEGACY_DEFAULTS, LEGACY_DEFAULTS)
    ensures "text-direction" in LEGACY_DEFAULTS && "text-alignment" in LEGACY_DEFAULTS
    ensures "margin-bottom" in LEGACY_DEFAULTS && "margin-side" in LEGACY_DEFAULTS
    ensures MARGIN_OVERWRITE !in LEGACY_DEFAULTS
  {
    LegacyValues();
    LegacyKeys();
  }

  lemma LegacyKeys()
    ensures "text-direction" in LEGACY_DEFAULTS && "text-alignment" in LEGACY_DEFAULTS
    ensures "margin-bottom" in LEGACY_DEFAULTS && "margin-side" in LEGACY_DEFAULTS
    ensures MARGIN_OVERWRITE !in LEGACY_DEFAULTS
  {
  }

  lemma LegacyValues()
    ensures forall k :: k in LEGACY_DEFAULTS ==> LEGACY_DEFAULTS[k] != ""
  {
  }

  lemma CurrentGood()
    ensures Good(CURRENT_DEFAULTS, CURRENT_DEFAULTS)
    ensures "text-direction" in CURRENT_DEFAULTS && "text-alignment" in CURRENT_DEFAULTS
    ensures "margin-bottom" in CURRENT_DEFAULTS && "margin-side" in CURRENT_DEFAULTS
    ensures MARGIN_OVERWRITE !in CURRENT_DEFAULTS
  {
    CurrentValues();
    CurrentKeys();
  }

  lemma CurrentKeys()
    ensures "text-direction" in CURRENT_DEFAULTS && "text-alignment" in CURRENT_DEFAULTS
    ensures "margin-bottom" in CURRENT_DEFAULTS && "margin-side" in CURRENT_DEFAULTS
    ensures MARGIN_OVERWRITE !in CURRENT_DEFAULTS
  {
  }

  lemma CurrentValues()
    ensures forall k :: k in CURRENT_DEFAULTS ==> CURRENT_DEFAULTS[k] != ""
  {
  }

  /** `parse_hint`: cut at the first '='; a line without one, or whose key
      is not known, gives the empty pair. */
  function ParseHint(defaults: Hints, line: string): (r: (string, string))
    ensures '=' !in line ==> r == ("", "")
    ensures r.0 != "" ==> Known(defaults, r.0) && '=' !in r.0 && line == r.0 + "=" + r.1
  {
    var delim := Find(line, '=');
    if delim == |line| then ("", "")
    else
      var property := line[..delim];
      var value := line[delim + 1..];
      assert line == property + "=" + value;
      if !Known(defaults, property) then ("", "") else (property, value)
  }

  /** A hint written out as `key=value` is read back as that pair. */
  lemma ParseHintOf(defaults: Hints, key: string, value: string)
    requires Known(defaults, key) && '=' !in key
    ensures ParseHint(defaults, key + "=" + value) == (key, value)
  {
    var line := key + "=" + value;
    assert forall j :: 0 <= j < |key| ==> line[j] == key[j];
    assert line[|key|] == '=';
    assert Find(line, '=') == |key|;
    assert line[..|key|] == key && line[|key| + 1..] == value;
  }

  /** `line.rfind("# ", 0) == 0`: the line starts with "# ". */
  predicate HintLine(line: string)
  {
    |line| >= 2 && line[..2] == "# "
  }

  /** The hint a line contributes: a hint line whose pair has a non-empty
      key and a non-empty value (subtitle-parser/src/styledsrtparser.cpp:84-90). */
  function Accepted(defaults: Hints, line: string): (r: Option<(string, string)>)
    ensures r.Some? ==>
      && HintLine(line) && Known(defaults, r.value.0) && r.value.0 != "" && r.value.1 != ""
      && line == "# " + r.value.0 + "=" + r.value.1
  {
    if !HintLine(line) then None
    else
      var hint := ParseHint(defaults, line[2..]);
      if |hint.0| > 0 && |hint.1| > 0 then
        HintLineParts(line, hint.0, hint.1);
        Some(hint)
      else None
  }

  /** A hint line is `# ` followed by what comes after it. */
  lemma HintLineParts(line: string, key: string, value: string)
    requires HintLine(line) && line[2..] == key + "=" + value
    ensures line == "# " + key + "=" + value
  {
    assert line == line[..2] + line[2..];
  }

  /** A comment line `# key=value` with a known key and a value sets it. */
  lemma AcceptedOf(defaults: Hints, key: string, value: string)
    requires Known(defaults, key) && key != "" && '=' !in key && value != ""
    ensures Accepted(defaults, "# " + key + "=" + value) == Some((key, value))
  {
    var line := "# " + key + "=" + value;
    assert line[..2] == "# ";
    assert line[2..] == key + "=" + value;
    ParseHintOf(defaults, key, value);
  }

  /** The line sets the key. */
  predicate Sets(defaults: Hints, line: string, key: string)
  {
    Accepted(defaults, line).Some? && Accepted(defaults, line).value.0 == key
  }

  /** Line j sets key to value and no later line sets key. */
  predicate LastSets(defaults: Hints, lines: seq<string>, j: int, key: string, value: string)
  {
    && 0 <= j < |lines| && Accepted(defaults, lines[j]) == Some((key, value))
    && forall l :: j < l < |lines| ==> !Sets(defaults, lines[l], key)
  }

  predicate NoneSets(defaults: Hints, lines: seq<string>, key: string)
  {
    forall l :: 0 <= l < |lines| ==> !Sets(defaults, lines[l], key)
  }

  /** The loop of `extract_hints` over lines: hint lines leave the text and
      set their key (a later hint overwrites an earlier one), the other lines
      are kept in order. */
  function Absorb(defaults: Hints, lines: seq<string>, hints: Hints): (r: (seq<string>, Hints))
    ensures |r.0| <= |lines|
    ensures forall i :: 0 <= i < |r.0| ==> !HintLine(r.0[i])
    ensures forall k :: k in hints ==> k in r.1
    ensures forall k :: k in r.1 ==> (k in hints && r.1[k] == hints[k]) || (Known(defaults, k) && r.1[k] != "")
    decreases |lines|
  {
    if lines == [] then ([], hints)
    else
      var prev := Absorb(defaults, lines[..|lines| - 1], hints);
      var line := lines[|lines| - 1];
      if !HintLine(line) then (prev.0 + [line], prev.1)
      else
        match Accepted(defaults, line)
        case None => prev
        case Some(hint) => (prev.0, prev.1[hint.0 := hint.1])
  }

  /** Text without hint lines passes through unchanged. */
  lemma {:induction false} AbsorbPlain(defaults: Hints, lines: seq<string>, hints: Hints)
    requires forall i :: 0 <= i < |lines| ==> !HintLine(lines[i])
    ensures Absorb(defaults, lines, hints) == (lines, hints)
    decreases |lines|
  {
    if lines != [] {
      AbsorbPlain(defaults, lines[..|lines| - 1], hints);
      assert lines[..|lines| - 1] + [lines[|lines| - 1]] == lines;
    }
  }

  /** The last line that sets a key decides its value. */
  lemma {:induction false} LastHintWins(defaults: Hints, lines: seq<string>, hints: Hints, j: nat, key: string, value: string)
    requires LastSets(defaults, lines, j, key, value)
    ensures key in Absorb(defaults, lines, hints).1 && Absorb(defaults, lines, hints).1[key] == value
    decreases |lines|
  {
    var front := lines[..|lines| - 1];
    var last := lines[|lines| - 1];
    if j < |lines| - 1 {
      assert forall l :: 0 <= l < |front| ==> front[l] == lines[l];
      assert LastSets(defaults, front, j, key, value);
      LastHintWins(defaults, front, hints, j, key, value);
      assert !Sets(defaults, last, key);
    }
  }

  /** A key no line sets keeps the value it had, and an absent key stays
      absent. */
  lemma {:induction false} Untouched(defaults: Hints, lines: seq<string>, hints: Hints, key: string)
    requires NoneSets(defaults, lines, key)
    ensures key in Absorb(defaults, lines, hints).1 <==> key in hints
    ensures key in hints ==> Absorb(defaults, lines, hints).1[key] == hints[key]
    decreases |lines|
  {
    if lines != [] {
      var front := lines[..|lines| - 1];
      assert forall l :: 0 <= l < |front| ==> front[l] == lines[l];
      Untouched(defaults, front, hints, key);
      assert !Sets(defaults, lines[|lines| - 1], key);
    }
  }

  /** Absorbing into good hints gives good hints. */
  lemma AbsorbGood(defaults: Hints, lines: seq<string>, hints: Hints)
    requires Good(defaults, hints)
    ensures Good(defaults, Absorb(defaults, lines, hints).1)
  {
  }

  /** `extract_hints`: the text without its hint lines, and the hints merged
      into the target map. The text is read with `std::getline`, and the
      kept lines are joined by '\n' with no newline at the end. */
  function ExtractHints(defaults: Hints, text: string, hints: Hints): (r: (string, Hints))
    ensures forall k :: k in hints ==> k in r.1
    ensures forall k :: k in r.1 ==> (k in hints && r.1[k] == hints[k]) || (Known(defaults, k) && r.1[k] != "")
  {
    var a := Absorb(defaults, Split(text, '\n'), hints);
    (Join(a.0, '\n'), a.1)
  }

  /** A text without hint lines keeps its lines and the hints; only a final
      newline is lost. */
  lemma ExtractHintsPlain(defaults: Hints, text: string, hints: Hints)
    requires forall i :: 0 <= i < |Split(text, '\n')| ==> !HintLine(Split(text, '\n')[i])
    ensures ExtractHints(defaults, text, hints).1 == hints
    ensures ExtractHints(defaults, text, hints).0 + Trailing(text, '\n') == text
  {
    AbsorbPlain(defaults, Split(text, '\n'), hints);
    JoinSplit(text, '\n');
  }

  /** A hint line in front of a text sets its key and leaves the text as it
      was without the line. */
  lemma HintLineFirst(defaults: Hints, key: string, value: string, text: string, hints: Hints)
    requires Known(defaults, key) && key != "" && '=' !in key && '\n' !in key && '\n' !in value && value != ""
    requires forall i :: 0 <= i < |Split(text, '\n')| ==> !HintLine(Split(text, '\n')[i])
    ensures ExtractHints(defaults, "# " + key + "=" + value + "\n" + text, hints) ==
            (ExtractHints(defaults, text, hints).0, hints[key := value])
  {
    var line := "# " + key + "=" + value;
    assert Terminated([line], '\n') + text == "# " + key + "=" + value + "\n" + text;
    SplitTerminated([line], text, '\n');
    AcceptedOf(defaults, key, value);
    AbsorbAfterHint(defaults, line, Split(text, '\n'), hints, key, value);
    AbsorbPlain(defaults, Split(text, '\n'), hints);
  }

  /** Absorbing an accepted hint line and then plain lines. */
  lemma {:induction false} AbsorbAfterHint(defaults: Hints, line: string, rest: seq<string>, hints: Hints, key: string, value: string)
    requires Accepted(defaults, line) == Some((key, value))
    requires forall i :: 0 <= i < |rest| ==> !HintLine(rest[i])
    ensures Absorb(defaults, [line] + rest, hints) == (rest, hints[key := value])
    decreases |rest|
  {
    if rest == [] {
      assert ([line] + rest)[..0] == [];
    } else {
      var front := rest[..|rest| - 1];
      var last := rest[|rest| - 1];
      AbsorbAfterHint(defaults, line, front, hints, key, value);
      assert !HintLine(last);
      AbsorbSnoc(defaults, [line] + front, last, hints);
      ConsSnoc(line, rest);
    }
  }

  /** A prefix one element longer. */
  lemma PrefixSnoc<T>(s: seq<T>, i: nat)
    requires i < |s|
    ensures s[..i + 1] == s[..i] + [s[i]]
  {
  }

  /** A sequence with an element in front, cut before its last element. */
  lemma ConsSnoc<T>(x: T, s: seq<T>)
    requires s != []
    ensures ([x] + s[..|s| - 1]) + [s[|s| - 1]] == [x] + s
    ensures s[..|s| - 1] + [s[|s| - 1]] == s
  {
  }

  /** One more line for the loop of `extract_hints`. */
  lemma AbsorbSnoc(defaults: Hints, lines: seq<string>, line: string, hints: Hints)
    ensures var prev := Absorb(defaults, lines, hints);
            Absorb(defaults, lines + [line], hints) ==
              if !HintLine(line) then (prev.0 + [line], prev.1)
              else if Accepted(defaults, line).None? then prev
              else (prev.0, prev.1[Accepted(defaults, line).value.0 := Accepted(defaults, line).value.1])
  {
    assert (lines + [line])[..|lines|] == lines;
  }

  /** Lines each followed by a newline, one more line at the end. */
  lemma TerminatedSnoc(lines: seq<string>, line: string)
    ensures Terminated(lines + [line], '\n') == Terminated(lines, '\n') + line + "\n"
  {
    TerminatedAppend(lines, [line], '\n');
    assert Terminated([line], '\n') == line + "\n" + Terminated([], '\n');
  }

  /** Newline-terminated lines are the joined lines plus one newline. */
  lemma {:induction false} TerminatedJoin(lines: seq<string>)
    requires lines != []
    ensures Terminated(lines, '\n') == Join(lines, '\n') + "\n"
    decreases |lines|
  {
    if |lines| > 1 {
      TerminatedJoin(lines[1..]);
    } else {
      assert Terminated(lines[1..], '\n') == [];
    }
  }

  /** The clean text `extract_hints` returns: `substr(0, length() - 1)` of
      the kept lines each followed by a newline. On an empty string the
      count wraps to `npos` and the result is empty. */
  lemma CleanText(kept: seq<string>)
    ensures var s := Terminated(kept, '\n');
            var count := if s == [] then ULONG_MAX else |s| - 1;
            s[..if count < |s| then count else |s|] == Join(kept, '\n')
  {
    if kept != [] {
      TerminatedJoin(kept);
    }
  }

  /** `extract_hints` (subtitle-parser/src/styledsrtparser.cpp:75-109 and
      SubtitleParser/styledsrtparser.cpp:70-104): `cleanLines` collects every
      kept line with a newline. */
  method ExtractHintsInto(defaults: Hints, text: string, hints: Hints) returns (clean: string, target: Hints)
    ensures (clean, target) == ExtractHints(defaults, text, hints)
  {
    var lines := SplitInto(text, '\n', []);
    assert lines == Split(text, '\n');
    var cleanLines := "";
    target := hints;
    var i := 0;
    while i < |lines|
      invariant 0 <= i <= |lines|
      invariant cleanLines == Terminated(Absorb(defaults, lines[..i], hints).0, '\n')
      invariant target == Absorb(defaults, lines[..i], hints).1
    {
      cleanLines, target := AbsorbLine(defaults, lines, i, hints, cleanLines, target);
      i := i + 1;
    }
    assert lines[..i] == lines;
    CleanText(Absorb(defaults, lines, hints).0);
    var count := if cleanLines == [] then ULONG_MAX else |cleanLines| - 1;
    clean := cleanLines[..if count < |cleanLines| then count else |cleanLines|];
  }

  /** One pass of the loop of `extract_hints`: a hint line goes into the
      map when both its key and its value survive, any other line is kept. */
  method AbsorbLine(defaults: Hints, lines: seq<string>, i: nat, hints: Hints, cleanLines: string, target: Hints)
    returns (cleanLines': string, target': Hints)
    requires i < |lines|
    requires cleanLines == Terminated(Absorb(defaults, lines[..i], hints).0, '\n')
    requires target == Absorb(defaults, lines[..i], hints).1
    ensures cleanLines' == Terminated(Absorb(defaults, lines[..i + 1], hints).0, '\n')
    ensures target' == Absorb(defaults, lines[..i + 1], hints).1
  {
    var done, line := lines[..i], lines[i];
    assert lines[..i + 1] == done + [line];
    AbsorbSnoc(defaults, done, line, hints);
    cleanLines', target' := cleanLines, target;
    if |line| >= 2 && line[..2] == "# " {
      var hint := ParseHint(defaults, line[2..]);
      if |hint.0| > 0 && |hint.1| > 0 {
        target' := target[hint.0 := hint.1];
      }
    } else {
      TerminatedSnoc(Absorb(defaults, done, hints).0, line);
      cleanLines' := cleanLines + line + "\n";
    }
  }

  /** The per-item clean-up of `parse_helper` once the item's hints are
      merged (subtitle-parser/src/styledsrtparser.cpp:149-173): a
      `margin-overwrite` value replaces `margin-bottom` for horizontal text
      and `margin-side` for vertical text and is removed; vertical text
      aligned to the centre is aligned to the right. */
  function Overwrite(h: Hints): (r: Hints)
    requires "text-direction" in h && "text-alignment" in h
    ensures MARGIN_OVERWRITE !in r
    ensures forall k :: k in h && k != MARGIN_OVERWRITE ==> k in r
    ensures forall k :: k in r ==> k in h || k == "margin-bottom" || k == "margin-side"
    ensures forall k :: k in r && k != "margin-bottom" && k != "margin-side" && k != "text-alignment" ==> r[k] == h[k]
    ensures MARGIN_OVERWRITE in h && h["text-direction"] == "horizontal" ==>
              "margin-bottom" in r && r["margin-bottom"] == h[MARGIN_OVERWRITE]
    ensures MARGIN_OVERWRITE in h && h["text-direction"] == "vertical" ==>
              "margin-side" in r && r["margin-side"] == h[MARGIN_OVERWRITE]
    ensures "margin-bottom" in h && (MARGIN_OVERWRITE !in h || h["text-direction"] != "horizontal") ==>
              r["margin-bottom"] == h["margin-bottom"]
    ensures "margin-side" in h && (MARGIN_OVERWRITE !in h || h["text-direction"] != "vertical") ==>
              r["margin-side"] == h["margin-side"]
    ensures r["text-alignment"] ==
              if h["text-direction"] == "vertical" && h["text-alignment"] == "center" then "right" else h["text-alignment"]
  {
    var direction := h["text-direction"];
    var h1 :=
      if MARGIN_OVERWRITE in h then
        var margin := h[MARGIN_OVERWRITE];
        var h0 :=
          if direction == "horizontal" then h["margin-bottom" := margin]
          else if direction == "vertical" then h["margin-side" := margin]
          else h;
        h0 - {MARGIN_OVERWRITE}
      else h;
    if direction == "vertical" && h1["text-alignment"] == "center" then h1["text-alignment" := "right"] else h1
  }

  /** The statements of lines 149-173 on the item's own copy of the map. */
  method ApplyOverwrite(hints: Hints) returns (r: Hints)
    requires "text-direction" in hints && "text-alignment" in hints
    ensures r == Overwrite(hints)
  {
    r := hints;
    var direction := r["text-direction"];
    if MARGIN_OVERWRITE in r {
      var margin := r[MARGIN_OVERWRITE];
      if direction == "horizontal" {
        r := r["margin-bottom" := margin];
      } else if direction == "vertical" {
        r := r["margin-side" := margin];
      }
      r := r - {MARGIN_OVERWRITE};
    }
    if direction == "vertical" && r["text-alignment"] == "center" {
      r := r["text-alignment" := "right"];
    }
  }

  /** A styled subtitle: the values of the base item and the style hints. */
  datatype Styled = Styled(base: Item, hints: Hints)

  /** What every produced item carries: good hints without the overwrite
      key, and no vertical text aligned to the centre. */
  predicate Complete(defaults: Hints, h: Hints)
  {
    && Good(defaults, h) && MARGIN_OVERWRITE !in h
    && ("text-direction" in h && "text-alignment" in h && h["text-direction"] == "vertical" ==>
          h["text-alignment"] != "center")
  }

  /** The clean-up turns good hints into complete ones. */
  lemma OverwriteComplete(defaults: Hints, h: Hints)
    requires Fit(defaults) && Good(defaults, h)
    ensures "text-direction" in h && "text-alignment" in h
    ensures Complete(defaults, Overwrite(h))
  {
  }

  /** One subtitle after the global hints: copied into a styled item, its
      own hints merged over the globals, then cleaned up. */
  function StyleItem(defaults: Hints, global: Hints, it: Item): (r: Styled)
    requires Fit(defaults) && Good(defaults, global)
    ensures Complete(defaults, r.hints)
    ensures r.base == Item(it.subNo, "", "", ExtractHints(defaults, it.text, global).0, it.startTime, it.endTime)
  {
    var merged := ExtractHints(defaults, it.text, global);
    AbsorbGood(defaults, Split(it.text, '\n'), global);
    OverwriteComplete(defaults, merged.1);
    Styled(Item(it.subNo, "", "", merged.0, it.startTime, it.endTime), Overwrite(merged.1))
  }

  /** The global hints: the defaults with the first subtitle's hints merged in. */
  function Globals(defaults: Hints, first: Item): (r: Hints)
    requires Fit(defaults)
    ensures Good(defaults, r)
  {
    AbsorbGood(defaults, Split(first.text, '\n'), defaults);
    ExtractHints(defaults, first.text, defaults).1
  }

  /** `parse_helper` (subtitle-parser/src/styledsrtparser.cpp:111-180) and the
      body of the legacy `parseStyled` (SubtitleParser/styledsrtparser.cpp:
      212-274): no subtitles is an error; otherwise the first subtitle gives
      the globals and is dropped, and each other one is styled. The error
      flag is only ever set here, never cleared. */
  function Helper(defaults: Hints, subs: seq<Item>, error: bool): (r: (seq<Styled>, bool))
    requires Fit(defaults)
    ensures subs == [] ==> r == ([], true)
    ensures subs != [] ==> |r.0| == |subs| - 1 && r.1 == error
    ensures forall i :: 0 <= i < |r.0| ==>
      && Complete(defaults, r.0[i].hints)
      && r.0[i].base.subNo == subs[i + 1].subNo
      && r.0[i].base.startTime == subs[i + 1].startTime
      && r.0[i].base.endTime == subs[i + 1].endTime
  {
    if subs == [] then ([], true)
    else
      var global := Globals(defaults, subs[0]);
      var rest := subs[1..];
      (seq(|rest|, i requires 0 <= i < |rest| => StyleItem(defaults, global, rest[i])), error)
  }

  /** Keys the clean-up leaves alone. */
  predicate Untreated(key: string)
  {
    key != "margin-bottom" && key != "margin-side" && key != "text-alignment" && key != MARGIN_OVERWRITE
  }

  /** An item's own last hint for a key decides the key. */
  lemma OwnHintWins(defaults: Hints, subs: seq<Item>, error: bool, i: nat, j: nat, key: string, value: string)
    requires Fit(defaults) && i + 1 < |subs| && Untreated(key)
    requires LastSets(defaults, Split(subs[i + 1].text, '\n'), j, key, value)
    ensures Helper(defaults, subs, error).0[i].hints[key] == value
  {
    var global := Globals(defaults, subs[0]);
    LastHintWins(defaults, Split(subs[i + 1].text, '\n'), global, j, key, value);
  }

  /** Without a hint of its own, an item takes the global hint. */
  lemma GlobalHintApplies(defaults: Hints, subs: seq<Item>, error: bool, i: nat, j: nat, key: string, value: string)
    requires Fit(defaults) && i + 1 < |subs| && Untreated(key)
    requires NoneSets(defaults, Split(subs[i + 1].text, '\n'), key)
    requires LastSets(defaults, Split(subs[0].text, '\n'), j, key, value)
    ensures Helper(defaults, subs, error).0[i].hints[key] == value
  {
    var global := Globals(defaults, subs[0]);
    LastHintWins(defaults, Split(subs[0].text, '\n'), defaults, j, key, value);
    Untouched(defaults, Split(subs[i + 1].text, '\n'), global, key);
  }

  /** Without any hint for a default key, an item keeps the default. */
  lemma DefaultApplies(defaults: Hints, subs: seq<Item>, error: bool, i: nat, key: string)
    requires Fit(defaults) && i + 1 < |subs| && Untreated(key) && key in defaults
    requires NoneSets(defaults, Split(subs[i + 1].text, '\n'), key)
    requires NoneSets(defaults, Split(subs[0].text, '\n'), key)
    ensures Helper(defaults, subs, error).0[i].hints[key] == defaults[key]
  {
    var global := Globals(defaults, subs[0]);
    Untouched(defaults, Split(subs[0].text, '\n'), defaults, key);
    Untouched(defaults, Split(subs[i + 1].text, '\n'), global, key);
  }

  /** `get_property_value` (SubtitleParser/styledsrtparser.cpp:194-208): the
      stored value, or the empty string for an empty or absent key. */
  function PropertyValue(h: Hints, key: string): (r: string)
    ensures key == "" || key !in h ==> r == ""
    ensures key != "" && key in h ==> r == h[key]
  {
    if key == "" then ""
    else if key in h then h[key]
    else ""
  }

  /** `isVertical`. */
  predicate IsVertical(h: Hints)
  {
    PropertyValue(h, "text-direction") == "vertical"
  }

  /** The `Properties` enumeration (SubtitleParser/styledsrtparser.hpp:16-38),
      with the five keys the current generation adds. */
  datatype Properties =
    | TextDirection | TextAlignment | TextJustify
    | MarginBottom | MarginSide | MarginTop | MarginOverwrite
    | FontFamily | FontSize | FontColor | HorizontalNumbers
    | FuriganaSpacing | FuriganaDistance | FuriganaFontSize | FuriganaFontColor
    | LineSpaceReduction | FuriganaLineSpaceReduction
    | BorderColor | BorderSize | FuriganaBorderSize
    | Width | Height | BlurRadius | BlurSigma | ColorLimit

  /** The properties of the legacy enumeration. */
  predicate LegacyProperty(p: Properties)
  {
    !(p.Width? || p.Height? || p.BlurRadius? || p.BlurSigma? || p.ColorLimit?)
  }

  /** `property_string` (SubtitleParser/styledsrtparser.hpp:104-129). */
  function PropertyString(p: Properties): string
  {
    match p
    case TextDirection => "text-direction"
    case TextAlignment => "text-alignment"
    case TextJustify => "text-justify"
    case MarginBottom => "margin-bottom"
    case MarginSide => "margin-side"
    case MarginTop => "margin-top"
    case MarginOverwrite => "margin-overwrite"
    case FontFamily => "font-family"
    case FontSize => "font-size"
    case FontColor => "font-color"
    case HorizontalNumbers => "horizontal-numbers"
    case FuriganaSpacing => "furigana-spacing"
    case FuriganaDistance => "furigana-distance"
    case FuriganaFontSize => "furigana-font-size"
    case FuriganaFontColor => "furigana-font-color"
    case LineSpaceReduction => "line-space-reduction"
    case FuriganaLineSpaceReduction => "furigana-line-space-reduction"
    case BorderColor => "border-color"
    case BorderSize => "border-size"
    case FuriganaBorderSize => "furigana-border-size"
    case Width => "width"
    case Height => "height"
    case BlurRadius => "blur-radius"
    case BlurSigma => "blur-sigma"
    case ColorLimit => "color-limit"
  }

  /** The property each key names: the inverse of `PropertyString`. */
  const PROPERTY_OF_KEY: map<string, Properties> := map[
    "text-direction" := TextDirection,
    "text-alignment" := TextAlignment,
    "text-justify" := TextJustify,
    "margin-bottom" := MarginBottom,
    "margin-side" := MarginSide,
    "margin-top" := MarginTop,
    "margin-overwrite" := MarginOverwrite,
    "font-family" := FontFamily,
    "font-size" := FontSize,
    "font-color" := FontColor,
    "horizontal-numbers" := HorizontalNumbers,
    "furigana-spacing" := FuriganaSpacing,
    "furigana-distance" := FuriganaDistance,
    "furigana-font-size" := FuriganaFontSize,
    "furigana-font-color" := FuriganaFontColor,
    "line-space-reduction" := LineSpaceReduction,
    "furigana-line-space-reduction" := FuriganaLineSpaceReduction,
    "border-color" := BorderColor,
    "border-size" := BorderSize,
    "furigana-border-size" := FuriganaBorderSize,
    "width" := Width,
    "height" := Height,
    "blur-radius" := BlurRadius,
    "blur-sigma" := BlurSigma,
    "color-limit" := ColorLimit]

  /** Every property has its own key: reading the key back gives the
      property, so no two properties share a key. */
  lemma PropertyStringRoundTrip(p: Properties)
    ensures PropertyString(p) in PROPERTY_OF_KEY && PROPERTY_OF_KEY[PropertyString(p)] == p
  {
    if p.TextDirection? || p.TextAlignment? || p.TextJustify? {
      DirectionKeys(p);
    } else if p.MarginBottom? || p.MarginSide? || p.MarginTop? {
      MarginKeys(p);
    } else if p.MarginOverwrite? || p.FontFamily? || p.FontSize? || p.FontColor? {
      FontKeys(p);
    } else if p.HorizontalNumbers? || p.FuriganaSpacing? || p.FuriganaDistance? || p.FuriganaFontSize? || p.FuriganaFontColor? {
      FuriganaKeys(p);
    } else if p.LineSpaceReduction? || p.FuriganaLineSpaceReduction? || p.BorderColor? || p.BorderSize? || p.FuriganaBorderSize? {
      SpacingKeys(p);
    } else {
      VideoKeys(p);
    }
  }

  lemma DirectionKeys(p: Properties)
    requires p.TextDirection? || p.TextAlignment? || p.TextJustify?
    ensures PropertyString(p) in PROPERTY_OF_KEY && PROPERTY_OF_KEY[PropertyString(p)] == p
  {
  }

  lemma MarginKeys(p: Properties)
    requires p.MarginBottom? || p.MarginSide? || p.MarginTop?
    ensures PropertyString(p) in PROPERTY_OF_KEY && PROPERTY_OF_KEY[PropertyString(p)] == p
  {
  }

  lemma FontKeys(p: Properties)
    requires p.MarginOverwrite? || p.FontFamily? || p.FontSize? || p.FontColor?
    ensures PropertyString(p) in PROPERTY_OF_KEY && PROPERTY_OF_KEY[PropertyString(p)] == p
  {
  }

  lemma FuriganaKeys(p: Properties)
    requires p.HorizontalNumbers? || p.FuriganaSpacing? || p.FuriganaDistance? || p.FuriganaFontSize? || p.FuriganaFontColor?
    ensures PropertyString(p) in PROPERTY_OF_KEY && PROPERTY_OF_KEY[PropertyString(p)] == p
  {
  }

  lemma SpacingKeys(p: Properties)
    requires p.LineSpaceReduction? || p.FuriganaLineSpaceReduction? || p.BorderColor? || p.BorderSize? || p.FuriganaBorderSize?
    ensures PropertyString(p) in PROPERTY_OF_KEY && PROPERTY_OF_KEY[PropertyString(p)] == p
  {
  }

  lemma VideoKeys(p: Properties)
    requires p.Width? || p.Height? || p.BlurRadius? || p.BlurSigma? || p.ColorLimit?
    ensures PropertyString(p) in PROPERTY_OF_KEY && PROPERTY_OF_KEY[PropertyString(p)] == p
  {
  }

  lemma PropertyStringDistinct(p: Properties, q: Properties)
    ensures PropertyString(p) == PropertyString(q) ==> p == q
  {
    PropertyStringRoundTrip(p);
    PropertyStringRoundTrip(q);
  }

  /** Every property of an enumeration is a key `parse_hint` accepts:
      the overwrite key, or a key of that generation's defaults. */
  lemma PropertyStringKnown(g: Generation, p: Properties)
    requires g == Legacy ==> LegacyProperty(p)
    ensures Known(Defaults(g), PropertyString(p))
    ensures PropertyString(p) in Defaults(g) <==> !p.MarginOverwrite?
  {
    if p.TextDirection? || p.TextAlignment? || p.TextJustify? {
      DirectionKnown(g, p);
    } else if p.MarginBottom? || p.MarginSide? || p.MarginTop? {
      MarginKnown(g, p);
    } else if p.MarginOverwrite? || p.FontFamily? || p.FontSize? || p.FontColor? {
      FontKnown(g, p);
    } else if p.HorizontalNumbers? || p.FuriganaSpacing? || p.FuriganaDistance? || p.FuriganaFontSize? || p.FuriganaFontColor? {
      FuriganaKnown(g, p);
    } else if p.LineSpaceReduction? || p.FuriganaLineSpaceReduction? || p.BorderColor? || p.BorderSize? || p.FuriganaBorderSize? {
      SpacingKnown(g, p);
    } else {
      VideoKnown(g, p);
    }
  }

  lemma DirectionKnown(g: Generation, p: Properties)
    requires p.TextDirection? || p.TextAlignment? || p.TextJustify?
    requires g == Legacy ==> LegacyProperty(p)
    ensures Known(Defaults(g), PropertyString(p))
    ensures PropertyString(p) in Defaults(g) <==> !p.MarginOverwrite?
  {
  }

  lemma MarginKnown(g: Generation, p: Properties)
    requires p.MarginBottom? || p.MarginSide? || p.MarginTop?
    requires g == Legacy ==> LegacyProperty(p)
    ensures Known(Defaults(g), PropertyString(p))
    ensures PropertyString(p) in Defaults(g) <==> !p.MarginOverwrite?
  {
  }

  lemma FontKnown(g: Generation, p: Properties)
    requires p.MarginOverwrite? || p.FontFamily? || p.FontSize? || p.FontColor?
    requires g == Legacy ==> LegacyProperty(p)
    ensures Known(Defaults(g), PropertyString(p))
    ensures PropertyString(p) in Defaults(g) <==> !p.MarginOverwrite?
  {
    if p.MarginOverwrite? {
      LegacyKeys();
      CurrentKeys();
    }
  }

  lemma FuriganaKnown(g: Generation, p: Properties)
    requires p.HorizontalNumbers? || p.FuriganaSpacing? || p.FuriganaDistance? || p.FuriganaFontSize? || p.FuriganaFontColor?
    requires g == Legacy ==> LegacyProperty(p)
    ensures Known(Defaults(g), PropertyString(p))
    ensures PropertyString(p) in Defaults(g) <==> !p.MarginOverwrite?
  {
  }

  lemma SpacingKnown(g: Generation, p: Properties)
    requires p.LineSpaceReduction? || p.FuriganaLineSpaceReduction? || p.BorderColor? || p.BorderSize? || p.FuriganaBorderSize?
    requires g == Legacy ==> LegacyProperty(p)
    ensures Known(Defaults(g), PropertyString(p))
    ensures PropertyString(p) in Defaults(g) <==> !p.MarginOverwrite?
  {
  }

  lemma VideoKnown(g: Generation, p: Properties)
    requires p.Width? || p.Height? || p.BlurRadius? || p.BlurSigma? || p.ColorLimit?
    requires g == Legacy ==> LegacyProperty(p)
    ensures Known(Defaults(g), PropertyString(p))
    ensures PropertyString(p) in Defaults(g) <==> !p.MarginOverwrite?
  {
  }

  /** How a numeric getter converts the stored text. */
  datatype Conversion =
    | ToInt       // std::stoi
    | ToULong     // std::stoul
    | ToUnsigned  // unsigned(std::stoul(...)): the low 32 bits

  /** The numeric getters: the conversion each uses and its fallback value
      (SubtitleParser/styledsrtparser.cpp:108-187,
      subtitle-parser/src/styledsrtparser.cpp:184-308). `blurRadius` and
      `blurSigma` read floating-point numbers and are not modelled. */
  function Getter(g: Generation, p: Properties): (r: Option<(Conversion, int)>)
    ensures r.Some? ==> 0 <= r.value.1 <= 1920
  {
    match g
    case Legacy => (
      match p
      case FontSize => Some((ToInt, 48))
      case FuriganaFontSize => Some((ToInt, 20))
      case LineSpaceReduction => Some((ToInt, 0))
      case FuriganaLineSpaceReduction => Some((ToInt, 0))
      case BorderSize => Some((ToInt, 4))
      case FuriganaBorderSize => Some((ToInt, 2))
      case MarginBottom => Some((ToInt, 100))
      case MarginSide => Some((ToInt, 100))
      case MarginTop => Some((ToInt, 150))
      case _ => None)
    case Current => (
      match p
      case Width => Some((ToUnsigned, 1920))
      case Height => Some((ToUnsigned, 1080))
      case FontSize => Some((ToULong, 46))
      case FuriganaFontSize => Some((ToULong, 20))
      case LineSpaceReduction => Some((ToInt, 0))
      case FuriganaLineSpaceReduction => Some((ToInt, 0))
      case BorderSize => Some((ToULong, 3))
      case FuriganaBorderSize => Some((ToULong, 2))
      case MarginBottom => Some((ToULong, 150))
      case MarginSide => Some((ToULong, 130))
      case MarginTop => Some((ToULong, 90))
      case ColorLimit => Some((ToUnsigned, 40))
      case _ => None)
  }

  const TWO32: int := 0x1_0000_0000

  /** The values a conversion's result type holds. */
  predicate Fits(c: Conversion, v: int)
  {
    match c
    case ToInt => INT_MIN <= v <= INT_MAX
    case ToULong => 0 <= v <= ULONG_MAX
    case ToUnsigned => 0 <= v < TWO32
  }

  /** The conversion, None where it throws. */
  function Convert(c: Conversion, s: string): (r: Option<int>)
    ensures r.Some? ==> Fits(c, r.value)
  {
    match c
    case ToInt => Stoi(s)
    case ToULong => (match Stoul(s) case None => None case Some(v) => Some(v))
    case ToUnsigned => (match Stoul(s) case None => None case Some(v) => Some(v % TWO32))
  }

  /** A numeric getter: the converted property value, or the fallback when
      the conversion throws. */
  function Number(g: Generation, h: Hints, p: Properties): (r: int)
    requires Getter(g, p).Some?
    ensures Fits(Getter(g, p).value.0, r)
  {
    var (conversion, fallback) := Getter(g, p).value;
    match Convert(conversion, PropertyValue(h, PropertyString(p)))
    case Some(v) => v
    case None => fallback
  }

  /** A missing property reads as the fallback. */
  lemma NumberOfMissing(g: Generation, h: Hints, p: Properties)
    requires Getter(g, p).Some? && PropertyString(p) !in h
    ensures Number(g, h, p) == Getter(g, p).value.1
  {
    NoDigitNoNumber("");
  }

  /** A property written in decimal reads as its value, truncated to 32
      bits by the `unsigned` getters. */
  lemma NumberOfDecimal(g: Generation, h: Hints, p: Properties, n: nat)
    requires Getter(g, p).Some? && PropertyString(p) in h && h[PropertyString(p)] == NatToString(n)
    requires Getter(g, p).value.0 == ToInt ==> n <= INT_MAX
    requires n <= ULONG_MAX
    ensures Number(g, h, p) == if Getter(g, p).value.0 == ToUnsigned then n % TWO32 else n
  {
    var c := Getter(g, p).value.0;
    assert PropertyString(p) != "";
    ConvertOfDecimal(c, n);
  }

  /** Each conversion reads a decimal text in its range as its value. */
  lemma ConvertOfDecimal(c: Conversion, n: nat)
    requires n <= ULONG_MAX && (c == ToInt ==> n <= INT_MAX)
    ensures Convert(c, NatToString(n)) == Some(if c == ToUnsigned then n % TWO32 else n)
  {
    if c == ToInt {
      StoiOfDecimal(n);
    } else {
      StoulOfDecimal(n);
    }
  }

  /** Each getter's fallback is the value of its key in that generation's
      defaults, so an item without hints reads the same either way. */
  lemma FallbackIsDefault(g: Generation, p: Properties)
    requires Getter(g, p).Some?
    ensures Number(g, Defaults(g), p) == Getter(g, p).value.1
  {
    if g == Legacy {
      LegacyFallback(p);
    } else {
      CurrentFallback(p);
    }
  }

  lemma LegacyFallback(p: Properties)
    requires Getter(Legacy, p).Some?
    ensures Number(Legacy, LEGACY_DEFAULTS, p) == Getter(Legacy, p).value.1
  {
    FallbackBound(Legacy, p);
    LegacyValueDecimal(p);
    NumberOfFallbackText(Legacy, LEGACY_DEFAULTS, p, Getter(Legacy, p).value.1);
  }

  lemma CurrentFallback(p: Properties)
    requires Getter(Current, p).Some?
    ensures Number(Current, CURRENT_DEFAULTS, p) == Getter(Current, p).value.1
  {
    FallbackBound(Current, p);
    CurrentValueDecimal(p);
    NumberOfFallbackText(Current, CURRENT_DEFAULTS, p, Getter(Current, p).value.1);
  }

  /** Every fallback is a small non-negative number. */
  lemma FallbackBound(g: Generation, p: Properties)
    requires Getter(g, p).Some?
    ensures 0 <= Getter(g, p).value.1 <= 1920
  {
  }

  /** A property holding its fallback's decimal text reads as the fallback. */
  lemma NumberOfFallbackText(g: Generation, h: Hints, p: Properties, n: nat)
    requires Getter(g, p).Some? && Getter(g, p).value.1 == n && n <= 1920
    requires PropertyString(p) in h && h[PropertyString(p)] == NatToString(n)
    ensures Number(g, h, p) == n
  {
    NumberOfDecimal(g, h, p, n);
    SmallUnsigned(n);
  }

  lemma SmallUnsigned(n: nat)
    requires n < TWO32
    ensures n % TWO32 == n
  {
  }

  lemma LegacyValueDecimal(p: Properties)
    requires Getter(Legacy, p).Some?
    ensures PropertyString(p) in LEGACY_DEFAULTS
    ensures LEGACY_DEFAULTS[PropertyString(p)] == NatToString(Getter(Legacy, p).value.1)
  {
    if p.MarginBottom? || p.MarginSide? {
      LegacyMarginDecimal(p);
    } else if p.MarginTop? || p.FontSize? {
      LegacyTopDecimal(p);
    } else if p.FuriganaFontSize? || p.LineSpaceReduction? || p.FuriganaLineSpaceReduction? {
      LegacySpacingDecimal(p);
    } else {
      LegacyBorderDecimal(p);
    }
  }

  lemma LegacyMarginDecimal(p: Properties)
    requires p.MarginBottom? || p.MarginSide?
    ensures PropertyString(p) in LEGACY_DEFAULTS
    ensures LEGACY_DEFAULTS[PropertyString(p)] == NatToString(Getter(Legacy, p).value.1)
  {
    LargeDecimals();
  }

  lemma LegacyTopDecimal(p: Properties)
    requires p.MarginTop? || p.FontSize?
    ensures PropertyString(p) in LEGACY_DEFAULTS
    ensures LEGACY_DEFAULTS[PropertyString(p)] == NatToString(Getter(Legacy, p).value.1)
  {
    MidDecimals();
    LargeDecimals();
  }

  lemma LegacySpacingDecimal(p: Properties)
    requires p.FuriganaFontSize? || p.LineSpaceReduction? || p.FuriganaLineSpaceReduction?
    ensures PropertyString(p) in LEGACY_DEFAULTS
    ensures LEGACY_DEFAULTS[PropertyString(p)] == NatToString(Getter(Legacy, p).value.1)
  {
    SmallDecimals();
    MidDecimals();
  }

  lemma LegacyBorderDecimal(p: Properties)
    requires p.BorderSize? || p.FuriganaBorderSize?
    ensures PropertyString(p) in LEGACY_DEFAULTS
    ensures LEGACY_DEFAULTS[PropertyString(p)] == NatToString(Getter(Legacy, p).value.1)
  {
    SmallDecimals();
  }

  lemma CurrentValueDecimal(p: Properties)
    requires Getter(Current, p).Some?
    ensures PropertyString(p) in CURRENT_DEFAULTS
    ensures CURRENT_DEFAULTS[PropertyString(p)] == NatToString(Getter(Current, p).value.1)
  {
    if p.Width? {
      CurrentWidthDecimal(p);
    } else if p.Height? {
      CurrentHeightDecimal(p);
    } else if p.MarginBottom? || p.MarginSide? {
      CurrentMarginDecimal(p);
    } else if p.MarginTop? || p.FontSize? {
      CurrentTopDecimal(p);
    } else if p.FuriganaFontSize? || p.LineSpaceReduction? || p.FuriganaLineSpaceReduction? {
      CurrentSpacingDecimal(p);
    } else {
      CurrentBorderDecimal(p);
    }
  }

  lemma CurrentWidthDecimal(p: Properties)
    requires p.Width?
    ensures PropertyString(p) in CURRENT_DEFAULTS
    ensures CURRENT_DEFAULTS[PropertyString(p)] == NatToString(Getter(Current, p).value.1)
  {
    VideoDecimals();
  }

  lemma CurrentHeightDecimal(p: Properties)
    requires p.Height?
    ensures PropertyString(p) in CURRENT_DEFAULTS
    ensures CURRENT_DEFAULTS[PropertyString(p)] == NatToString(Getter(Current, p).value.1)
  {
    VideoDecimals();
  }

  lemma CurrentMarginDecimal(p: Properties)
    requires p.MarginBottom? || p.MarginSide?
    ensures PropertyString(p) in CURRENT_DEFAULTS
    ensures CURRENT_DEFAULTS[PropertyString(p)] == NatToString(Getter(Current, p).value.1)
  {
    LargeDecimals();
  }

  lemma CurrentTopDecimal(p: Properties)
    requires p.MarginTop? || p.FontSize?
    ensures PropertyString(p) in CURRENT_DEFAULTS
    ensures CURRENT_DEFAULTS[PropertyString(p)] == NatToString(Getter(Current, p).value.1)
  {
    MidDecimals();
  }

  lemma CurrentSpacingDecimal(p: Properties)
    requires p.FuriganaFontSize? || p.LineSpaceReduction? || p.FuriganaLineSpaceReduction?
    ensures PropertyString(p) in CURRENT_DEFAULTS
    ensures CURRENT_DEFAULTS[PropertyString(p)] == NatToString(Getter(Current, p).value.1)
  {
    SmallDecimals();
    MidDecimals();
  }

  lemma CurrentBorderDecimal(p: Properties)
    requires p.BorderSize? || p.FuriganaBorderSize? || p.ColorLimit?
    ensures PropertyString(p) in CURRENT_DEFAULTS
    ensures CURRENT_DEFAULTS[PropertyString(p)] == NatToString(Getter(Current, p).value.1)
  {
    SmallDecimals();
    MidDecimals();
  }

  /** The decimal texts of the fallback values. */
  lemma SmallDecimals()
    ensures NatToString(0) == "0" && NatToString(2) == "2" && NatToString(3) == "3" && NatToString(4) == "4"
  {
  }

  lemma MidDecimals()
    ensures NatToString(20) == "20" && NatToString(40) == "40" && NatToString(46) == "46"
    ensures NatToString(48) == "48" && NatToString(90) == "90"
  {
  }

  lemma LargeDecimals()
    ensures NatToString(100) == "100" && NatToString(130) == "130" && NatToString(150) == "150"
  {
  }

  lemma VideoDecimals()
    ensures NatToString(1080) == "1080" && NatToString(1920) == "1920"
  {
  }

  /** What complete hints report for a key the table knows: a value exactly
      when the key has a default. */
  lemma CompleteKnown(defaults: Hints, h: Hints, key: string)
    requires Complete(defaults, h) && Known(defaults, key) && key != ""
    ensures PropertyValue(h, key) == "" <==> key !in defaults
  {
    if key in defaults {
      assert key in h && h[key] != "";
    } else {
      assert key == MARGIN_OVERWRITE;
    }
  }

  /** Complete hints report nothing for a key the table does not know. */
  lemma CompleteUnknown(defaults: Hints, h: Hints, key: string)
    requires Complete(defaults, h) && !Known(defaults, key)
    ensures PropertyValue(h, key) == ""
  {
  }

  /** What a produced item reports for each property: every property of its
      generation has a value except the overwrite key, which is always gone;
      the keys only the current generation has report nothing in the legacy
      one; vertical text is never centred. */
  lemma ParsedProperties(g: Generation, subs: seq<Item>, error: bool, i: nat, p: Properties)
    requires i + 1 < |subs|
    ensures (DefaultsFit(g); var h := Helper(Defaults(g), subs, error).0[i].hints;
      && (g == Current || LegacyProperty(p) ==> (PropertyValue(h, PropertyString(p)) == "" <==> p.MarginOverwrite?))
      && (g == Legacy && !LegacyProperty(p) ==> PropertyValue(h, PropertyString(p)) == "")
      && (IsVertical(h) ==> PropertyValue(h, "text-alignment") != "center"))
  {
    DefaultsFit(g);
    var h := Helper(Defaults(g), subs, error).0[i].hints;
    assert Complete(Defaults(g), h);
    CompleteProperties(g, h, p);
  }

  /** What complete hints of a generation report for each property. */
  lemma CompleteProperties(g: Generation, h: Hints, p: Properties)
    requires Complete(Defaults(g), h)
    ensures g == Current || LegacyProperty(p) ==> (PropertyValue(h, PropertyString(p)) == "" <==> p.MarginOverwrite?)
    ensures g == Legacy && !LegacyProperty(p) ==> PropertyValue(h, PropertyString(p)) == ""
    ensures IsVertical(h) ==> PropertyValue(h, "text-alignment") != "center"
  {
    if g == Current || LegacyProperty(p) {
      KnownPropertyValue(g, h, p);
    } else {
      LegacyLacks(p);
      CompleteUnknown(LEGACY_DEFAULTS, h, PropertyString(p));
    }
    VerticalNotCentred(Defaults(g), h);
  }

  /** A property of the generation has a value unless it is the overwrite key. */
  lemma KnownPropertyValue(g: Generation, h: Hints, p: Properties)
    requires Complete(Defaults(g), h) && (g == Current || LegacyProperty(p))
    ensures PropertyValue(h, PropertyString(p)) == "" <==> p.MarginOverwrite?
  {
    PropertyStringKnown(g, p);
    CompleteKnown(Defaults(g), h, PropertyString(p));
  }

  /** Complete hints never centre vertical text. */
  lemma VerticalNotCentred(defaults: Hints, h: Hints)
    requires Complete(defaults, h)
    ensures IsVertical(h) ==> PropertyValue(h, "text-alignment") != "center"
  {
  }

  /** The five keys the current generation adds are unknown to the legacy one. */
  lemma LegacyLacks(p: Properties)
    requires !LegacyProperty(p)
    ensures !Known(LEGACY_DEFAULTS, PropertyString(p))
  {
    if p.Width? || p.Height? {
      LegacyLacksSize(p);
    } else {
      LegacyLacksBlur(p);
    }
  }

  lemma LegacyLacksSize(p: Properties)
    requires p.Width? || p.Height?
    ensures !Known(LEGACY_DEFAULTS, PropertyString(p))
  {
  }

  lemma LegacyLacksBlur(p: Properties)
    requires p.BlurRadius? || p.BlurSigma? || p.ColorLimit?
    ensures !Known(LEGACY_DEFAULTS, PropertyString(p))
  {
  }

  /** What the four-argument `StyledSubtitleItem` constructor
      (SubtitleParser/styledsrtparser.hpp:51-57) makes: the item `MakeItem`
      builds from the same arguments, without its time strings and with no
      hints, or the exception `timeMSec` throws on either time. */
  function MakeStyled(subNo: nat, start: string, end: string, text: string): (r: Try<Styled>)
    ensures r.Ok? <==> MakeItem(subNo, start, end, text).Ok?
    ensures r.Throws? <==> MakeItem(subNo, start, end, text).Throws?
    ensures r.Throws? ==> r.what == STOULL
    ensures r.Ok? ==>
      && r.value.hints == map[]
      && r.value.base.startString == "" && r.value.base.endString == ""
      && r.value.base.text == text && r.value.base.subNo == subNo
      && r.value.base.startTime == TimeMSec(start).value
      && r.value.base.endTime == TimeMSec(end).value
  {
    match MakeItem(subNo, start, end, text)
    case Ok(item) => Ok(Styled(item.(startString := "", endString := ""), map[]))
    case Throws(w) => Throws(w)
    case Undefined => Undefined
  }

  /** `StyledSubtitleItem` (SubtitleParser/styledsrtparser.hpp:13-133): a
      subtitle item with its style hints. */
  class StyledSubtitleItem {
    var startTime: nat
    var endTime: nat
    var text: string
    var subNo: nat
    var startTimeString: string
    var endTimeString: string
    var hints: Hints

    function Value(): Styled
      reads this
    {
      Styled(Item(subNo, startTimeString, endTimeString, text, startTime, endTime), hints)
    }

    /** Construction from an unstyled item (lines 43-49): text, number and
        both times are copied; the time strings are not, and stay empty. */
    constructor FromItem(unstyled: Item)
      ensures Value() == Styled(unstyled.(startString := "", endString := ""), map[])
    {
      startTimeString := "";
      endTimeString := "";
      hints := map[];
      text := unstyled.text;
      subNo := unstyled.subNo;
      startTime := unstyled.startTime;
      endTime := unstyled.endTime;
    }

    /** The four-argument constructor (lines 51-57) when both times
        convert: the object holds what `MakeStyled` gives; the throw on a
        malformed time is `MakeStyled`'s other outcome. */
    constructor (subNo: nat, start: string, end: string, text: string)
      requires TimeMSec(start).Ok? && TimeMSec(end).Ok?
      ensures Ok(Value()) == MakeStyled(subNo, start, end, text)
    {
      startTimeString := "";
      endTimeString := "";
      hints := map[];
      this.text := text;
      this.subNo := subNo;
      var s := TimeMSecOf(start);
      var e := TimeMSecOf(end);
      startTime := s;
      endTime := e;
    }

    method SetText(s: string)
      modifies this
      ensures Value() == old(Value()).(base := old(Value()).base.(text := s))
    {
      text := s;
    }

    /** `setStyleHints` (lines 62-65); `styleHints` then returns the map. */
    method SetStyleHints(h: Hints)
      modifies this
      ensures Value() == old(Value()).(hints := h) && StyleHints() == h
    {
      hints := h;
    }

    function StyleHints(): Hints
      reads this
    {
      hints
    }

    /** `property(key)` (lines 76-79). */
    function Property(key: string): string
      reads this
    {
      PropertyValue(hints, key)
    }

    /** `property(enum)` (lines 81-84): the property under its key. */
    function PropertyOf(p: Properties): string
      reads this
    {
      Property(PropertyString(p))
    }
  }

  /** The loop body of `parse_helper` (subtitle-parser/src/styledsrtparser.cpp:
      137-176): the item is copied into a styled item, which gets the clean
      text and the item's own hints over the globals, cleaned up. */
  method StyleOne(defaults: Hints, global: Hints, it: Item) returns (r: Styled)
    requires Fit(defaults) && Good(defaults, global)
    ensures r == StyleItem(defaults, global, it)
  {
    var sub := new StyledSubtitleItem.FromItem(it);
    var clean, hints := ExtractHintsInto(defaults, it.text, global);
    sub.SetText(clean);
    AbsorbGood(defaults, Split(it.text, '\n'), global);
    hints := ApplyOverwrite(hints);
    sub.SetStyleHints(hints);
    r := sub.Value();
  }

  /** `parse_helper` with the item objects: the first item's hints become the
      globals and the item is erased, then every other item is styled. */
  method ParseHelper(defaults: Hints, subs: seq<Item>, error: bool) returns (subtitles: seq<Styled>, failed: bool)
    requires Fit(defaults)
    ensures (subtitles, failed) == Helper(defaults, subs, error)
  {
    if |subs| == 0 {
      return [], true;
    }
    var ignored, globalHints := ExtractHintsInto(defaults, subs[0].text, defaults);
    assert globalHints == Globals(defaults, subs[0]);
    var rest := subs[1..];
    ghost var all := Helper(defaults, subs, error).0;
    assert |all| == |rest|;
    subtitles := [];
    for i := 0 to |rest|
      invariant subtitles == all[..i]
    {
      var styled := StyleOne(defaults, globalHints, rest[i]);
      assert all[i] == styled;
      PrefixSnoc(all, i);
      subtitles := subtitles + [styled];
    }
    assert all[..|rest|] == all;
    failed := error;
  }

  /** The legacy `parseStyled(fileName)` (SubtitleParser/styledsrtparser.cpp:
      210-275): the file is parsed without error reporting; an empty parse
      gives no items. */
  function LegacyParseStyled(present: bool, file: string): (r: seq<Styled>)
    ensures Parse(present, file).subtitles == [] ==> r == []
    ensures Parse(present, file).subtitles != [] ==> |r| == |Parse(present, file).subtitles| - 1
    ensures !present ==> r == []
  {
    DefaultsFit(Legacy);
    Helper(LEGACY_DEFAULTS, Parse(present, file).subtitles, false).0
  }

  /** The result of the current generation's entry points. */
  datatype StyledOutcome = StyledOutcome(subtitles: seq<Styled>, error: bool, exception: Option<string>)

  /** `parseStyled` and `parseStyledFromMemory`
      (subtitle-parser/src/styledsrtparser.cpp:331-341), given what the
      underlying parser returned and reported. */
  function ParseStyled(parsed: Outcome): (r: StyledOutcome)
    ensures r.error <==> parsed.error || parsed.subtitles == []
    ensures r.exception == parsed.exception
    ensures parsed.subtitles == [] ==> r.subtitles == []
    ensures parsed.subtitles != [] ==> |r.subtitles| == |parsed.subtitles| - 1
  {
    DefaultsFit(Current);
    var (subtitles, error) := Helper(CURRENT_DEFAULTS, parsed.subtitles, parsed.error);
    StyledOutcome(subtitles, error, parsed.exception)
  }

  /** `parseStyledWithExternalHints` (subtitle-parser/src/styledsrtparser.cpp:
      343-365). With an error pointer, a failed parse of the file or of the
      hint data gives nothing. Without one (the default `nullptr`), the
      checks never return and no flag is written: the parse goes on with
      whatever items the parsers gave. Either way the hint data's items go in
      front, so its first item gives the globals. The exception text is the
      last one a parser stored. */
  function WithExternalHints(errorPointer: bool, parsed: Outcome, hintData: Outcome): (r: StyledOutcome)
    ensures errorPointer && parsed.error ==> r == StyledOutcome([], true, parsed.exception)
    ensures !(errorPointer && parsed.error) ==>
      r.exception == if hintData.exception.Some? then hintData.exception else parsed.exception
    ensures errorPointer && !parsed.error && hintData.error ==> r.subtitles == [] && r.error
    ensures errorPointer && !parsed.error && !hintData.error ==>
      r == ParseStyled(Outcome(hintData.subtitles + parsed.subtitles, false, r.exception))
    ensures !errorPointer ==>
      !r.error && r.subtitles == ParseStyled(Outcome(hintData.subtitles + parsed.subtitles, false, r.exception)).subtitles
  {
    if errorPointer && parsed.error then StyledOutcome([], true, parsed.exception)
    else
      var exception := if hintData.exception.Some? then hintData.exception else parsed.exception;
      if errorPointer && hintData.error then StyledOutcome([], true, exception)
      else
        var styled := ParseStyled(Outcome(hintData.subtitles + parsed.subtitles, false, exception));
        if errorPointer then styled else StyledOutcome(styled.subtitles, false, exception)
  }

  /** Without an error pointer, hint data that failed to parse (and so gave no
      items) leaves the file to style itself: its first item gives the globals
      and is dropped, and nothing reports the failure. */
  lemma {:induction false} FailedHintsIgnoredWithoutPointer(parsed: Outcome, hintData: Outcome)
    requires hintData.error && hintData.subtitles == [] && parsed.subtitles != []
    ensures var r := WithExternalHints(false, parsed, hintData);
      && !r.error
      && |r.subtitles| == |parsed.subtitles| - 1
      && forall i :: 0 <= i < |r.subtitles| ==>
           r.subtitles[i] == (DefaultsFit(Current);
                              StyleItem(CURRENT_DEFAULTS, Globals(CURRENT_DEFAULTS, parsed.subtitles[0]), parsed.subtitles[i + 1]))
  {
    DefaultsFit(Current);
    assert hintData.subtitles + parsed.subtitles == parsed.subtitles;
  }

  /** With a single item of hint data, that item gives the globals and every
      item of the file is styled, its first one included. */
  lemma ExternalHintsAreGlobal(errorPointer: bool, parsed: Outcome, hintData: Outcome)
    requires !parsed.error && !hintData.error && |hintData.subtitles| == 1
    ensures var r := WithExternalHints(errorPointer, parsed, hintData);
      && !r.error
      && |r.subtitles| == |parsed.subtitles|
      && forall i :: 0 <= i < |parsed.subtitles| ==>
           r.subtitles[i] == (DefaultsFit(Current);
                              StyleItem(CURRENT_DEFAULTS, Globals(CURRENT_DEFAULTS, hintData.subtitles[0]), parsed.subtitles[i]))
  {
    DefaultsFit(Current);
    var all := hintData.subtitles + parsed.subtitles;
    assert all[0] == hintData.subtitles[0];
    assert forall i :: 0 <= i < |parsed.subtitles| ==> all[1..][i] == parsed.subtitles[i];
  }

  /** Empty hint data changes nothing: the file's first item gives the globals,
      and without an error pointer the same items come out, with no flag. */
  lemma NoExternalHints(parsed: Outcome, hintData: Outcome)
    requires !parsed.error && !hintData.error && hintData.subtitles == [] && hintData.exception.None?
    ensures WithExternalHints(true, parsed, hintData) == ParseStyled(parsed)
    ensures WithExternalHints(false, parsed, hintData).subtitles == ParseStyled(parsed).subtitles
  {
    assert hintData.subtitles + parsed.subtitles == parsed.subtitles;
  }
}
