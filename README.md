# jimaku-editor: a verified model of its subtitle pipeline

jimaku-editor turns Japanese subtitles written as SRT files into
presentation-graphics (PGS, `.sup`) subtitle streams. The pipeline has
four stages, and this project models the logic of each:

1. **SRT parsing.** `SrtParser::parse` reads numbered blocks of a number
   line, a timing line `HH:MM:SS,mmm --> HH:MM:SS,mmm` and text lines.
   `SubtitleItem::timeMSec` turns the times into milliseconds. Modules
   `SrtText`, `SrtParser` and `SrtFormat`.
2. **Style hints.** The first subtitle carries `# key=value` comment lines
   that set global style hints, and every later subtitle may override
   them. A `margin-overwrite` hint is folded into a margin, and vertical
   text is never centred. Module `StyledHints` covers both generations of
   `styledsrtparser.cpp`: the legacy one and the current one with video
   size, blur and colour-limit keys.
3. **Rendering helpers.** These are the pure parts of `pngrenderer.cpp` in
   both generations:
   - the furigana markup `{漢字|かんじ}`, with the line shown without it
     and the kanji positions recorded (module `Furigana`);
   - the alignment, distance and font-style tables (`RenderOptions`);
   - the crop of the transparent border and the position fix-up after it
     (`CropDetection`, `RenderOptions.Position`).
4. **Frame creation and muxing.**
   - The frame creators place each rendered image on the video frame
     (`FramePlacement`).
   - The newer frame creator writes `pgs.xml` with `HH:MM:SS.mmm` times
     (`FrameTime`) and runs an optional per-image command (`FrameCommand`).
   - The older one writes a `pgs.script` timing file (`TimingScript`).
   - The C muxer `pgssup` (`PGSEncoder/main.c`) reads the cues and turns
     each into eight segments: a presentation composition, a window, a
     palette, the run-length coded object, an end of display set, then
     the composition, window and end of display set that clear it.
     Modules `PgsPaths`, `Bytes`, `PgsPalette`, `PgsRle` and `PgsSegments`.

`Version` models the cached version string of `config/src/version.cpp`.
`Numbers` holds the C++ number conversions (`std::to_string`,
`std::stoul`, `std::stoi`, zero padding) that the other modules share.

The sources loop in place over buffers, streams and maps. Those loops
are methods over arrays or sequences, proved against the functions that
specify them. The C++ classes whose fields are set in place are Dafny
classes: `SubtitleItem`, `StyledSubtitleItem`, the frame creator's command
template, the renderer's position and the version cache. Sizes are
unbounded integers. Where the source's integer width matters, it is
written out:
- the 32-bit `unsigned` of the older frame creator;
- the newer one's 32-bit `unsigned` sizes and 64-bit `unsigned long`
  margins: a difference of two sizes wraps at 32 bits before it is widened,
  and a sum that subtracts a margin first wraps only at 64 bits;
- the `char` truncation in the muxer's run-length codes;
- the 32-bit two's-complement timestamps.

## Model

| member | source | states |
|---|---|---|
| Bytes.LongToBytesModulo | PGSEncoder/main.c:101-122 | `longtobyte` writes the 32-bit two's-complement pattern of every `long`: the four bytes read big-endian are the value modulo 2^32 |
| Bytes.LongToBytesRoundTrip | PGSEncoder/main.c:101-122 | every timestamp in the signed 32-bit range reads back unchanged as a signed big-endian number |
| Bytes.HighByteBound | PGSEncoder/main.c:101-122 | the first byte is at least 128 exactly when the unsigned value is at least 2^31 (the sign of the written timestamp) |
| Bytes.IntToBytesModulo | PGSEncoder/main.c:124-128 | `inttobyte` writes the low 16 bits of any `int`, most significant byte first |
| Bytes.IntToBytesRoundTrip | PGSEncoder/main.c:124-128 | every 16-bit length, size or offset reads back unchanged |
| Bytes.LongToBytes | PGSEncoder/main.c:101-122 | `longtobyte` writes four bytes |
| Bytes.IntToBytes | PGSEncoder/main.c:124-128 | `inttobyte` writes two bytes |
| PgsPaths.MatchChar | PGSEncoder/main.c:27-39 | `matchchar` returns 1 exactly when the pattern occurs in the text at position p |
| PgsPaths.LastSlash | PGSEncoder/main.c:66-73 | the backward scan for a '/' finds the last one before k, or -1 when there is none |
| PgsPaths.ParentDir | PGSEncoder/main.c:63-74 | one `../` gives a shorter directory that is a prefix of the old one and still ends in '/'; it fails exactly for "/", where the source reads before its buffer |
| PgsPaths.WithSlash | PGSEncoder/main.c:56-60 | the working directory with the '/' the source appends is a directory path |
| PgsPaths.StepUp | PGSEncoder/main.c:63-74 | the in-place `pl--` loop computes the parent directory of `ap[0..pl)`, or reports the climb above "/" |
| PgsPaths.CopyRest | PGSEncoder/main.c:91-98 | the final copy loop leaves the old directory followed by the rest of the relative path in the buffer |
| PgsPaths.WorkingDirectory | PGSEncoder/main.c:48-60 | the buffer holds the working directory with exactly one trailing '/' |
| PgsPaths.ResolvePrefix | PGSEncoder/main.c:61-90 | the loop over leading `../` and `./` segments agrees with the reference resolution: it fails exactly when that does, and otherwise leaves the directory and the index of the text to append |
| PgsPaths.GetAbsolutePath | PGSEncoder/main.c:41-99 | `getabsolutepath` on its buffer computes exactly the reference resolution of the path against the working directory |
| PgsPaths.ResolveIsAbsolute | PGSEncoder/main.c:41-99 | every resolved path starts with '/' |
| PgsPaths.ResolveKeepsRest | PGSEncoder/main.c:61-98 | after the leading dot segments, the rest of the path is kept verbatim: alone when it starts with '/', after a directory otherwise |
| PgsPaths.AbsoluteInputUnchanged | PGSEncoder/main.c:83-89 | an absolute path is returned unchanged |
| PgsPaths.RelativeInputAppended | PGSEncoder/main.c:56-98 | a path not starting with '.' or '/' is appended to the working directory with exactly one '/' between |
| PgsPaths.ResolveShift | PGSEncoder/main.c:61-98 | resolution depends only on the text from the current index on |
| PgsPaths.DotSlashIgnored | PGSEncoder/main.c:77-82 | a leading "./" does not change the result |
| PgsPaths.DotDotSlashIsParent | PGSEncoder/main.c:63-76 | a leading "../" resolves the rest against the parent directory, and fails at "/" |
| PgsPalette.FirstSeen | PGSEncoder/main.c:636-669 | the palette the scan builds holds distinct, opaque colours of the picture, in order of first occurrence |
| PgsPalette.IndexOf | PGSEncoder/main.c:645-654 | the palette search finds the first index holding the colour, or the palette size when it is absent |
| PgsPalette.LookUp | PGSEncoder/main.c:645-654 | the search loop computes that index |
| PgsPalette.ScanPixel | PGSEncoder/main.c:640-667 | one pixel sets `aflag` or adds a new colour, keeping the palette equal to the first-seen colours of the pixels scanned; an overflow means the whole picture has more than 256 colours |
| PgsPalette.ScanRow | PGSEncoder/main.c:638-668 | the row loop keeps the palette and `aflag` equal to the first-seen colours and the transparency of the rows scanned so far |
| PgsPalette.BuildPalette | PGSEncoder/main.c:625-674 | the scan returns the picture's palette, or fails exactly when it has more than 256 colours or 256 colours and a transparent pixel |
| PgsPalette.OverflowPersists | PGSEncoder/main.c:657-661 | an overflow on part of the picture is an overflow of the whole picture, so the early `return` loses nothing |
| PgsPalette.FirstSeenPrefix | PGSEncoder/main.c:636-669 | scanning further never reorders or drops a colour already in the palette |
| PgsPalette.FirstSeenComplete | PGSEncoder/main.c:636-669 | every opaque colour of the picture is in the palette |
| PgsPalette.IndexRecoversColour | PGSEncoder/main.c:740-766 | with the picture's palette, every opaque pixel's index points at its own colour, and a transparent pixel gets 0xFF, which is not a palette index |
| PgsRle.RunsOf | PGSEncoder/main.c:737-826 | the runs that `prevpalette`/`colorseqcount` track are non-empty, and there are runs exactly when the row is not empty |
| PgsRle.RunsOfStep | PGSEncoder/main.c:767-825 | one more pixel lengthens the last run when its index is the same, and opens a new run otherwise |
| PgsRle.ExpandRunsOf | PGSEncoder/main.c:737-826 | the runs stand for exactly the row they were cut from |
| PgsRle.RunsAlternate | PGSEncoder/main.c:767-825 | neighbouring runs never have the same index |
| PgsRle.RunsShorterThanRow | PGSEncoder/main.c:737-826 | no run is longer than its row |
| PgsRle.EncodeStep | PGSEncoder/main.c:753-825 | each pixel's index is a byte, and it extends or closes the open run |
| PgsRle.EncodeStart | PGSEncoder/main.c:739-752 | the first pixel of a row opens the first run |
| PgsRle.EncodePixel | PGSEncoder/main.c:753-825 | one pass of the row loop keeps the closed runs flushed to the output and the open run in the loop variables |
| PgsRle.FinishRow | PGSEncoder/main.c:827-878 | the final flush and the 00 00 end-of-line code complete the row's codes |
| PgsRle.EncodeRow | PGSEncoder/main.c:737-879 | the row loop writes exactly the reference codes of the row's palette indices |
| PgsRle.DecodeFlushRun | PGSEncoder/main.c:774-822 | every flushed run below 16384 pixels decodes back to its pixels |
| PgsRle.FlushRunShape | PGSEncoder/main.c:774-822 | a flushed run takes one to four bytes; a single or doubled pixel is written as its index once or twice, and every other code starts with the escape 0 not followed by the end-of-line 0 |
| PgsRle.DecodeLongRun | PGSEncoder/main.c:775-792 | the three- and four-byte codes of runs of 64 pixels or more decode back |
| PgsRle.DecodeShortRun | PGSEncoder/main.c:793-822 | the one-, two- and three-byte codes of shorter runs decode back |
| PgsRle.DecodeDoubled | PGSEncoder/main.c:802-807 | two pixels of an index below 0x3A, written as the index twice, decode back |
| PgsRle.DecodeFlushAll | PGSEncoder/main.c:767-878 | a row's codes decode to the runs' pixels and stop right after the end-of-line code |
| PgsRle.RowRoundTrip | PGSEncoder/main.c:737-879 | a row's codes decode back to the row's indices when no run reaches 16384 pixels |
| PgsRle.NarrowRowRoundTrip | PGSEncoder/main.c:737-879 | every row narrower than 16384 pixels meets that condition |
| PgsRle.LongRunWrapsToEndOfLine | PGSEncoder/main.c:774-784 | a coloured run of 16384 pixels wraps `k + 0xC0` to 0 in the `char` and starts with the end-of-line code |
| PgsRle.EncodeBitmap | PGSEncoder/main.c:737-879 | the object data loop writes exactly the reference codes of every row |
| PgsRle.ImageIndices | PGSEncoder/main.c:737-879 | the index rows of a picture are the per-row palette indices |
| PgsRle.BitmapRoundTrip | PGSEncoder/main.c:737-879 | the object data decodes back to every pixel's palette index, row by row, for pictures narrower than 16384 pixels |
| PgsSegments.SegmentBytes | PGSEncoder/main.c:479-494 | a segment on the wire is a 13-byte header followed by its body |
| PgsSegments.SegmentRoundTrip | PGSEncoder/main.c:479-494 | a segment whose fields fit is read back whole, and reading continues after it |
| PgsSegments.SerializeRoundTrip | PGSEncoder/main.c:445-990 | a reader recovers exactly the segments that were written, since each length field equals its body's size |
| PgsSegments.ShowBody | PGSEncoder/main.c:492-521 | the showing composition body is 19 bytes |
| PgsSegments.ClearBody | PGSEncoder/main.c:923-939 | the clearing composition body is 11 bytes |
| PgsSegments.WindowBody | PGSEncoder/main.c:607-624 | the window body is 10 bytes |
| PgsSegments.PaletteBody | PGSEncoder/main.c:689-707 | the palette body is 2 bytes plus 5 per entry |
| PgsSegments.ObjectBody | PGSEncoder/main.c:723-735 | the object body is 11 bytes plus the run-length codes |
| PgsSegments.CueSegments | PGSEncoder/main.c:445-990 | a cue is written as eight segments |
| PgsSegments.PaletteCoversImage | PGSEncoder/main.c:636-674 | a picture whose palette was built has at most 256 colours, and every pixel is transparent or a palette colour |
| PgsSegments.WritePalette | PGSEncoder/main.c:695-707 | the palette-entry loop appends exactly the entries of the palette |
| PgsSegments.AppendShow | PGSEncoder/main.c:479-514 | the writes append the showing composition segment |
| PgsSegments.AppendWindow | PGSEncoder/main.c:594-624 | the writes append the window segment |
| PgsSegments.AppendPalette | PGSEncoder/main.c:676-707 | the writes append the palette segment |
| PgsSegments.AppendObject | PGSEncoder/main.c:709-892 | the object segment is written and its two length fields are patched afterwards; when the data fits 65535 bytes the buffer holds exactly the object segment |
| PgsSegments.PatchedObject | PGSEncoder/main.c:887-892 | patching the two length fields of the object segment as first written yields the segment with the right lengths |
| PgsSegments.AppendEnd | PGSEncoder/main.c:893-908 | the writes append an end-of-display-set segment |
| PgsSegments.AppendClear | PGSEncoder/main.c:910-939 | the writes append the clearing composition segment |
| PgsSegments.CueEndSegments | PGSEncoder/main.c:893-989 | a cue ends with four segments |
| PgsSegments.AppendCueEnd | PGSEncoder/main.c:893-989 | the writes after the object append the end of the showing display set and the whole clearing display set |
| PgsSegments.CueSegmentsParts | PGSEncoder/main.c:445-990 | the eight segments are the two written before the palette scan, the palette and object, then the four after them |
| PgsSegments.CueOutputWritten | PGSEncoder/main.c:445-990 | a cue whose palette and object fit is written as its eight segments |
| PgsSegments.CueOutput | PGSEncoder/main.c:445-990 | a cue is refused for too many colours exactly when its picture has more than the palette holds, and for complexity only when its object data exceed 65535 bytes |
| PgsSegments.EncodeCueHead | PGSEncoder/main.c:479-623 | the composition and window segments that open a cue |
| PgsSegments.EncodeCueBody | PGSEncoder/main.c:625-990 | the palette, object and end-of-cue segments follow the opening ones; the object's length is computed before the 65535 check |
| PgsSegments.EncodeCue | PGSEncoder/main.c:445-990 | one pass of the per-cue loop produces the reference output of the cue: its bytes, or the palette or size error |
| PgsSegments.SegmentsRepresentable | PGSEncoder/main.c:445-990 | with timestamps and a picture that fit, every field of every segment fits |
| PgsSegments.CueRoundTrip | PGSEncoder/main.c:445-990 | a reader of a written cue's bytes gets back its eight segments, with the cue's times, in the muxer's order |
| PgsSegments.CueSchedule | PGSEncoder/main.c:470-477 | the segment kinds and times of a cue: it is shown at the start time with the 5832-tick decode lead, and cleared at the end time |
| PgsSegments.CueSize | PGSEncoder/main.c:445-990 | a written cue takes 167 bytes plus 5 per palette entry plus its codes, and those codes fit the 16-bit length |
| PgsSegments.ForcedFlag | PGSEncoder/main.c:458-514 | byte 27 of a written cue is 0x40 exactly when `view` starts with "forced", and 0 otherwise |
| PgsSegments.CuePosition | PGSEncoder/main.c:452-457 | bytes 28..31 hold the cue's own offset, or the default offset when it has none |
| PgsSegments.ObjectFields | PGSEncoder/main.c:723-735 | the object's 24-bit data length and picture size read back as written |
| PgsSegments.Mux | PGSEncoder/main.c:445-990 | the main loop writes each cue in turn and stops at the first failing cue, as the reference run does |
| PgsSegments.WrittenCue | PGSEncoder/main.c:445-990 | a written cue had a palette, and its bytes are its serialized segments |
| PgsSegments.StreamComplete | PGSEncoder/main.c:445-990 | a complete run is a complete run of all cues but the last, followed by the last cue's bytes |
| PgsSegments.StreamStopped | PGSEncoder/main.c:445-990 | once the run stops, later cues change nothing |
| PgsSegments.Stream | PGSEncoder/main.c:445-990 | a run that stops, stops at a cue of the list that was not written, for the reason that cue's output gives |
| PgsSegments.StreamPrefix | PGSEncoder/main.c:445-990 | the file only grows: what a prefix of the cues wrote begins it |
| PgsSegments.AllSegments | PGSEncoder/main.c:445-990 | a complete run writes eight segments per cue |
| PgsSegments.StreamSerializes | PGSEncoder/main.c:445-990 | a complete run writes exactly the serialized segments of all cues |
| PgsSegments.AllRepresentable | PGSEncoder/main.c:445-990 | with timestamps that fit, every segment of a complete run fits its fields |
| PgsSegments.CompleteCuesFit | PGSEncoder/main.c:880-886 | in a complete run, every cue passed the 65535-byte check |
| PgsSegments.StreamRoundTrip | PGSEncoder/main.c:445-990 | the file of a complete run reads back as eight segments per cue, in the muxer's order |
| SrtText.Find | SubtitleParser/srtparser.cpp:21 | the first index of the delimiter, or the length when there is none |
| SrtText.Split | SubtitleParser/srtparser.cpp:16-27 | the pieces `getline` cuts hold no delimiter, and there are none exactly for the empty text |
| SrtText.SplitInto | SubtitleParser/srtparser.cpp:16-27 | `split` appends exactly the pieces of the text to `elems` |
| SrtText.ReadPiece | SubtitleParser/srtparser.cpp:21 | one `getline` call extracts the characters up to the next delimiter or the end, and none of them is the delimiter |
| SrtText.SplitAdvance | SubtitleParser/srtparser.cpp:21-24 | one `getline` call yields the next piece and leaves the rest after the delimiter |
| SrtText.JoinSplit | SubtitleParser/srtparser.cpp:16-27 | joining the pieces again gives the text back, up to a trailing delimiter, which splitting drops |
| SrtText.SplitJoin | SubtitleParser/srtparser.cpp:16-27 | pieces without the delimiter, the last not empty, are recovered by joining and splitting |
| SrtText.SplitTerminated | SubtitleParser/srtparser.cpp:16-27 | a text of delimiter-ended pieces splits into those pieces and then the pieces of what follows |
| SrtText.ReadLines | SubtitleParser/srtparser.cpp:80 | the read loop sees one line per piece between newlines |
| SrtText.ReadLinesFaithful | SubtitleParser/srtparser.cpp:80-127 | only the last line read can carry the end-of-file flag, and it does exactly when the text does not end with a newline |
| SrtText.WithoutCR | SubtitleParser/srtparser.cpp:83 | the cleaned line holds no carriage return and is no longer than the line |
| SrtText.RemoveCarriageReturns | SubtitleParser/srtparser.cpp:83 | `erase(remove(...))` leaves exactly the line without its carriage returns, in order |
| SrtText.SkipUtf8Bom | SubtitleParser/srtparser.cpp:30-45 | the stream yields the text after a byte-order mark, the whole text, or nothing for a text of fewer than three characters |
| SrtText.SkipUtf8BomCases | SubtitleParser/srtparser.cpp:30-45 | the mark is dropped when present; any other text of at least three characters is read whole |
| SrtParser.TimeMSec | SubtitleParser/srtparser.cpp:154-168 | `timeMSec` gives a value below 2^64, or the `stoull` exception (a missing field or a bad number) |
| SrtParser.Millis | SubtitleParser/srtparser.cpp:167 | the sum of the fields wraps at 64 bits like `timestamp_t` |
| SrtParser.TimeMSecOfSrtTime | SubtitleParser/srtparser.cpp:154-168 | a time written as zero-padded `H:M:S,ms` reads back as its milliseconds |
| SrtParser.TimeFields | SubtitleParser/srtparser.cpp:154-168 | four numeric fields joined as `H:M:S,ms` are read back field by field |
| SrtParser.TimeOfPieces | SubtitleParser/srtparser.cpp:159-167 | a value whose pieces split as `timeMSec` expects and convert gives their millisecond sum |
| SrtParser.PaddedNumber | SubtitleParser/srtparser.cpp:160-165 | a zero-padded number holds no separator and `stoull` reads it back |
| SrtParser.MakeItem | subtitle-parser/include/srtparser/srtparser.hpp:33-41 | an item is built exactly when both times convert; it stores the strings and number as given and the times they convert to |
| SrtParser.SubtitleItem.constructor | subtitle-parser/include/srtparser/srtparser.hpp:33-41 | the object holds the item `MakeItem` describes |
| SrtParser.SubtitleItem.SetStartTime | subtitle-parser/include/srtparser/srtparser.hpp:82-85 | only the start time changes |
| SrtParser.SubtitleItem.SetEndTime | subtitle-parser/include/srtparser/srtparser.hpp:88-91 | only the end time changes |
| SrtParser.SubtitleItem.SetText | subtitle-parser/include/srtparser/srtparser.hpp:94-97 | only the text changes |
| SrtParser.SubtitleItem.SetSubNumber | subtitle-parser/include/srtparser/srtparser.hpp:100-103 | only the number changes |
| SrtParser.TimeMSecOf | SubtitleParser/srtparser.cpp:154-168 | the loop-free code computes `timeMSec` |
| SrtParser.Push | SubtitleParser/srtparser.cpp:120 | `emplace_back` appends the built item, or passes on the conversion exception |
| SrtParser.Read | SubtitleParser/srtparser.cpp:95-122 | a line other than a number line keeps the items read so far; a blank line appends one item and resets `turn`, any other line advances `turn`; a timing line is undefined exactly when the accumulated timing text splits into fewer than three pieces, and a text line always succeeds |
| SrtParser.Step | SubtitleParser/srtparser.cpp:80-128 | one pass of the loop body appends at most two items and only ever extends the list |
| SrtParser.Steps | SubtitleParser/srtparser.cpp:80-128 | the loop only ever extends the item list, and any exception it throws is the `stoull` one |
| SrtParser.EndOfFileAppends | SubtitleParser/srtparser.cpp:124-127 | the end-of-file flag appends one more item after what the line itself does |
| SrtParser.Parse | SubtitleParser/srtparser.cpp:49-152 | an error gives no items, and a reported exception is always the `stoull` one and comes with the error flag |
| SrtParser.StepsKeepGood | SubtitleParser/srtparser.cpp:80-128 | the loop keeps every item consistent with its own time strings |
| SrtParser.ParsedItemsConsistent | SubtitleParser/srtparser.cpp:49-152 | every item `parse` returns has its times read from its own time strings |
| SrtParser.ParseFile | SubtitleParser/srtparser.cpp:49-152 | the loop over the file's lines computes the reference parse: items, error flag and exception text |
| SrtParser.ReadLine | SubtitleParser/srtparser.cpp:95-122 | the loop body for a line other than a number line computes `Read` |
| SrtParser.EmplaceBack | SubtitleParser/srtparser.cpp:120 | building the item object and appending its values computes `Push` |
| SrtFormat.NumberLineStep | SubtitleParser/srtparser.cpp:87-93 | a number line at `turn` 0 sets the subtitle number and `turn` 1 |
| SrtFormat.TimingLineText | SubtitleParser/srtparser.cpp:95-103 | a timing line holds "-->" and splits at spaces into the start time, the arrow and the end time |
| SrtFormat.TimingLineStep | SubtitleParser/srtparser.cpp:95-103 | the timing line sets `timeLine`, `start` and `end` |
| SrtFormat.TextLinesSteps | SubtitleParser/srtparser.cpp:104-115 | text lines are collected into `completeLine`, with a newline between them |
| SrtFormat.BlockSteps | SubtitleParser/srtparser.cpp:80-122 | a block ended by its blank line appends its item and leaves the state ready for the next block |
| SrtFormat.BlocksSteps | SubtitleParser/srtparser.cpp:80-122 | the blocks of a file append one item each, in order |
| SrtFormat.ReadTerminated | SubtitleParser/srtparser.cpp:80 | a file of complete lines is read as those lines, with no end-of-file flag |
| SrtFormat.FileStart | SubtitleParser/srtparser.cpp:30-45 | a well-formed file starts with a digit and is at least three characters long, so no character is lost to the byte-order mark check |
| SrtFormat.ParseSrtFile | SubtitleParser/srtparser.cpp:49-152 | a file of well-formed blocks, each ended by a blank line, parses to exactly the blocks' items, with or without a byte-order mark |
| SrtFormat.ParseUnterminated | SubtitleParser/srtparser.cpp:124-127 | a last block without its blank line and final newline is still appended, once |
| SrtFormat.UnterminatedLines | SubtitleParser/srtparser.cpp:80-127 | complete lines followed by lines without a final newline are read with the end-of-file flag on the last line only |
| SrtFormat.EndOfFileBlock | SubtitleParser/srtparser.cpp:80-127 | a block whose last line ends the file appends its item |
| SrtFormat.EndOfFileLast | SubtitleParser/srtparser.cpp:124-127 | when the last line leaves `turn` at 2 or more, the end-of-file check appends one more item |
| Numbers.NatToString | SubtitleRenderer/pgsframecreator.cpp:161 | `std::to_string` writes digits only, without leading zeros |
| Numbers.NatToStringRoundTrip | SubtitleRenderer/pgsframecreator.cpp:161 | the digits written stand for the number |
| Numbers.PadZero | subtitle-renderer/src/pgsframecreator.cpp:43-46 | `setfill('0') << setw(n)` writes digits only |
| Numbers.PadZeroValue | subtitle-renderer/src/pgsframecreator.cpp:43-46 | padding with zeros never changes the value read back |
| Numbers.PadZeroLength | subtitle-renderer/src/pgsframecreator.cpp:43-46 | a number with fewer digits than the width is padded to exactly the width |
| Numbers.Stoul | SubtitleParser/srtparser.cpp:160-165 | `std::stoul`/`stoull` gives a value that fits `unsigned long`, or throws |
| Numbers.ScanInteger | SubtitleParser/srtparser.cpp:160-165 | the conversion reads a number only from a text that holds a digit |
| Numbers.Stoi | SubtitleParser/styledsrtparser.cpp:108-115 | `std::stoi` gives a value that fits `int`, or throws |
| Numbers.ScanDigits | SubtitleParser/srtparser.cpp:160-165 | a non-empty run of digits is read whole |
| Numbers.StoulOfDecimal | SubtitleParser/srtparser.cpp:160-165 | `std::stoul` reads back what `std::to_string` wrote |
| Numbers.StoiOfDecimal | SubtitleParser/styledsrtparser.cpp:108-115 | `std::stoi` reads back what `std::to_string` wrote, for values of `int` |
| Numbers.NoDigitNoNumber | SubtitleParser/srtparser.cpp:160-165 | a text without a digit is rejected by every conversion |
| StyledHints.DefaultsFit | subtitle-parser/src/styledsrtparser.cpp:14-50 | both generations' default tables hold the direction, alignment and margin keys, no empty value and no `margin-overwrite` |
| StyledHints.LegacyGood | SubtitleParser/styledsrtparser.cpp:17-45 | the legacy defaults are good hints with the keys the clean-up reads |
| StyledHints.CurrentGood | subtitle-parser/src/styledsrtparser.cpp:14-50 | the current defaults are good hints with the keys the clean-up reads |
| StyledHints.ParseHint | subtitle-parser/src/styledsrtparser.cpp:52-73 | `parse_hint` gives the empty pair for a line without '='; a pair it gives has a known key without '=' and rebuilds the line as `key=value` |
| StyledHints.ParseHintOf | subtitle-parser/src/styledsrtparser.cpp:52-73 | a known key written as `key=value` is read back as that pair |
| StyledHints.Accepted | subtitle-parser/src/styledsrtparser.cpp:84-90 | a line contributes a hint only when it starts with "# " and its pair has a known, non-empty key and a non-empty value |
| StyledHints.AcceptedOf | subtitle-parser/src/styledsrtparser.cpp:84-90 | a comment line `# key=value` with a known key and a value sets that key |
| StyledHints.Absorb | subtitle-parser/src/styledsrtparser.cpp:82-105 | the kept lines are no hint lines; no key is lost, and every key keeps its old value or gets a non-empty value for a known key |
| StyledHints.AbsorbPlain | subtitle-parser/src/styledsrtparser.cpp:82-105 | text without hint lines passes through unchanged and sets nothing |
| StyledHints.LastHintWins | subtitle-parser/src/styledsrtparser.cpp:92-98 | the last line that sets a key decides its value, since a later hint overwrites an earlier one |
| StyledHints.Untouched | subtitle-parser/src/styledsrtparser.cpp:82-105 | a key no line sets keeps its value, and an absent key stays absent |
| StyledHints.AbsorbGood | subtitle-parser/src/styledsrtparser.cpp:82-105 | absorbing into good hints gives good hints |
| StyledHints.ExtractHintsPlain | subtitle-parser/src/styledsrtparser.cpp:75-109 | a text without hint lines is returned as it was, without a final newline, and the hints are unchanged |
| StyledHints.HintLineFirst | subtitle-parser/src/styledsrtparser.cpp:75-109 | a hint line in front of a text sets its key and leaves the text as it was without the line |
| StyledHints.AbsorbAfterHint | subtitle-parser/src/styledsrtparser.cpp:82-105 | an accepted hint line followed by plain lines sets its key and keeps the plain lines |
| StyledHints.CleanText | subtitle-parser/src/styledsrtparser.cpp:108 | `substr(0, length() - 1)` drops the final newline of the kept lines; on an empty string the count wraps to `npos` and nothing is lost |
| StyledHints.ExtractHintsInto | subtitle-parser/src/styledsrtparser.cpp:75-109 | the `extract_hints` loop computes the reference clean text and hints |
| StyledHints.ExtractHints | subtitle-parser/src/styledsrtparser.cpp:75-109 | no hint given is lost; every hint comes from the ones given or is a known key set from the text to a non-empty value |
| StyledHints.AbsorbLine | subtitle-parser/src/styledsrtparser.cpp:82-105 | one pass of the loop keeps `cleanLines` and the map equal to the reference for the lines read so far |
| StyledHints.Overwrite | subtitle-parser/src/styledsrtparser.cpp:149-173 | `margin-overwrite` is always removed; it replaces `margin-bottom` for horizontal text and `margin-side` for vertical text; other margins and keys keep their values; vertical centred text becomes right-aligned |
| StyledHints.ApplyOverwrite | subtitle-parser/src/styledsrtparser.cpp:149-173 | the in-place statements on the item's map compute `Overwrite` |
| StyledHints.OverwriteComplete | subtitle-parser/src/styledsrtparser.cpp:149-173 | the clean-up turns good hints into complete ones |
| StyledHints.StyleItem | subtitle-parser/src/styledsrtparser.cpp:143-177 | a styled item has complete hints, the clean text of its own, and the number and times of the unstyled item |
| StyledHints.Globals | subtitle-parser/src/styledsrtparser.cpp:124-128 | the defaults with the first subtitle's hints merged in are good hints |
| StyledHints.Helper | subtitle-parser/src/styledsrtparser.cpp:111-180 | no subtitles is an error; otherwise one styled item per subtitle after the first, each with complete hints, and the error flag unchanged |
| StyledHints.OwnHintWins | subtitle-parser/src/styledsrtparser.cpp:143-177 | an item's own last hint for a key decides the key |
| StyledHints.GlobalHintApplies | subtitle-parser/src/styledsrtparser.cpp:124-177 | without a hint of its own, an item takes the global hint |
| StyledHints.DefaultApplies | subtitle-parser/src/styledsrtparser.cpp:124-177 | without any hint for a default key, an item keeps the default |
| StyledHints.PropertyValue | subtitle-parser/src/styledsrtparser.cpp:315-329 | `get_property_value` gives the stored value, or the empty string for an empty or absent key |
| StyledHints.PropertyStringRoundTrip | SubtitleParser/styledsrtparser.hpp:104-129 | every property has its own key, so the key gives the property back |
| StyledHints.PropertyStringDistinct | SubtitleParser/styledsrtparser.hpp:104-129 | no two properties share a key |
| StyledHints.PropertyStringKnown | subtitle-parser/src/styledsrtparser.cpp:14-73 | every property of a generation is a key `parse_hint` accepts, and has a default unless it is `margin-overwrite` |
| StyledHints.Convert | subtitle-parser/src/styledsrtparser.cpp:184-301 | a successful conversion fits the getter's result type |
| StyledHints.Number | subtitle-parser/src/styledsrtparser.cpp:184-301 | a numeric getter gives a value of its result type |
| StyledHints.NumberOfMissing | subtitle-parser/src/styledsrtparser.cpp:184-301 | a missing property reads as the getter's fallback |
| StyledHints.NumberOfDecimal | subtitle-parser/src/styledsrtparser.cpp:184-301 | a property written in decimal reads as its value, truncated to 32 bits by the `unsigned` getters |
| StyledHints.ConvertOfDecimal | subtitle-parser/src/styledsrtparser.cpp:184-301 | each conversion reads a decimal text in its range as its value |
| StyledHints.FallbackIsDefault | SubtitleParser/styledsrtparser.cpp:108-187 | each getter's fallback is its key's default value, so an item without hints reads the same either way |
| StyledHints.LegacyFallback | SubtitleParser/styledsrtparser.cpp:108-187 | the legacy getters' fallbacks are the legacy defaults |
| StyledHints.CurrentFallback | subtitle-parser/src/styledsrtparser.cpp:184-308 | the current getters' fallbacks are the current defaults |
| StyledHints.FallbackBound | subtitle-parser/src/styledsrtparser.cpp:184-308 | every fallback is a small non-negative number |
| StyledHints.Getter | subtitle-parser/src/styledsrtparser.cpp:184-308 | each numeric getter falls back to a value between 0 and 1920 |
| StyledHints.NumberOfFallbackText | subtitle-parser/src/styledsrtparser.cpp:184-308 | a property holding its fallback's decimal text reads as the fallback |
| StyledHints.LegacyValueDecimal | SubtitleParser/styledsrtparser.cpp:17-41 | each legacy numeric default is the decimal text of its getter's fallback |
| StyledHints.CurrentValueDecimal | subtitle-parser/src/styledsrtparser.cpp:14-46 | each current numeric default is the decimal text of its getter's fallback |
| StyledHints.CompleteKnown | subtitle-parser/src/styledsrtparser.cpp:315-329 | complete hints report a value for a known key exactly when it has a default |
| StyledHints.CompleteUnknown | subtitle-parser/src/styledsrtparser.cpp:315-329 | complete hints report nothing for an unknown key |
| StyledHints.ParsedProperties | subtitle-parser/src/styledsrtparser.cpp:111-180 | every property of a produced item's generation has a value except `margin-overwrite`; the legacy generation reports nothing for the current generation's extra keys; vertical text is never centred |
| StyledHints.CompleteProperties | subtitle-parser/src/styledsrtparser.cpp:149-173 | the same for any complete hints |
| StyledHints.KnownPropertyValue | subtitle-parser/src/styledsrtparser.cpp:315-329 | a property of the generation has a value unless it is `margin-overwrite` |
| StyledHints.VerticalNotCentred | subtitle-parser/src/styledsrtparser.cpp:169-173 | complete hints never centre vertical text |
| StyledHints.LegacyLacks | SubtitleParser/styledsrtparser.cpp:17-45 | the five keys the current generation adds are unknown to the legacy one |
| StyledHints.StyledSubtitleItem.FromItem | SubtitleParser/styledsrtparser.hpp:43-49 | construction from an unstyled item copies text, number and times; the time strings stay empty and there are no hints |
| StyledHints.MakeStyled | SubtitleParser/styledsrtparser.hpp:51-57 | the four-argument constructor builds the item `SubtitleItem`'s constructor builds from the same arguments, with empty time strings and no hints, and throws exactly when that one throws, with the `stoull` exception |
| StyledHints.StyledSubtitleItem.constructor | SubtitleParser/styledsrtparser.hpp:51-57 | when both times convert, the object holds the item `MakeStyled` gives: the text and number, the times read with `timeMSec`, no time strings and no hints |
| StyledHints.StyledSubtitleItem.SetText | subtitle-parser/include/srtparser/srtparser.hpp:94-97 | only the text changes |
| StyledHints.StyledSubtitleItem.SetStyleHints | SubtitleParser/styledsrtparser.hpp:62-70 | the hints are replaced and `styleHints` returns them |
| StyledHints.StyleOne | subtitle-parser/src/styledsrtparser.cpp:143-177 | the loop body with the item objects computes `StyleItem` |
| StyledHints.ParseHelper | subtitle-parser/src/styledsrtparser.cpp:111-180 | `parse_helper` with the item objects computes `Helper` |
| StyledHints.LegacyParseStyled | SubtitleParser/styledsrtparser.cpp:210-275 | an empty or missing file gives nothing; otherwise one item per subtitle after the first |
| StyledHints.ParseStyled | subtitle-parser/src/styledsrtparser.cpp:331-341 | the error flag is set exactly when the parse failed or found no subtitle; the exception is passed through; one item per subtitle after the first |
| StyledHints.WithExternalHints | subtitle-parser/src/styledsrtparser.cpp:343-365 | with an error pointer, a failed parse of the file or of the hint data gives nothing; without one (the default `nullptr`) the parse goes on and no flag is set; the hint data's items go in front of the file's items |
| StyledHints.FailedHintsIgnoredWithoutPointer | subtitle-parser/src/styledsrtparser.cpp:343-365 | without an error pointer, hint data that failed to parse is ignored silently: the file's first item gives the globals and is dropped |
| StyledHints.ExternalHintsAreGlobal | subtitle-parser/src/styledsrtparser.cpp:343-365 | a single item of hint data gives the globals, and every item of the file is styled, its first one included |
| StyledHints.NoExternalHints | subtitle-parser/src/styledsrtparser.cpp:343-365 | empty hint data changes nothing |
| Furigana.Scan | subtitle-renderer/src/pngrenderer.cpp:57 | the lazy group ends at the first bar or closing brace, or the end, never before where it starts |
| Furigana.ScanStops | subtitle-renderer/src/pngrenderer.cpp:57 | the scan stops at the first wanted character or line break, which `.` does not match |
| Furigana.MatchAt | subtitle-renderer/src/pngrenderer.cpp:57 | a match at i has its brace at i, then a bar, then a closing brace, in that order |
| Furigana.MatchAtSound | subtitle-renderer/src/pngrenderer.cpp:57 | a match found is a lazy match of `\{(.*?)\|(.*?)\}`: the first bar after the brace, then the first closing brace, all on one line |
| Furigana.MatchAtComplete | subtitle-renderer/src/pngrenderer.cpp:57 | whenever the pattern can match at i, the match is found |
| Furigana.TokensLexed | subtitle-renderer/src/pngrenderer.cpp:59-66 | the line cut into matches and the characters between them lays each match where it starts, with a kanji shorter than the match and holding no bar |
| Furigana.PlaceholderBars | subtitle-renderer/src/pngrenderer.cpp:59 | `split(...).join("\|")` leaves at least one bar per match |
| Furigana.ReplaceFirstBars | subtitle-renderer/src/pngrenderer.cpp:68-76 | an edit removes one bar, and may bring others in with the kanji |
| Furigana.Pairs | subtitle-renderer/src/pngrenderer.cpp:93-98 | one pair is recorded per match |
| Furigana.LineWithoutFurigana | subtitle-renderer/src/pngrenderer.cpp:54-106 | `getLineWithoutFurigana` returns the placeholder line with each match's bar edited in turn, and records one pair per match |
| Furigana.Advance | subtitle-renderer/src/pngrenderer.cpp:64-103 | one turn of the loop replaces the match's bar by its kanji and records its pair, and enough bars are left for the later matches |
| Furigana.EditStep | subtitle-renderer/src/pngrenderer.cpp:68-76 | the n-th edit leaves the rest of the edits leading to the same line |
| Furigana.ReplaceAtFirstBar | subtitle-renderer/src/pngrenderer.cpp:68-76 | `remove` then `insert` at `indexOf('\|')` replaces the first bar by the kanji |
| Furigana.StartOffset | subtitle-renderer/src/pngrenderer.cpp:82-91 | the loop over the earlier matches sums what each took out of the line |
| Furigana.OffsetPrefix | subtitle-renderer/src/pngrenderer.cpp:82-91 | the offset before a match depends only on the matches before it |
| Furigana.ReplaceBarsPrefix | subtitle-renderer/src/pngrenderer.cpp:64-103 | a bar-free prefix is left alone by all the edits |
| Furigana.StripWhenStrayFree | subtitle-renderer/src/pngrenderer.cpp:54-106 | without stray bars, the edits give the line with every match replaced by its kanji |
| Furigana.StripLineWhenStrayFree | subtitle-renderer/src/pngrenderer.cpp:54-106 | the same for a whole line: without stray bars, the line shown is the intended one |
| Furigana.StrayBarMisplaces | subtitle-renderer/src/pngrenderer.cpp:68-76 | a stray bar before a match takes the kanji instead of the match's placeholder: "\|{a\|b}" is shown as "a\|" instead of "\|a" |
| Furigana.KanjiLocated | subtitle-renderer/src/pngrenderer.cpp:82-98 | every match's kanji sits in the stripped line where its recorded start says |
| Furigana.PairsLocateKanji | subtitle-renderer/src/pngrenderer.cpp:82-98 | every recorded pair's kanji sits in the stripped line at its position, with its length, whatever the line holds |
| Furigana.PairLocates | subtitle-renderer/src/pngrenderer.cpp:93-98 | the pair of a located match records where its kanji sits |
| Furigana.MatchesExist | subtitle-renderer/src/pngrenderer.cpp:63-66 | there is a match exactly when a brace, a bar and a closing brace follow each other on one line |
| Furigana.HasLineFurigana | subtitle-renderer/src/pngrenderer.cpp:108-113 | `hasLineFurigana` is true exactly when the line holds a match |
| Furigana.SplitIntoCharacters | subtitle-renderer/src/pngrenderer.cpp:131-139 | one string per character, which concatenate back to the text |
| RenderOptions.TextAlignment | subtitle-renderer/src/pngrenderer.cpp:141-155 | only left-justified text is aligned left; all else is centred |
| RenderOptions.PainterAlignment | subtitle-renderer/src/pngrenderer.cpp:431-437 | vertical text is always centred; horizontal text is aligned left exactly when left-justified |
| RenderOptions.FuriganaDistanceValue | subtitle-renderer/src/pngrenderer.cpp:157-188 | -1 exactly for `unchanged`, 15 exactly for `none`, 25 exactly for `far`, 20 otherwise |
| RenderOptions.FontStyleFlags | subtitle-renderer/src/pngrenderer.cpp:115-129 | italic exactly for `italic` and `bold-italic`, bold exactly for `bold` and `bold-italic` |
| RenderOptions.Position.AdjustForCrop | subtitle-renderer/src/pngrenderer.cpp:740-764 | each coordinate moves back by the rows or columns cropped, and becomes 0 when it would pass the edge |
| CropDetection.ColIsTransposedRow | subtitle-renderer/src/helpers.cpp:69-128 | a column of the image is a row of its transposition |
| CropDetection.RowHasInk | subtitle-renderer/src/helpers.cpp:21-28 | the inner loop sets `quit` exactly when a quantum of the row is not zero |
| CropDetection.ColHasInk | subtitle-renderer/src/helpers.cpp:83-90 | the inner loop sets `quit` exactly when a quantum of the column is not zero |
| CropDetection.CropDetectionRow | subtitle-renderer/src/helpers.cpp:7-67 | `cropDetectionRow` counts the empty rows from the top, or from row `height` down to row 1 from the bottom, up to the first row with ink |
| CropDetection.CropDetectionCol | subtitle-renderer/src/helpers.cpp:69-129 | `cropDetectionCol` counts the empty columns the same way from the left or the right |
| CropDetection.EmptyRowsUnique | subtitle-renderer/src/helpers.cpp:7-67 | the count is determined by the image |
| CropDetection.BlankImageCountsHeight | subtitle-renderer/src/helpers.cpp:13-36 | an image of blank rows is blank through its full height from the top |
| CropDetection.CropRowsFit | subtitle-renderer/src/pngrenderer.cpp:732-738 | when some row holds ink, the rows cut from the top and the bottom do not overlap, so `height - (top + bottom)` does not wrap |
| CropDetection.BlankImageOvershoots | subtitle-renderer/src/pngrenderer.cpp:732-738 | when every row is blank and the row read past the bottom is blank too, both counts are the full height, so their sum passes it and the unsigned difference would wrap |
| CropDetection.ColsAreTransposedRows | subtitle-renderer/src/helpers.cpp:69-129 | the column counts are the row counts of the transposed image |
| CropDetection.CropColsFit | subtitle-renderer/src/pngrenderer.cpp:732-738 | when some column holds ink, the columns cut from the left and the right fit the width |
| FrameCommand.SkipSpace | subtitle-renderer/src/pgsframecreator.cpp:51-56 | the index reached is the first non-space from where it starts, with only spaces before it |
| FrameCommand.SkipSpaceBack | subtitle-renderer/src/pgsframecreator.cpp:59-64 | the end reached is just after the last non-space, with only spaces after it |
| FrameCommand.SkipSpaceSpec | subtitle-renderer/src/pgsframecreator.cpp:51-56 | everything skipped is white space and what it stops at is not |
| FrameCommand.SkipSpaceBackSpec | subtitle-renderer/src/pgsframecreator.cpp:59-64 | everything dropped is white space and the last character kept is not |
| FrameCommand.LTrim | subtitle-renderer/src/pgsframecreator.cpp:51-56 | `ltrim` erases the leading white space and nothing else |
| FrameCommand.RTrim | subtitle-renderer/src/pgsframecreator.cpp:59-64 | `rtrim` erases the trailing white space and nothing else |
| FrameCommand.Trim | subtitle-renderer/src/pgsframecreator.cpp:67-71 | `trim` is `rtrim` after `ltrim` |
| FrameCommand.TrimmedShape | subtitle-renderer/src/pgsframecreator.cpp:67-71 | the result is the text between a white prefix and a white suffix, starts and ends with a non-space, and is empty exactly for blank text |
| FrameCommand.TrimmedParts | subtitle-renderer/src/pgsframecreator.cpp:51-71 | the text is the white prefix, the trimmed text and the white suffix, in that order |
| FrameCommand.TrimmedFixed | subtitle-renderer/src/pgsframecreator.cpp:67-71 | a text with no white space at either end is left as it is |
| FrameCommand.TrimIdempotent | subtitle-renderer/src/pgsframecreator.cpp:67-71 | trimming twice is trimming once |
| FrameCommand.KeptArgs | subtitle-renderer/src/pgsframecreator.cpp:419-428 | every piece kept is non-empty, trimmed and holds no space |
| FrameCommand.KeptAreArguments | subtitle-renderer/src/pgsframecreator.cpp:419-428 | every piece kept is an argument: non-empty, with no space and no white space at its ends |
| FrameCommand.ArgumentsAreArguments | subtitle-renderer/src/pgsframecreator.cpp:419-428 | the arguments of any command line are arguments |
| FrameCommand.ArgumentsNonEmpty | subtitle-renderer/src/pgsframecreator.cpp:430-432 | a command that `trim` leaves non-empty yields at least one argument, so `_args_template.at(0)` never throws |
| FrameCommand.KeptArgumentsFixed | subtitle-renderer/src/pgsframecreator.cpp:419-428 | arguments joined with single spaces split back into themselves |
| FrameCommand.SplitArguments | subtitle-renderer/src/pgsframecreator.cpp:419-428 | the `getline` loop yields the command's arguments: each piece between spaces trimmed, the empty ones dropped |
| FrameCommand.Erase | subtitle-renderer/src/pgsframecreator.cpp:458-461 | `erase(pos, count)` removes at most `count` characters from `pos` and keeps the rest in order |
| FrameCommand.FrameCreator.constructor | subtitle-renderer/src/pgsframecreator.cpp:75-77 | a new frame creator has no command, an empty template and the dangerous flag clear |
| FrameCommand.FrameCreator.SetCommand | subtitle-renderer/src/pgsframecreator.cpp:398-445 | an empty command keeps the old template; a blank one clears it; a dangerous program (rm, mv, del, rmdir, find or %f) clears it and sets the flag; otherwise the template is the trimmed command's arguments and the flag is clear |
| FrameCommand.FrameCreator.CommandTemplate | subtitle-renderer/src/pgsframecreator.cpp:447-463 | every argument followed by one space, with nothing erased, and the dangerous flag reported as it stands |
| FrameCommand.PlaceholderIndex | subtitle-renderer/src/pgsframecreator.cpp:310-319 | the index is of a "%f" argument with no "%f" before it, or the number of arguments when there is none |
| FrameCommand.SubstitutePlaceholder | subtitle-renderer/src/pgsframecreator.cpp:310-319 | the search stops at the first "%f" and replaces only it with the image's path |
| FrameCommand.FrameCreator.ImageCommand | subtitle-renderer/src/pgsframecreator.cpp:296-326 | no command runs without a command, with an empty template or with no "%f" argument; otherwise the template with its first "%f" replaced by the image's path |
| FrameCommand.ProgramNeverReplaced | subtitle-renderer/src/pgsframecreator.cpp:398-445 | with the settings `setCommand` leaves, the program itself is never "%f", so only a later argument is replaced |
| FrameCommand.IntendedTemplateRoundTrip | subtitle-renderer/src/pgsframecreator.cpp:447-463 | the template meant (arguments joined by single spaces) is a command `setCommand` takes back unchanged |
| FrameCommand.TemplateTrailingSpace | subtitle-renderer/src/pgsframecreator.cpp:458-461 | the template as written ends with a space whenever there is an argument, one space more than the intended one |
| FramePlacement.Wrap64 | subtitle-renderer/src/pgsframecreator.cpp:171-237 | an unsigned 64-bit value: in range, and congruent to the value |
| FramePlacement.Wrap32 | SubtitleRenderer/pgsframecreator.cpp:106-158 | an unsigned 32-bit value: in range, and congruent to the value |
| FramePlacement.WrapAdd64 | subtitle-renderer/src/pgsframecreator.cpp:171-237 | adding to a wrapped value wraps the same as adding first |
| FramePlacement.WrapAdd32 | SubtitleRenderer/pgsframecreator.cpp:106-158 | the same at 32 bits |
| FramePlacement.SmallWraps | SubtitleRenderer/pgsframecreator.cpp:106-158 | a value in the 32-bit range is unchanged by the wrap |
| FramePlacement.SmallWraps64 | subtitle-renderer/src/pgsframecreator.cpp:171-237 | a value in the 64-bit range is unchanged by the wrap |
| FramePlacement.PlaceNewer | subtitle-renderer/src/pgsframecreator.cpp:171-237 | the newer placement case by case: a left-aligned image starts at the side margin and vertical text at the top margin; vertical right is the screen width less the image width (wrapped at 32 bits, so plus 2^32 when the image is wider), less the margin, plus the image width less `pos.x`, modulo 2^64; horizontal centre is the difference of the half widths, plus 2^32 when the image's half is the larger; horizontal right is the screen width less the margin and the image width, modulo 2^64, with no 2^32 term; horizontal y is the screen height less the image height (plus 2^32 when the image is taller), less the bottom margin, plus the image height less `pos.y`, modulo 2^64; an unknown alignment puts the image at x 0 |
| FramePlacement.PlaceOlder | SubtitleRenderer/pgsframecreator.cpp:106-158 | the older placement, with its sums wrapped at 32 bits: a left-aligned image starts at the side margin, a centred one at the difference of the half widths, plus 2^32 when the image's half is the larger |
| FramePlacement.NewerPlacementAligns | subtitle-renderer/src/pgsframecreator.cpp:171-237 | a left-aligned image starts on the side margin; when the image and its margins fit on the screen, a right-aligned image ends on the side margin, a centred one sits in the middle, and the text's base line sits on the bottom margin line |
| FramePlacement.GenerationsAgree | SubtitleRenderer/pgsframecreator.cpp:106-158 | the older placement equals the newer one whenever the image fits on the screen, no sum leaves the 32-bit range and the margins are not negative |
| FramePlacement.Wrap32Diff | subtitle-renderer/src/pgsframecreator.cpp:171-237 | the difference of two 32-bit unsigned values wraps to itself, or to itself plus 2^32 when the second is larger |
| FramePlacement.NewerOvershootsLargeImage | subtitle-renderer/src/pgsframecreator.cpp:171-237 | an image taller than the screen (or, vertical and right-aligned, wider) is placed 2^32 further than the older generation places it, because the newer one wraps the size difference at 32 bits and then widens it |
| FrameTime.SignedCount | subtitle-renderer/src/pgsframecreator.cpp:32 | the unsigned 64-bit time read as a signed 64-bit count: in range, congruent modulo 2^64, and unchanged below 2^63 |
| FrameTime.Quot | subtitle-renderer/src/pgsframecreator.cpp:35-40 | `duration_cast` divides truncating toward zero: the floor quotient for a non-negative count, and a remainder of the count's sign below the divisor |
| FrameTime.DurationClock | subtitle-renderer/src/pgsframecreator.cpp:30-48 | hours, minutes, seconds and milliseconds worth the signed count together; minutes and seconds above -60 and below 60, milliseconds above -1000 and below 1000; all non-negative, with the hour the whole hours, below 2^63 ms, and all non-positive from 2^63 ms on |
| FrameTime.PadSigned | subtitle-renderer/src/pgsframecreator.cpp:43-46 | a non-negative field is zero-padded; a negative one, and only a negative one, carries a minus sign |
| FrameTime.FormatDuration | subtitle-renderer/src/pgsframecreator.cpp:30-48 | the text carries a minus sign exactly when the signed count is negative, from 2^63 ms on |
| FrameTime.DigitsUpTo | PGSEncoder/main.c:449-450 | the end of a run of digits, no further than its bound |
| FrameTime.ScanField | PGSEncoder/main.c:449-450 | one `%Nd` conversion reads at most N characters after skipping white space, and fails without a digit; its value is below 10^N and above -10^(N-1) |
| FrameTime.ScanClock | PGSEncoder/main.c:449-450 | a clock read with `%2d:%2d:%2d.%3d` has its hours, minutes and seconds above -10 and below 100, and its milliseconds above -100 and below 1000 |
| FrameTime.DigitsUpToAll | PGSEncoder/main.c:449-450 | digits stop where the bound or the first non-digit is |
| FrameTime.FieldOfDigits | PGSEncoder/main.c:449-450 | a `%Nd` conversion reads exactly N digits back when no digit follows them |
| FrameTime.ScanClockOfFields | PGSEncoder/main.c:449-450 | the format `%2d:%2d:%2d.%3d` reads a text with digit fields at its fixed places as the clock they spell |
| FrameTime.FormattedFields | subtitle-renderer/src/pgsframecreator.cpp:43-46 | the formatted time holds its zero-padded fields at fixed places, with the separators between them |
| FrameTime.DurationRoundTrip | subtitle-renderer/src/pgsframecreator.cpp:30-48 | every time the newer frame creator writes below 100 hours is read back by the muxer as the same clock, worth the original milliseconds |
| FrameTime.PgsTimestamp | SubtitleRenderer/pgsframecreator.cpp:18-22 | 90 kHz ticks, always below 2^64, and exactly `ms * 90` when that fits |
| FrameTime.TicksAgree | PGSEncoder/main.c:470-473 | below 100 hours, the older frame creator's tick equals what the muxer computes from the formatted time |
| TimingScript.ImageName | SubtitleRenderer/pgsframecreator.cpp:161 | a non-empty file name with no space and no newline |
| TimingScript.Render | SubtitleRenderer/pgsframecreator.cpp:45-175 | it fails exactly when the directory cannot be made or the file cannot be opened, and otherwise writes the whole script |
| TimingScript.AppendFrame | SubtitleRenderer/pgsframecreator.cpp:164-169 | each subtitle adds its two lines to the end of the script text |
| TimingScript.ScriptLines | SubtitleRenderer/pgsframecreator.cpp:67-167 | the script has one line for the empty first frame, then for subtitle k its image `k+1.png` at its start tick and position, and a clean at its end tick |
| TimingScript.Script | SubtitleRenderer/pgsframecreator.cpp:67-167 | the script has one line for the empty first frame and two per subtitle |
| TimingScript.ReadShownLine | SubtitleRenderer/pgsframecreator.cpp:164-167 | every line written reads back as its tick, position and name while the values fit `unsigned long` |
| TimingScript.ScriptSplits | SubtitleRenderer/pgsframecreator.cpp:45-175 | the script file splits back into its lines |
| TimingScript.ScriptReadsBack | SubtitleRenderer/pgsframecreator.cpp:45-175 | each subtitle's lines read back as its image at its start tick and position, then a clean at its end tick |
| TimingScript.ScriptHasNoNewline | SubtitleRenderer/pgsframecreator.cpp:164-167 | no line of the script contains a newline |
| Version.ShortSha | config/src/version.cpp:25 | the first eight characters of the hash, or all of it when it is shorter |
| Version.Calculate | config/src/version.cpp:8-35 | the base version, then "-channel" exactly when there is a channel, then "-" and the short hash exactly when there is git information, then "-dirty" exactly when it is also dirty |
| Version.ShapedUnique | config/src/version.cpp:8-35 | the layout leaves no freedom: two strings that have it are equal |
| Version.VersionCache.constructor | config/src/version.cpp:8 | nothing is computed yet |
| Version.VersionCache.Get | config/src/version.cpp:5-38 | the first call computes the string of that layout; every later call returns the same one |
| Version.TwoCalls | config/src/version.cpp:5-38 | two calls give the same string |

## Left out

- Decoding PNG files with libpng (PGSEncoder/main.c:524-592): the muxer's picture is given as a grid of RGBA pixels.
- The conversion of a palette colour from RGB to Y, Cr and Cb (PGSEncoder/main.c:698-700) uses floating point; it is a function parameter, and only the layout of the palette segment is modelled.
- The muxer's command-line options, its help text and its XML reader (PGSEncoder/main.c:130-452) are left out: the cues come in already parsed, as their time, image, offset and view fields.
- The fixed 67000-byte output buffer of the muxer, which can overflow before the 65535-byte check, is an unbounded sequence here.
- All file and system I/O is left out or a parameter: `getcwd`, `fopen`, `fwrite`, `ifstream`, `QFile`, `QDir`, `mkpath` and the PNG writes. The working directory, the file contents and whether a file or directory exists or opens are parameters.
- PgsPaths.GetAbsolutePath: the 512-byte buffers are not modelled, and a path that climbs above "/" (where the source reads before the buffer) gives None.
- Everything Qt, ImageMagick or lodepng does in `PNGRenderer::render` is left out: fonts, painting, blur, quantisation, PNG encoding, `drawTextBorder` and `verticalConfigurePainter`. The crop scans read the image as a grid of quanta.
- CropDetection.CropDetectionRow: the `width * 4` and `height * 4` products are not checked for overflow, and the bottom and right scans read the row or column just past the image as the image gives it, a value the model takes as input.
- Running the per-image command with reproc (subtitle-renderer/src/pgsframecreator.cpp:328-383) is process control; only the argument list it would run is modelled.
- `blurRadius` and `blurSigma` parse floating-point numbers and are not modelled; their keys and defaults are.
- The newer `srtparser.cpp` (the `parse` and `parseFromMemory` of subtitle-parser/) is not part of this model: `parseStyledWithExternalHints` takes the two parse results as inputs.
- The optional `furiganaPairs` output of `getLineWithoutFurigana` is always present in the model; passing nullptr only skips the recording.
- The regular expression engine and `QString::split`/`join` are library calls: `Furigana.Matches` and `Furigana.Placeholders` state what they produce for the one pattern the source uses.
- SrtParser.TimeMSec: a time without three `:` fields or two `,` fields indexes past the end of a `std::vector`, which is undefined behaviour; the model reports it as an error without a message.
- SrtParser.Read: a timing line that splits at spaces into fewer than three pieces (such as `00:00:01,000-->00:00:02,000`) makes `srtTime[2]` index past the end of the vector, which is undefined behaviour; the model reports it as `Undefined`, without items.
- The older frame creator's `frameNo`, and the 32-bit `unsigned` sizes it was built for, are unbounded here; its placement sums are wrapped at 32 bits explicitly.
- FrameTime.DurationRoundTrip: holds below 100 hours only; from 100 hours on the hour field has three digits and the muxer's `%2d` reads only two of them.
- PgsRle.RowRoundTrip: requires runs shorter than 16384 pixels, because a longer run overflows the 14-bit count of the PGS code (PgsRle.LongRunWrapsToEndOfLine shows what is written instead).
- TimingScript.ReadShownLine: requires the tick and the position to fit `unsigned long`, as the values the source writes always do.
- Furigana.LineWithoutFurigana: positions and lengths count characters, whereas `QString` counts UTF-16 code units; after a character outside the Basic Multilingual Plane the recorded positions are one lower per such character than the source's.
- The muxer's leftover variables after a failed `sscanf` of a cue's fields are not modelled: each cue's fields are given parsed.

## Findings

| source | as written | input that shows it | evidently intended | confidence | as-written member | corrected member |
|---|---|---|---|---|---|---|
| subtitle-renderer/src/pngrenderer.cpp:64-76 | each match's kanji replaces the first `\|` of the whole placeholder line, which may be a literal bar in the text | the line "\|{a\|b}" is shown as "a\|" | the line "\|a": each match's placeholder is replaced by its kanji | not executed | Furigana.StrayBarMisplaces | Furigana.StripLineWhenStrayFree |
| subtitle-renderer/src/pgsframecreator.cpp:458-461 | `cmd.erase(cmd.size(), cmd.size() - 2)` starts at the end and removes nothing, so the template keeps its trailing space | the arguments ["cmd", "%f"] give "cmd %f " | "cmd %f", which `setCommand` takes back unchanged | not executed | FrameCommand.TemplateTrailingSpace | FrameCommand.IntendedTemplateRoundTrip |
