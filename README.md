# gpro-rs song parser, modelled in Dafny

This project models `src/parser.rs` of gpro-rs, the parser of a terminal viewer for
ChordPro-style song sheets. A song text is read line by line:

- the line endings are normalised;
- each line is cut at `{directive}` tags;
- the directives set the title and subtitle, switch chorus and comment modes, and
  accumulate a transposition (`key`, `Capo-Bass_Guitar`);
- the rest of the line goes through `parse_chords`, which lines each `[chord]` up
  with the lyric syllable that follows it and transposes its root notes.

Each line that no directive consumes becomes one `SongLine`: an optional chord run
above an optional lyric run. `SongLine` also offers width, height, conversion to
rows, and splitting at a column. `get_name` derives a label from the title and
subtitle directives, and `Playlist::new` reads a playlist file.

Modules, one per concern of the source:

| module | file | models |
|---|---|---|
| `Text` | text.dfy | `trim`, `lines`, `parse::<i32>`, Rust's truncating `%`, `repeat` |
| `Patterns` | patterns.dfy | the four regular expressions `RE_*`, as leftmost-first scanners, and the capture groups of the tag and chord patterns |
| `Tokenizer` | tokenizer.dfy | `regex_split_keep` and `replace_all` (line-ending normalisation) |
| `Pitch` | pitch.dfy | pitch classes, `from_str`, `from_interval`, the semitone count, chord transposition |
| `SongLines` | songline.dfy | `SongLine` and `width`, `height`, `to_spans`, `split_spans`, `split_at` |
| `Aligner` | aligner.dfy | `parse_chords` |
| `Builder` | builder.dfy | `Song::new`: the directive arms as functions, the loop over the pieces of a line, the loop over the lines |
| `SongFacts` | songfacts.dfy | what `Song::new` does with each kind of line, and the shape of every song it builds |
| `SongName` | songname.dfy | `get_name` |
| `Playlists` | playlist.dfy | `Playlist::new` |

The loops of the source are methods proved against recursive specification
functions. Those are `RegexSplitKeep`, `SplitSpans`, `ParseChords`, `ParseLine`, `NewSong` and `GetNameOf`. The lemmas state what those
functions promise. `Song::from` and `Song::in_key` (src/parser.rs:153-159) are
`NewSong` with no target key and with one.

Behaviour of the code worth noting:
- A capo argument that is not an integer makes `Song::new` panic (the `unwrap` at
  src/parser.rs:204). It does not skip the directive.
- The argument of `c` is kept untrimmed (src/parser.rs:207), unlike the other
  directives.
- Every root-note match parses, so no chord root is ever left unmodified.
  `Song::new` panics instead when the transposition is below -12 and not a
  multiple of 12 (src/parser.rs:298).

## Model

| member | source | states |
|---|---|---|
| Text.Trim | src/parser.rs:179 | the trimmed text neither starts nor ends with whitespace |
| Text.TrimIsInfix | src/parser.rs:179 | what `trim` leaves is an infix of its input with only whitespace cut off on either side |
| Text.Lines | src/parser.rs:172 | no line holds a line feed; the text has no lines exactly when it is empty |
| Text.LinesTerminated | src/parser.rs:172 | on text without carriage returns, the lines, each followed by a line feed, give the text back (plus a final line feed if it had none) |
| Text.ParseI32 | src/parser.rs:204 | a value read fits in an `i32`, and the text starts with a sign or a digit |
| Text.DigitsValueDefined | src/parser.rs:204 | a string of digits has a value exactly when every character is a digit |
| Text.ParseShowRoundTrip | src/parser.rs:204 | parsing the decimal rendering of any `i32` gives it back |
| Text.RustRem12 | src/parser.rs:298 | `a % 12` truncates: the remainder has the dividend's sign, is less than 12 in size, and equals the Euclidean one for non-negative or divisible `a`, else that minus 12 |
| Text.Repeat | src/parser.rs:284 | `repeat(n)` of one character is `n` copies of it |
| Patterns.MatchEnd | src/parser.rs:11-14 | no pattern matches the empty string; a match ends inside the text |
| Patterns.FindFrom | src/parser.rs:319 | the match found starts at or after the given position and is a match of the pattern there |
| Patterns.FindFromLeftmost | src/parser.rs:319 | no match starts before the one found (leftmost-first) |
| Patterns.SplitTagBody | src/parser.rs:12 | the lazy name group: with an argument, the body is name, `:`, argument, the argument is non-empty and the name has no `:` after its first character; without one, the body is the name and has no `:` that still has a character after it |
| Patterns.MatchInSlice | src/parser.rs:176 | a match found in a piece of a line is a match of the line at the same place |
| Patterns.MatchIsolated | src/parser.rs:175-177 | a match, re-matched on its own, is matched whole with the same capture groups |
| Patterns.TagRoundTrip | src/parser.rs:12 | writing a readable tag as `{name}` or `{name:arg}` and capturing it gives the tag back, the match covering the text |
| Tokenizer.Split | src/parser.rs:316-330 | the pieces `regex_split_keep` returns, as a recursive definition; SplitConcat, SplitWellCut and SplitCapturesMatches state what they are |
| Tokenizer.ReplaceAll | src/parser.rs:162 | `Regex::replace_all` with a replacement function, as a recursive definition; the normalisation and transposition lemmas state its effect |
| Tokenizer.NormalizeNewlines | src/parser.rs:162 | every `\n\r`, `\r\n`, lone `\r` and `\n` becomes one line feed; NormalizedHasNoCR, NormalizeKeepsCRFree and NormalizeIdempotent state its contract |
| Tokenizer.RegexSplitKeep | src/parser.rs:316-330 | the loop over `match_indices` returns the recursive split `Split` |
| Tokenizer.SplitConcat | src/parser.rs:316-330 | concatenating the pieces reproduces the input exactly |
| Tokenizer.SplitWellCut | src/parser.rs:316-330 | no piece is empty; re-matching a piece on its own finds nothing in unmatched text and the whole piece in a match |
| Tokenizer.SplitCapturesMatches | src/parser.rs:316-330 | the pieces in which `captures` succeeds are exactly the leftmost non-overlapping matches, in order |
| Tokenizer.Matches | src/parser.rs:319 | the matches lie in the text, in order, without overlap |
| Tokenizer.SplitNoMatch | src/parser.rs:326-328 | text without a match is one piece, or none when empty |
| Tokenizer.SplitWholeMatch | src/parser.rs:319-325 | text that is one match is one piece |
| Tokenizer.NormalizedHasNoCR | src/parser.rs:11 | after normalisation the text holds no carriage return |
| Tokenizer.NormalizeKeepsCRFree | src/parser.rs:162 | text without carriage returns is left as it is |
| Tokenizer.NormalizeIdempotent | src/parser.rs:162 | normalising twice is normalising once |
| Pitch.FromStr | src/parser.rs:297 | a pitch is read exactly from a note letter optionally followed by `b` or `#` |
| Pitch.NameRoundTrip | src/parser.rs:300 | the printed name of every pitch class reads back as that pitch class |
| Pitch.RootMatchParses | src/parser.rs:297 | every root-note match parses, so that `unwrap` never fails |
| Pitch.ShiftIdentity | src/parser.rs:296-298 | shifting by zero semitones is the identity |
| Pitch.ShiftCompose | src/parser.rs:296-298 | shifting by `a` then `b` is shifting by `a + b` |
| Pitch.ValidShiftMeans | src/parser.rs:298 | `(t + 12) % 12` is a valid interval exactly when `t >= -12` or `t` is a multiple of 12, and then it moves pitches by `t` modulo 12 |
| Pitch.TransposeChord | src/parser.rs:295-301 | the chord text with every root-note match replaced by its transposed name; TransposeShiftsEveryRoot, TransposeSlashChord, TransposeRootSuffix, NoRootUnchanged and TransposeTwice state its contract |
| Pitch.RootNameShifts | src/parser.rs:295-301 | the replacement of a root is the name of its pitch shifted by `t` |
| Pitch.NoRootUnchanged | src/parser.rs:295 | a chord without a note letter is not changed |
| Pitch.TransposeRootSuffix | src/parser.rs:295-301 | a chord made of a root and a suffix without note letters becomes the shifted root's name and the same suffix |
| Pitch.TransposeShiftsEveryRoot | src/parser.rs:295-301 | every root-note match in a chord, a slash chord's bass note included, is replaced by the name of its pitch moved by the transposition, and the text between matches is kept |
| Pitch.SlashMatches | src/parser.rs:295-296 | in a slash chord the root-note pattern matches exactly the root and the bass note, in that order |
| Pitch.TransposeSlashChord | src/parser.rs:295-301 | a slash chord `root + mid + bass + suffix` becomes the shifted root's name, `mid`, the shifted bass note's name and `suffix` |
| Pitch.TransposeTwice | src/parser.rs:295-301 | transposing such a chord by `a` and then by `b` is transposing it by `a + b` |
| SongLines.LineWidth | src/parser.rs:44-51 | the wider of the two runs, a missing run counting 0; WidthIsWidestRow states it |
| SongLines.Height | src/parser.rs:53-60 | the number of runs present; RowsAreRuns states it |
| SongLines.ToSpans | src/parser.rs:134-141 | the chord run, then the lyric run, each if present; RowsAreRuns states it |
| SongLines.WidthIsContentLength | src/parser.rs:44-50 | a run's width is the number of characters of its text |
| SongLines.RowsAreRuns | src/parser.rs:134-141 | `to_spans` gives exactly `height()` rows (at most 2), chords first and lyrics last, and just the runs present |
| SongLines.WidthIsWidestRow | src/parser.rs:44-51 | `width()` is the largest width among the rows, 0 when there is none |
| SongLines.Halves | src/parser.rs:93-131 | the left and right halves of a run cut at a display column; HalvesSpec, CutShape, CutAllRight and CutInsideKeepsText state its contract |
| SongLines.SplitSpans | src/parser.rs:106-131 | the loop with `left`, `right` and `spanswidth` gives the halves `Halves` |
| SongLines.HalvesSpec | src/parser.rs:93-131 | for `index >= width` the run comes back whole; otherwise two halves, the left exactly `index` wide, whose texts together are the run's text, with the cut between two spans or inside one |
| SongLines.CutShape | src/parser.rs:110-131 | the cut lies between two spans or inside one span, which becomes two spans of its style; every other span is copied unchanged to its side |
| SongLines.CutAllRight | src/parser.rs:128-130 | once the placed width has reached `index`, every remaining span goes right unchanged |
| SongLines.CutInsideKeepsText | src/parser.rs:112-124 | a cut inside a span leaves a left half exactly `index` wide and loses no text |
| SongLines.ZipLines | src/parser.rs:75-79 | the zip has as many lines as the shorter list of halves |
| SongLines.SplitAt | src/parser.rs:62-91 | `split_at` as written; SplitAtRefuses states its error cases, SplitAtLyricsBecomeChords, SplitAtLosesTail and SplitAtLosesChordTail the two defects of the Findings |
| SongLines.SplitAtRefuses | src/parser.rs:62-69 | `split_at` fails exactly when `index >= width()`, with that error; a line with neither run is always refused |
| SongLines.SplitAtLyricsBecomeChords | src/parser.rs:85-87 | as written, a lyrics-only line splits into two chord-only lines |
| SongLines.SplitAtLosesTail | src/parser.rs:72-79 | as written, when `index` is inside the lyrics but not inside the chords, one line comes back and the lyrics' right half is lost |
| SongLines.SplitAtLosesChordTail | src/parser.rs:72-79 | as written, when `index` is inside the chords but not inside the lyrics, one line comes back and the chords' right half is lost |
| SongLines.SplitAtLosesTailExample | src/parser.rs:72-79 | chords "G " over lyrics "Hello", split at 3, give one line with lyrics "Hel" |
| SongLines.SplitAtFixedSpec | src/parser.rs:62-91 | the corrected split fails exactly when `index >= width()`, and otherwise gives two lines that keep each run present (and only those), lose no text, and whose first line is `index` wide |
| Aligner.Filler | src/parser.rs:280-283 | the lyric filler is a space exactly when the lyrics of this call are empty or end in a space or one of `,.:;`, else a hyphen |
| Aligner.Pad | src/parser.rs:275-291 | padding makes both sides (with the widths already on the line) equally wide, extends only the shorter side, chords with spaces and lyrics with the filler |
| Aligner.ParseChords | src/parser.rs:260-314 | the loop over the pieces leaves `chords` and `spans` as `ChordRuns` says |
| Aligner.AlignRows | src/parser.rs:272-307 | the chord row and the lyric row after each piece of the line, in order; AlignGrows, ChordPlacement, ChordWritten, LyricsWritten and ChordAboveItsLyrics state its contract |
| Aligner.ChordRuns | src/parser.rs:308-313 | the runs after `parse_chords`, each gaining its row as one span when the row is not empty; ChordSpanIffChord, NoChordsLyricRow and LineWithoutChords state its contract |
| Aligner.AlignGrows | src/parser.rs:272-307 | the two rows only grow at their ends |
| Aligner.ChordPlacement | src/parser.rs:275-303 | before each chord both sides are padded to the same width; then the transposed chord and a space follow on the chord side, and the lyrics after it follow on the lyric side |
| Aligner.ChordWritten | src/parser.rs:293-303 | the chord run holds each transposed chord and its space from the chord's column |
| Aligner.LyricsWritten | src/parser.rs:275-305 | the lyric run holds the lyrics after a chord from that same column, at or past the lyrics already on the line |
| Aligner.ChordAboveItsLyrics | src/parser.rs:269-313 | every chord of a line stands directly above the lyrics that follow it, past the spans already on the line |
| Aligner.ChordRowEmpty | src/parser.rs:302-303 | the chord row is empty exactly when no piece is a chord; even `[]` leaves its space |
| Aligner.NoChordsLyricRow | src/parser.rs:305 | without chords the lyric row is the pieces put back together |
| Aligner.LineWithoutChords | src/parser.rs:305-313 | a line without chords adds no chord span and adds itself as one plain lyric span, or nothing when empty |
| Aligner.ChordSpanIffChord | src/parser.rs:308-310 | a chord span is pushed exactly when the line has a chord, and the spans before are kept |
| Builder.TitleArm | src/parser.rs:178-181 | the trimmed argument becomes the title and the line is consumed, or a panic without an argument; TitleLine and MissingArgumentPanics state it |
| Builder.SubtitleArm | src/parser.rs:182-190 | the trimmed argument becomes the subtitle and one title-styled line is added, or a panic; SubtitleLineAdds states it |
| Builder.KeyArm | src/parser.rs:191-201 | with a target key, the distance from the song's key to it is added to the transposition; the line is consumed; KeyLine and KeyToOwnKey state it |
| Builder.CapoArm | src/parser.rs:202-205 | the capo position is subtracted from the transposition, or a panic; CapoArmReads, CapoTagLine, CapoLine and CapoNotInteger state it |
| Builder.CommentArm | src/parser.rs:206-209 | the untrimmed argument as a comment span of the lyric run, or a panic; CommentLine states it |
| Builder.ApplyTag | src/parser.rs:177-218 | the arm of the `match` on a tag's name; DirectiveEndsLine states which arms end the line and DirectiveKeepsShape what they do to the runs |
| Builder.Lyrics | src/parser.rs:220-232 | text outside tags: a comment span in a comment block, else `parse_chords`; LyricsGoOn, LyricsKeepShape, LyricLine and CommentBlockLine state it |
| Builder.FinishedLine | src/parser.rs:235-254 | the line an unconsumed line of text becomes: both runs when there are chords, the lyric run alone otherwise, each marked on a chorus line; EndLineWellFormed and LineGrowsSong state it |
| Builder.EndLine | src/parser.rs:235-255 | the song with `FinishedLine` appended; EndLineWellFormed states it |
| Builder.StopIndex | src/parser.rs:175-218 | the position of the piece that ends the line (`continue 'lines`), which lies within the line |
| Builder.LineResult | src/parser.rs:172-256 | one line of the song; LineGrowsSong states exactly which lines it adds |
| Builder.ParsedSong | src/parser.rs:161-258 | what `Song::new` builds; NewSong computes it and SongShape states its shape |
| Builder.CapoArmReads | src/parser.rs:202-205 | a capo argument that reads as `capo` subtracts `capo` from the transposition and lets the line go on |
| Builder.DirectiveEndsLine | src/parser.rs:177-218 | a directive ends its line exactly when it is `t`, `st`, `key`, `soc` or `tag` and does not panic; the others go on with the line |
| Builder.ParseLine | src/parser.rs:173-234 | the loop over the pieces of a line computes `RunSections` over `regex_split_keep`'s pieces |
| Builder.NewSong | src/parser.rs:161-258 | the loop over the normalised lines computes `ParsedSong` |
| SongFacts.DirectiveLine | src/parser.rs:175-219 | a line holding one readable directive is handled by that directive's arm alone |
| SongFacts.TitleLine | src/parser.rs:178-181 | `{t:x}` and `{title:x}` set the title to `x` trimmed and add no line |
| SongFacts.SubtitleLineAdds | src/parser.rs:182-190 | `{st:x}` and `{subtitle:x}` set the subtitle to `x` trimmed and add exactly one title-styled, chord-less line holding it |
| SongFacts.KeyLine | src/parser.rs:191-201 | `{key:x}` adds target minus declared key to the transposition only when a target is given and `x` trimmed is a pitch, and adds no line |
| SongFacts.KeyToOwnKey | src/parser.rs:191-201 | asking for the key the song declares leaves the state unchanged |
| SongFacts.CapoTagLine | src/parser.rs:202-205 | a capo line whose argument reads as `capo` subtracts it and ends as an empty lyric line |
| SongFacts.CapoLine | src/parser.rs:202-205 | `{Capo-Bass_Guitar:n}` for any `i32` `n` subtracts `n` and ends as an empty lyric line |
| SongFacts.CapoNotInteger | src/parser.rs:204 | a capo argument that is not an `i32` makes `Song::new` panic |
| SongFacts.MissingArgumentPanics | src/parser.rs:179 | `t`, `st`, the capo and `c` without an argument panic; `key` panics without one only when a target key is given |
| SongFacts.ChorusStartLine | src/parser.rs:210-213 | `{soc}` starts the chorus and adds no line |
| SongFacts.ChorusEndLine | src/parser.rs:214 | `{eoc}` ends the chorus; the line goes on and adds an empty lyric line |
| SongFacts.CommentModeLine | src/parser.rs:215-216 | `{soh}` and `{eoh}` switch the comment block on and off; the line goes on and adds an empty lyric line |
| SongFacts.IgnoredTagLine | src/parser.rs:217 | `{tag}` and `{tag:}` consume their line and change nothing |
| SongFacts.CommentLine | src/parser.rs:206-209 | `{c:x}` adds one lyric line holding `x` untrimmed and comment-styled, behind the chorus marker in a chorus |
| SongFacts.LyricLine | src/parser.rs:225-231 | a line without tags outside a comment block goes through `parse_chords` as a whole, and panics only when its transposition is not an interval |
| SongFacts.PlainLyricLine | src/parser.rs:250-255 | a line without tags or chords adds itself as one plain span, behind `"| "` in a chorus, with no chord run |
| SongFacts.CommentBlockLine | src/parser.rs:220-224 | inside a comment block a line without tags is added whole, comment-styled, untransposed |
| SongFacts.DirectiveKeepsShape | src/parser.rs:177-218 | every directive keeps the runs in shape; only the subtitle adds a line |
| SongFacts.LyricsKeepShape | src/parser.rs:220-232 | lyrics add plain spans below and chord spans above; comments add comment spans |
| SongFacts.SectionsKeepShape | src/parser.rs:175-234 | the pieces of a line keep the runs in shape and end the line adding at most one well-formed line |
| SongFacts.EndLineWellFormed | src/parser.rs:235-255 | finishing a line whose runs are in shape keeps the song text and the lines before it, adds at most one line, and keeps every line well formed (a subtitle line, or lyrics without title or chord spans under an optional chord run) |
| SongFacts.LineGrowsSong | src/parser.rs:172-256 | each line of text keeps the lines before it and adds exactly: the one well-formed `FinishedLine` of its runs when no piece ends it, else what the consuming directive at `StopIndex` adds (the subtitle line for `st`, nothing for `t`, `key`, `soc` or `{tag:}`) |
| SongFacts.LyricsGoOn | src/parser.rs:220-232 | text outside tags never ends its line and leaves the parse state as it was |
| SongFacts.GoingArmKeepsSong | src/parser.rs:202-216 | a directive that lets the line go on leaves the song as it was |
| SongFacts.ConsumingArmAdds | src/parser.rs:177-201 | a directive that ends its line adds exactly the subtitle line for `st`, and no line for `t`, `key`, `soc` or `{tag:}` |
| SongFacts.StepSong | src/parser.rs:175-232 | a piece that lets the line go on leaves the song as it was; a piece that ends the line is a consuming directive and adds only its `ConsumedAdds` |
| SongFacts.SectionsSong | src/parser.rs:175-234 | over all the pieces of a line: when they run out the song is as it was, and when one ends the line the song gains only that directive's `ConsumedAdds` |
| SongFacts.StopTagAt | src/parser.rs:175-218 | the tag that ends the line is the capture of the piece at `StopIndex` |
| SongFacts.LinesGrowSong | src/parser.rs:172-256 | the lines of text keep the song text and only append lines, at most one per line of text, all well formed |
| SongFacts.SongShape | src/parser.rs:161-258 | a parsed song keeps the normalised text, which holds no carriage return, and has at most one well-formed line per line of that text |
| SongName.GetName | src/parser.rs:332-354 | the label `get_name` returns; GetNameSpec characterises it against the last title and subtitle |
| SongName.GetNameOf | src/parser.rs:332-354 | the two nested loops compute `GetName` |
| SongName.GetNameSpec | src/parser.rs:332-354 | the label is the last title (else "Untitled"), followed by " - " and the last subtitle unless that is empty |
| SongName.UntitledWithoutDirectives | src/parser.rs:334-352 | without title or subtitle directives the label is "Untitled" |
| SongName.LastDirectivesWin | src/parser.rs:337-349 | the last title and the last subtitle directive decide the label |
| SongName.ScanLinesFlat | src/parser.rs:337-348 | the loop over lines and pieces is one scan over all pieces in order |
| SongName.ScanIsLast | src/parser.rs:338-348 | the scan leaves each field at the value its last directive gives |
| Playlists.Entries | src/parser.rs:368 | one song entry per line, named by that line |
| Playlists.EntryNamesRoundTrip | src/parser.rs:368 | the entries' names are the lines they were made from |
| Playlists.NewPlaylist | src/parser.rs:364-371 | the playlist keeps its text |
| Playlists.PlaylistLines | src/parser.rs:365-368 | the title followed by the song names are the lines of the text, in order |
| Playlists.PlaylistRoundTrip | src/parser.rs:364-371 | the title and song names, each with a line feed, give the text back (plus a final line feed if missing), and none holds a line feed |

## Left out

- The `regex` crate: each of the four patterns is a hand-written scanner with the crate's leftmost-first semantics.
- Unicode display width (`Span::width`): a span is as wide as its number of characters.
- Colours: `Theme` and `tui` styles become a style tag (plain, chord, comment, title). `conf::Theme` is not part of this model.
- `rust_music_theory`: a pitch class is an integer from 0 to 11. The names `to_string` prints are a fixed sharp-spelled table. The `key` directive's trimmed argument counts as a pitch only when it is exactly a note letter followed by an optional `b` or `#`; the library's handling of anything else (lowercase letters, text after the root, an empty argument) is not modelled, and such an argument is read as no pitch.
- Lifetimes, borrowing and clones of Rust are not modelled; values are immutable.
- The texts of `split_at`'s error messages become the values `IndexOutOfRange(index, width)` and `NoContent`.
- Text.ParseI32: its contract bounds the value and the first character only. That it reads numbers back is stated by ParseShowRoundTrip on rendered integers; leading zeros and a `+` are modelled in its body but not proved about.
- Builder.NewSong: `i32` overflow of the accumulated transposition is not modelled. The transposition is an unbounded integer, so a song that would overflow in the source is read as if it did not.
- Aligner.ParseChords: the `as i32` and `as usize` width casts at src/parser.rs:269-288 are exact on naturals, so widths past `i32::MAX` are not modelled.
- Panics: in `Song::new` they become the error value `Panic`, because whether they happen depends on the state of the parse. In `get_name` (a `t`/`st` tag without an argument) and `Playlist::new` (empty text) they become preconditions. In `parse_chords` they become the precondition `Shiftable`.
- `split_spans` at src/parser.rs:98-104 is an unfinished fragment, and the function never returns its halves. The model uses the loop at src/parser.rs:106-131 and returns `[left, right]`.
- `split_at`'s `(None, None)` branch (src/parser.rs:89) is unreachable, because such a line has width 0 and is refused first. It is modelled, and `SplitAtRefuses` shows that it is never taken.
- `src/main.rs` (command line and terminal loop) and `src/ui.rs` (drawing) are not part of this model.
- `util::FolderEntry` is not part of this model beyond the song name it holds.

## Findings

| source | as written | input that shows it | evidently intended | confidence | as-written member | corrected member |
|---|---|---|---|---|---|---|
| src/parser.rs:87 | the lyrics-only branch of `split_at` maps each half with `from_chords` | a lyrics-only line "Hello" split at 2 gives two chord-only lines | `from_text`, so the halves stay lyrics | high; not executed | SongLines.SplitAtLyricsBecomeChords | SongLines.SplitAtFixedSpec |
| src/parser.rs:75-79 | `zip` of the chord halves with the lyric halves stops at the shorter list | chords "G " over lyrics "Hello", `split_at(3)`: one line, lyrics "Hel"; "lo" is lost (SplitAtLosesTail; SplitAtLosesChordTail is the case with the chords wider) | both runs split in two (the narrower one whole on the left), no text lost | medium; not executed | SongLines.SplitAtLosesTailExample | SongLines.SplitAtFixedSpec |
