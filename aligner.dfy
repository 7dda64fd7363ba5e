/** `Song::parse_chords` (src/parser.rs:260-314): a lyric line with bracketed chords
    becomes a chord row and a lyric row. Before each chord the row that is behind is
    padded, so that the chord starts in the column where the lyrics after it start;
    the widths of spans already on the line count. */
module Aligner {
  import opened Text
  import opened Patterns
  import opened Tokenizer
  import opened Pitch
  import opened SongLines

  /** The two strings the loop builds: `chords_string` and `lyrics_string`. */
  datatype Rows = Rows(cs: string, ls: string)

  /** A lyric ending that needs no hyphen before the padding. */
  predicate IsSoftEnd(c: char) {
    c == ' ' || c == ',' || c == '.' || c == ':' || c == ';'
  }

  /** The character that pads the lyrics when the chords are ahead: a space after
      a space or punctuation (or at the start), otherwise a hyphen, since the
      chord then falls inside a word. */
  function Filler(ls: string): (c: char)
    ensures c == ' ' <==> ls == [] || IsSoftEnd(ls[|ls| - 1])
    ensures c == ' ' || c == '-'
  {
    var last := if ls == [] then ' ' else ls[|ls| - 1];
    if IsSoftEnd(last) then ' ' else '-'
  }

  /** The padding at src/parser.rs:275-291, with `cw` and `lw` the widths of the
      spans already on the line. */
  function Pad(r: Rows, cw: nat, lw: nat): (p: Rows)
    ensures cw + |p.cs| == lw + |p.ls|
    ensures p.cs == r.cs || p.ls == r.ls
    ensures r.cs <= p.cs && r.ls <= p.ls
    ensures forall k :: |r.cs| <= k < |p.cs| ==> p.cs[k] == ' '
    ensures forall k :: |r.ls| <= k < |p.ls| ==> p.ls[k] == Filler(r.ls)
  {
    var difference := (lw + |r.ls|) - (cw + |r.cs|);
    if difference < 0 then Rows(r.cs, r.ls + Repeat(Filler(r.ls), -difference))
    else if difference > 0 then Rows(r.cs + Repeat(' ', difference), r.ls)
    else r
  }

  /** One piece of the line: a chord is placed after padding and followed by a
      space; any other text goes on the lyric row as it is. */
  function StepRows(r: Rows, part: string, cw: nat, lw: nat, t: int): Rows {
    match ChordCapture(part)
    case Some(tag) =>
      var p := Pad(r, cw, lw);
      Rows(p.cs + TransposeChord(tag, t) + " ", p.ls)
    case None => Rows(r.cs, r.ls + part)
  }

  /** The rows after the pieces `parts`, in order. */
  function AlignRows(parts: seq<string>, cw: nat, lw: nat, t: int): Rows {
    if parts == [] then Rows([], [])
    else StepRows(AlignRows(parts[..|parts| - 1], cw, lw, t), parts[|parts| - 1], cw, lw, t)
  }

  /** The transposition can be applied: either its semitone count is a valid
      interval, or no chord of the line has a note to move. Otherwise the `unwrap`
      at src/parser.rs:298 panics. */
  predicate Shiftable(line: string, t: int) {
    ValidShift(t)
    || forall part :: part in Split(Chords, line) && ChordCapture(part).Some? ==> !HasRootLetter(ChordCapture(part).value)
  }

  /** The chord run and the lyric run of a line. */
  datatype Runs = Runs(chords: Spans, text: Spans)

  /** A row as the spans it adds: one span, or none when the row is empty. */
  function RowSpans(row: string, style: Style): Spans {
    if row == [] then [] else [Span(row, style)]
  }

  /** What `parse_chords` leaves in `chords` and `spans`: each gains its row as one
      more span, when that row is not empty. */
  function ChordRuns(line: string, chords: Spans, spans: Spans, t: int): Runs
    requires Shiftable(line, t)
  {
    var r := AlignRows(Split(Chords, line), Width(chords), Width(spans), t);
    Runs(chords + RowSpans(r.cs, Chord), spans + RowSpans(r.ls, Plain))
  }

  /** `parse_chords`, its loop over the pieces of the line building the two rows. */
  method ParseChords(chordLine: string, chords: Spans, spans: Spans, transposition: int)
    returns (newChords: Spans, newSpans: Spans)
    requires Shiftable(chordLine, transposition)
    ensures Runs(newChords, newSpans) == ChordRuns(chordLine, chords, spans, transposition)
  {
    var chordsString: string := [];
    var lyricsString: string := [];
    var chordsWidth := Width(chords);
    var lyricsWidth := Width(spans);
    var parts := RegexSplitKeep(Chords, chordLine);
    for i := 0 to |parts|
      invariant Rows(chordsString, lyricsString) == AlignRows(parts[..i], chordsWidth, lyricsWidth, transposition)
    {
      var part := parts[i];
      AlignStep(parts, i, chordsWidth, lyricsWidth, transposition);
      ghost var before := Rows(chordsString, lyricsString);
      var chord := ChordCapture(part);
      if chord.Some? {
        var difference := (lyricsWidth + |lyricsString|) - (chordsWidth + |chordsString|);
        if difference < 0 {
          var delimiter := Filler(lyricsString);
          lyricsString := lyricsString + Repeat(delimiter, -difference);
        } else if difference > 0 {
          chordsString := chordsString + Repeat(' ', difference);
        }
        assert Rows(chordsString, lyricsString) == Pad(before, chordsWidth, lyricsWidth);
        var parsedChord := TransposeChord(chord.value, transposition);
        chordsString := chordsString + parsedChord + " ";
      } else {
        lyricsString := lyricsString + part;
      }
      assert Rows(chordsString, lyricsString) == StepRows(before, part, chordsWidth, lyricsWidth, transposition);
    }
    assert parts[..|parts|] == parts;
    newChords := chords;
    newSpans := spans;
    if chordsString != [] {
      newChords := newChords + [Span(chordsString, Chord)];
    }
    if lyricsString != [] {
      newSpans := newSpans + [Span(lyricsString, Plain)];
    }
  }

  /** The rows only ever grow at their ends. */
  lemma {:induction false} AlignGrows(parts: seq<string>, j: nat, cw: nat, lw: nat, t: int)
    requires j <= |parts|
    ensures AlignRows(parts[..j], cw, lw, t).cs <= AlignRows(parts, cw, lw, t).cs
    ensures AlignRows(parts[..j], cw, lw, t).ls <= AlignRows(parts, cw, lw, t).ls
    decreases |parts|
  {
    if j < |parts| {
      var init := parts[..|parts| - 1];
      assert parts[..j] == init[..j];
      AlignGrows(init, j, cw, lw, t);
    } else {
      assert parts[..j] == parts;
    }
  }

  /** The rows after the pieces up to and including piece `i`. */
  lemma AlignStep(parts: seq<string>, i: nat, cw: nat, lw: nat, t: int)
    requires i < |parts|
    ensures AlignRows(parts[..i + 1], cw, lw, t) == StepRows(AlignRows(parts[..i], cw, lw, t), parts[i], cw, lw, t)
  {
    assert parts[..i + 1][..i] == parts[..i];
  }

  /** `w` is written in `s` from column `col` on. */
  ghost predicate WrittenAt(s: string, col: int, w: string) {
    0 <= col && col + |w| <= |s| && s[col..col + |w|] == w
  }

  /** Where a chord piece puts things: with `p` the rows padded before it, the chord
      and its space follow `p.cs` in the final chord row, the lyrics after it follow
      `p.ls` in the final lyric row, and the two prefixes end in the same column. */
  lemma {:induction false} ChordPlacement(parts: seq<string>, i: nat, cw: nat, lw: nat, t: int)
    requires i < |parts| && ChordCapture(parts[i]).Some?
    ensures var p := Pad(AlignRows(parts[..i], cw, lw, t), cw, lw);
      var fin := AlignRows(parts, cw, lw, t);
      cw + |p.cs| == lw + |p.ls|
      && p.cs + TransposeChord(ChordCapture(parts[i]).value, t) + " " <= fin.cs
      && p.ls <= fin.ls
      && (i + 1 < |parts| && ChordCapture(parts[i + 1]).None? ==> p.ls + parts[i + 1] <= fin.ls)
  {
    AlignStep(parts, i, cw, lw, t);
    AlignGrows(parts, i + 1, cw, lw, t);
    if i + 1 < |parts| && ChordCapture(parts[i + 1]).None? {
      AlignStep(parts, i + 1, cw, lw, t);
      AlignGrows(parts, i + 2, cw, lw, t);
    }
  }

  /** A chord and its space written in the chord row after `before` are written in
      the chord run from the column past `before`. */
  lemma ChordInRun(run: Spans, row: string, before: string, name: string)
    requires before + name + " " <= row
    ensures WrittenAt(Content(run + RowSpans(row, Chord)), Width(run) + |before|, name + " ")
  {
    assert before + name + " " == before + (name + " ");
    WrittenInRun(run, row, Chord, before, name + " ");
  }

  /** What a row holds from some column on, the run it is added to holds from
      that column plus the run's width. */
  lemma WrittenInRun(run: Spans, row: string, style: Style, before: string, w: string)
    requires before + w <= row
    ensures WrittenAt(Content(run + RowSpans(row, style)), Width(run) + |before|, w)
  {
    WidthIsContentLength(run);
    ContentAppend(run, RowSpans(row, style));
    if row != [] {
      assert Content([Span(row, style)]) == row;
    }
    var all := Content(run) + row;
    assert all[|Content(run)| + |before|..|Content(run)| + |before| + |w|] == (before + w)[|before|..];
  }

  /** The runs the pieces `parts` leave on a line that already holds `chords` and
      `spans`. */
  function RunsAfter(parts: seq<string>, chords: Spans, spans: Spans, t: int): Runs {
    var r := AlignRows(parts, Width(chords), Width(spans), t);
    Runs(chords + RowSpans(r.cs, Chord), spans + RowSpans(r.ls, Plain))
  }

  /** From column `col` the chord row holds `chord`, and the lyric row holds
      `next` when there is one. */
  ghost predicate AboveAt(r: Runs, col: int, chord: string, next: Option<string>) {
    WrittenAt(Content(r.chords), col, chord) && (next.Some? ==> WrittenAt(Content(r.text), col, next.value))
  }

  /** The lyrics that directly follow piece `i`, if the next piece is lyrics. */
  function NextLyrics(parts: seq<string>, i: nat): Option<string> {
    if i + 1 < |parts| && ChordCapture(parts[i + 1]).None? then Some(parts[i + 1]) else None
  }

  /** The column where the chord of piece `i` starts: past the chord row and the
      lyric row as they are once padded. */
  function ChordColumn(parts: seq<string>, i: nat, cw: nat, lw: nat, t: int): nat
    requires i <= |parts|
  {
    cw + |Pad(AlignRows(parts[..i], cw, lw, t), cw, lw).cs|
  }

  /** The chord row holds the chord of piece `i` and its space from that column. */
  lemma ChordWritten(parts: seq<string>, chords: Spans, spans: Spans, t: int, i: nat)
    requires i < |parts| && ChordCapture(parts[i]).Some?
    ensures WrittenAt(Content(RunsAfter(parts, chords, spans, t).chords), ChordColumn(parts, i, Width(chords), Width(spans), t),
                      TransposeChord(ChordCapture(parts[i]).value, t) + " ")
  {
    var cw, lw := Width(chords), Width(spans);
    var fin := AlignRows(parts, cw, lw, t);
    var p := Pad(AlignRows(parts[..i], cw, lw, t), cw, lw);
    var name := TransposeChord(ChordCapture(parts[i]).value, t);
    ChordPlacement(parts, i, cw, lw, t);
    ChordInRun(chords, fin.cs, p.cs, name);
    assert RunsAfter(parts, chords, spans, t).chords == chords + RowSpans(fin.cs, Chord);
    assert ChordColumn(parts, i, cw, lw, t) == cw + |p.cs|;
  }

  /** The lyric row holds the lyrics after the chord from the same column. */
  lemma LyricsWritten(parts: seq<string>, chords: Spans, spans: Spans, t: int, i: nat)
    requires i < |parts| && ChordCapture(parts[i]).Some? && NextLyrics(parts, i).Some?
    ensures ChordColumn(parts, i, Width(chords), Width(spans), t) >= Width(spans)
    ensures WrittenAt(Content(RunsAfter(parts, chords, spans, t).text), ChordColumn(parts, i, Width(chords), Width(spans), t), parts[i + 1])
  {
    var cw, lw := Width(chords), Width(spans);
    var fin := AlignRows(parts, cw, lw, t);
    var p := Pad(AlignRows(parts[..i], cw, lw, t), cw, lw);
    ChordPlacement(parts, i, cw, lw, t);
    WrittenInRun(spans, fin.ls, Plain, p.ls, parts[i + 1]);
  }

  lemma ChordAbovePieces(parts: seq<string>, chords: Spans, spans: Spans, t: int, i: nat)
    requires i < |parts| && ChordCapture(parts[i]).Some?
    ensures exists col :: (col >= Width(chords) && col >= Width(spans)
      && AboveAt(RunsAfter(parts, chords, spans, t), col, TransposeChord(ChordCapture(parts[i]).value, t) + " ", NextLyrics(parts, i)))
  {
    var col := ChordColumn(parts, i, Width(chords), Width(spans), t);
    ChordPlacement(parts, i, Width(chords), Width(spans), t);
    ChordWritten(parts, chords, spans, t, i);
    if NextLyrics(parts, i).Some? {
      LyricsWritten(parts, chords, spans, t, i);
    }
    assert AboveAt(RunsAfter(parts, chords, spans, t), col, TransposeChord(ChordCapture(parts[i]).value, t) + " ", NextLyrics(parts, i));
  }

  /** Every chord of the line sits right above the lyrics that follow it: there is
      one column, at or past the spans already on the line, from which the chord
      row holds the transposed chord and a space, and the lyric row holds the next
      piece of lyrics. */
  lemma ChordAboveItsLyrics(line: string, chords: Spans, spans: Spans, t: int, i: nat)
    requires Shiftable(line, t)
    requires i < |Split(Chords, line)| && ChordCapture(Split(Chords, line)[i]).Some?
    ensures exists col :: (col >= Width(chords) && col >= Width(spans)
      && AboveAt(ChordRuns(line, chords, spans, t), col,
                 TransposeChord(ChordCapture(Split(Chords, line)[i]).value, t) + " ", NextLyrics(Split(Chords, line), i)))
  {
    ChordAbovePieces(Split(Chords, line), chords, spans, t, i);
    assert ChordRuns(line, chords, spans, t) == RunsAfter(Split(Chords, line), chords, spans, t);
  }

  /** The chord row is empty exactly when no piece is a chord; every chord, even an
      empty `[]`, leaves at least its space. */
  lemma {:induction false} ChordRowEmpty(parts: seq<string>, cw: nat, lw: nat, t: int)
    ensures AlignRows(parts, cw, lw, t).cs == [] <==> forall k :: 0 <= k < |parts| ==> ChordCapture(parts[k]).None?
    decreases |parts|
  {
    if parts != [] {
      var init := parts[..|parts| - 1];
      ChordRowEmpty(init, cw, lw, t);
      var r := AlignRows(init, cw, lw, t);
      if ChordCapture(parts[|parts| - 1]).Some? {
        assert |AlignRows(parts, cw, lw, t).cs| > 0;
      } else {
        forall k | 0 <= k < |init| ensures init[k] == parts[k] { }
      }
    }
  }

  /** Without chords the lyric row is the pieces put back together. */
  lemma {:induction false} NoChordsLyricRow(parts: seq<string>, cw: nat, lw: nat, t: int)
    requires forall k :: 0 <= k < |parts| ==> ChordCapture(parts[k]).None?
    ensures AlignRows(parts, cw, lw, t) == Rows([], Concat(parts))
    decreases |parts|
  {
    if parts != [] {
      var init := parts[..|parts| - 1];
      var last := parts[|parts| - 1];
      NoChordsLyricRow(init, cw, lw, t);
      ConcatAppend(init, [last]);
      assert parts == init + [last];
      assert Concat([last]) == last by {
        assert [last][1..] == [];
      }
    }
  }

  /** A line without chords adds no chord span, and adds itself, unchanged, as one
      plain lyric span (nothing when it is empty). */
  lemma LineWithoutChords(line: string, chords: Spans, spans: Spans, t: int)
    requires forall k :: 0 <= k < |Split(Chords, line)| ==> ChordCapture(Split(Chords, line)[k]).None?
    ensures Shiftable(line, t)
    ensures ChordRuns(line, chords, spans, t) == Runs(chords, spans + RowSpans(line, Plain))
  {
    var parts := Split(Chords, line);
    assert Shiftable(line, t) by {
      forall part | part in parts
        ensures ChordCapture(part).None?
      {
        var k :| 0 <= k < |parts| && parts[k] == part;
      }
    }
    NoChordsLyricRow(parts, Width(chords), Width(spans), t);
    SplitConcat(Chords, line);
  }

  /** A chord span is added exactly when the line has a chord. */
  lemma ChordSpanIffChord(line: string, chords: Spans, spans: Spans, t: int)
    requires Shiftable(line, t)
    ensures |ChordRuns(line, chords, spans, t).chords| == |chords| + (if exists part :: part in Split(Chords, line) && ChordCapture(part).Some? then 1 else 0)
    ensures ChordRuns(line, chords, spans, t).chords[..|chords|] == chords
  {
    var parts := Split(Chords, line);
    ChordRowEmpty(parts, Width(chords), Width(spans), t);
    if exists part :: part in parts && ChordCapture(part).Some? {
      var part :| part in parts && ChordCapture(part).Some?;
      var k :| 0 <= k < |parts| && parts[k] == part;
    }
  }
}
