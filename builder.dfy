/** `Song::new` (src/parser.rs:161-258): the song text, its line endings
    normalised, is read line by line; each line is cut at directive tags, the
    directives update the title, the subtitle, the chorus and comment modes and the
    transposition, and the rest of the line goes through `parse_chords`. Each line
    that is not consumed by a directive becomes one `SongLine`.

    The `unwrap`s of `Song::new` panic on some inputs; which ones depends on the
    state the parse has reached (a directive that consumes its line hides the tags
    after it, and the transposition accumulates), so the model returns the panic
    as an error instead of excluding those inputs. */
module Builder {
  import opened Text
  import opened Patterns
  import opened Tokenizer
  import opened Pitch
  import opened SongLines
  import opened Aligner

  datatype Song = Song(title: string, subtitle: string, songstring: string, text: seq<SongLine>)

  /** Why `Song::new` panics: a directive that needs an argument has none
      (src/parser.rs:179, :183, :194, :204, :207), the capo argument is not an
      `i32` (src/parser.rs:204), or a chord root must be moved by a semitone count
      that is not an interval (src/parser.rs:298). */
  datatype Panic = MissingArgument(directive: string) | CapoNotANumber(argument: string) | IntervalOutOfRange(transposition: int)

  /** The variables that live across lines: the song built so far and the three
      flags of src/parser.rs:169-171. */
  datatype State = State(song: Song, chorus: bool, comment: bool, transposition: int)

  /** The state within a line: the chord run and the lyric run built so far. */
  datatype LineState = LineState(state: State, chords: Spans, text: Spans)

  /** What a piece of a line leads to: go on with the line, leave the line
      unfinished (`continue 'lines`), or panic. */
  datatype Outcome = Continue(line: LineState) | NextLine(state: State) | Fail(panic: Panic)

  /** The comment-styled marker put in front of each run of a chorus line. */
  const ChorusMarker: Span := Span("| ", Comment)

  /** The line the subtitle directive adds: its trimmed argument, title-styled. */
  function SubtitleLine(subtitle: string): SongLine {
    FromText([Span(subtitle, Title)])
  }

  /** The directive names the parser knows, grouped as the arms of its `match`. */
  datatype Directive = TitleTag | SubtitleTag | KeyTag | CapoTag | CommentTag
    | StartOfChorus | EndOfChorus | StartOfComments | EndOfComments | IgnoredTag | Unknown

  /** Which arm of the `match` at src/parser.rs:177-218 a tag name takes. */
  function DirectiveOf(name: string): Directive {
    if name == "t" || name == "title" then TitleTag
    else if name == "st" || name == "subtitle" then SubtitleTag
    else if name == "key" then KeyTag
    else if name == "Capo-Bass_Guitar" then CapoTag
    else if name == "c" then CommentTag
    else if name == "soc" || name == "start_of_chorus" then StartOfChorus
    else if name == "eoc" || name == "end_of_chorus" then EndOfChorus
    else if name == "soh" then StartOfComments
    else if name == "eoh" then EndOfComments
    else if name == "tag" || name == "tag:" then IgnoredTag
    else Unknown
  }

  /** The long capo name picks the capo arm. */
  lemma CapoName()
    ensures DirectiveOf("Capo-Bass_Guitar") == CapoTag
  {
  }

  /** The long capo name can be written as a tag. */
  lemma CapoReadable()
    ensures Readable(Tag("Capo-Bass_Guitar", None))
  {
  }

  /** `{tag:}` has its colon last, so the whole of `tag:` is the name, which picks
      the ignored arm. */
  lemma TagColonName()
    ensures SplitTagBody("tag:") == Tag("tag:", None)
    ensures DirectiveOf("tag:") == IgnoredTag
    ensures forall i :: 0 <= i < |"tag:"| ==> IsTagChar("tag:"[i])
  {
  }

  /** `tag` picks the ignored arm. */
  lemma TagName()
    ensures DirectiveOf("tag") == IgnoredTag && Readable(Tag("tag", None))
  {
  }

  /** `soh` and `eoh` pick the comment-block arms. */
  lemma SohName()
    ensures DirectiveOf("soh") == StartOfComments && Readable(Tag("soh", None))
  {
  }

  lemma EohName()
    ensures DirectiveOf("eoh") == EndOfComments && Readable(Tag("eoh", None))
  {
  }

  /** The directives that end their line (`continue 'lines`). */
  predicate ConsumesLine(d: Directive) {
    d == TitleTag || d == SubtitleTag || d == KeyTag || d == StartOfChorus || d == IgnoredTag
  }

  /** `t`/`title`: the trimmed argument becomes the title; the line is consumed. */
  function TitleArm(st: State, name: string, arg: Option<string>): Outcome {
    if arg.None? then Fail(MissingArgument(name))
    else NextLine(st.(song := st.song.(title := Trim(arg.value))))
  }

  /** `st`/`subtitle`: the trimmed argument becomes the subtitle and is added as a
      title-styled line; the line is consumed. */
  function SubtitleArm(st: State, name: string, arg: Option<string>): Outcome {
    if arg.None? then Fail(MissingArgument(name))
    else
      var subtitle := Trim(arg.value);
      NextLine(st.(song := st.song.(subtitle := subtitle, text := st.song.text + [SubtitleLine(subtitle)])))
  }

  /** `key`: with a target key, the distance from the song's key to it is added to
      the transposition; the line is consumed either way. */
  function KeyArm(st: State, name: string, arg: Option<string>, target: Option<PitchClass>): Outcome {
    if target.None? then NextLine(st)
    else if arg.None? then Fail(MissingArgument(name))
    else
      var songKey := FromStr(Trim(arg.value));
      if songKey.Some? then NextLine(st.(transposition := st.transposition + (target.value - songKey.value)))
      else NextLine(st)
  }

  /** `Capo-Bass_Guitar`: the capo position is subtracted from the transposition. */
  function CapoArm(ls: LineState, name: string, arg: Option<string>): Outcome {
    if arg.None? then Fail(MissingArgument(name))
    else
      var capo := ParseI32(Trim(arg.value));
      if capo.Some? then Continue(ls.(state := ls.state.(transposition := ls.state.transposition - capo.value)))
      else Fail(CapoNotANumber(arg.value))
  }

  /** `c`: the argument, untrimmed, as a comment span of the lyric run. */
  function CommentArm(ls: LineState, name: string, arg: Option<string>): Outcome {
    if arg.None? then Fail(MissingArgument(name))
    else Continue(ls.(text := ls.text + [Span(arg.value, Comment)]))
  }

  /** The arm `d` of a tag, on the state of the line so far. */
  function ApplyTag(ls: LineState, d: Directive, tag: Tag, target: Option<PitchClass>): Outcome {
    var st := ls.state;
    match d
    case TitleTag => TitleArm(st, tag.name, tag.arg)
    case SubtitleTag => SubtitleArm(st, tag.name, tag.arg)
    case KeyTag => KeyArm(st, tag.name, tag.arg, target)
    case CapoTag => CapoArm(ls, tag.name, tag.arg)
    case CommentTag => CommentArm(ls, tag.name, tag.arg)
    case StartOfChorus => NextLine(st.(chorus := true))
    case EndOfChorus => Continue(ls.(state := st.(chorus := false)))
    case StartOfComments => Continue(ls.(state := st.(comment := true)))
    case EndOfComments => Continue(ls.(state := st.(comment := false)))
    case IgnoredTag => NextLine(st)
    case Unknown => Continue(ls)
  }

  /** A capo directive whose argument reads as `capo` moves the transposition down
      by `capo` and lets the line go on. */
  lemma CapoArmReads(ls: LineState, t: Tag, target: Option<PitchClass>, capo: int)
    requires t.arg.Some? && ParseI32(Trim(t.arg.value)) == Some(capo)
    ensures ApplyTag(ls, CapoTag, t, target) == Continue(ls.(state := ls.state.(transposition := ls.state.transposition - capo)))
  {
    var o := CapoArm(ls, t.name, t.arg);
    assert o == Continue(ls.(state := ls.state.(transposition := ls.state.transposition - capo)));
    assert ApplyTag(ls, CapoTag, t, target) == o;
  }

  /** A directive that consumes its line ends it, unless it panics. */
  lemma ConsumingArm(ls: LineState, d: Directive, t: Tag, target: Option<PitchClass>)
    requires ConsumesLine(d)
    ensures ApplyTag(ls, d, t, target).NextLine? || ApplyTag(ls, d, t, target).Fail?
  {
    var st := ls.state;
    var o := ApplyTag(ls, d, t, target);
    if d == TitleTag {
      assert o == TitleArm(st, t.name, t.arg);
    } else if d == SubtitleTag {
      assert o == SubtitleArm(st, t.name, t.arg);
    } else if d == KeyTag {
      assert o == KeyArm(st, t.name, t.arg, target);
    }
  }

  /** Any other directive lets the line go on, unless it panics. */
  lemma GoingArm(ls: LineState, d: Directive, t: Tag, target: Option<PitchClass>)
    requires !ConsumesLine(d)
    ensures ApplyTag(ls, d, t, target).Continue? || ApplyTag(ls, d, t, target).Fail?
  {
    var o := ApplyTag(ls, d, t, target);
    if d == CapoTag {
      assert o == CapoArm(ls, t.name, t.arg);
    } else if d == CommentTag {
      assert o == CommentArm(ls, t.name, t.arg);
    }
  }

  /** A directive leaves its line unfinished exactly when it is one of those that
      consume the line (and does not panic); the others go on with the line. */
  lemma DirectiveEndsLine(ls: LineState, d: Directive, t: Tag, target: Option<PitchClass>)
    ensures ApplyTag(ls, d, t, target).NextLine? <==> ConsumesLine(d) && !ApplyTag(ls, d, t, target).Fail?
    ensures ApplyTag(ls, d, t, target).Continue? <==> !ConsumesLine(d) && !ApplyTag(ls, d, t, target).Fail?
  {
    if ConsumesLine(d) {
      ConsumingArm(ls, d, t, target);
    } else {
      GoingArm(ls, d, t, target);
    }
  }

  /** Text outside tags (src/parser.rs:220-232): a comment span inside a comment
      block, else lyrics with chords. */
  function Lyrics(ls: LineState, section: string): Outcome {
    var t := ls.state.transposition;
    if ls.state.comment then Continue(ls.(text := ls.text + [Span(section, Comment)]))
    else if !Shiftable(section, t) then Fail(IntervalOutOfRange(t))
    else
      var r := ChordRuns(section, ls.chords, ls.text, t);
      Continue(ls.(chords := r.chords, text := r.text))
  }

  /** One piece of a line, as `RE_TAGS.captures` sees it. */
  function SectionStep(ls: LineState, section: string, target: Option<PitchClass>): Outcome {
    var cap := TagCapture(section);
    if cap.Some? then ApplyTag(ls, DirectiveOf(cap.value.name), cap.value, target) else Lyrics(ls, section)
  }

  /** The pieces of a line, in order, until one of them ends the line. */
  function RunSections(ls: LineState, sections: seq<string>, target: Option<PitchClass>): Outcome
    decreases |sections|
  {
    if sections == [] then Continue(ls)
    else
      var o := SectionStep(ls, sections[0], target);
      if o.Continue? then RunSections(o.line, sections[1..], target) else o
  }

  /** The position of the piece that ends the line (`continue 'lines`), if one
      does before the pieces run out or one panics. */
  function StopIndex(ls: LineState, sections: seq<string>, target: Option<PitchClass>): (r: Option<nat>)
    ensures r.Some? ==> r.value < |sections|
    decreases |sections|
  {
    if sections == [] then None
    else
      var o := SectionStep(ls, sections[0], target);
      if o.Continue? then
        var rest := StopIndex(o.line, sections[1..], target);
        if rest.Some? then Some(rest.value + 1) else None
      else if o.NextLine? then Some(0)
      else None
  }

  /** The tag of the piece that ends the line, if one does. */
  function StopTag(ls: LineState, sections: seq<string>, target: Option<PitchClass>): Option<Tag>
    decreases |sections|
  {
    if sections == [] then None
    else
      var o := SectionStep(ls, sections[0], target);
      if o.Continue? then StopTag(o.line, sections[1..], target)
      else if o.NextLine? then TagCapture(sections[0])
      else None
  }

  /** The chorus marker in front of a run, for a non-empty run of a chorus line. */
  function Marked(run: Spans, chorus: bool): Spans {
    if chorus && run != [] then [ChorusMarker] + run else run
  }

  /** The line a line of text that was not consumed becomes: both runs when
      there are chords, the lyric run alone otherwise, each marked on a chorus line
      (src/parser.rs:235-254). */
  function FinishedLine(ls: LineState): SongLine {
    var chords := Marked(ls.chords, ls.state.chorus);
    var text := Marked(ls.text, ls.state.chorus);
    if chords != [] then From(chords, text) else FromText(text)
  }

  /** The end of a line that was not consumed (src/parser.rs:235-255). */
  function EndLine(ls: LineState): State {
    ls.state.(song := ls.state.song.(text := ls.state.song.text + [FinishedLine(ls)]))
  }

  /** One line of the song. */
  function LineResult(st: State, line: string, target: Option<PitchClass>): Result<State, Panic> {
    var o := RunSections(LineState(st, [], []), Split(Tags, line), target);
    if o.Continue? then Ok(EndLine(o.line))
    else if o.NextLine? then Ok(o.state)
    else Err(o.panic)
  }

  /** The lines of the song, in order, until one panics. */
  function RunLines(st: State, lines: seq<string>, target: Option<PitchClass>): Result<State, Panic>
    decreases |lines|
  {
    if lines == [] then Ok(st)
    else
      var r := LineResult(st, lines[0], target);
      if r.Err? then Err(r.error) else RunLines(r.value, lines[1..], target)
  }

  /** The state before the first line. */
  function Initial(songstring: string): State {
    State(Song("", "", songstring, []), false, false, 0)
  }

  /** What `Song::new` builds from `songstring`, transposing to `target` if given. */
  function ParsedSong(songstring: string, target: Option<PitchClass>): Result<Song, Panic> {
    var s := NormalizeNewlines(songstring);
    var r := RunLines(Initial(s), Lines(s), target);
    if r.Ok? then Ok(r.value.song) else Err(r.error)
  }

  lemma RunSectionsStep(ls: LineState, sections: seq<string>, j: nat, target: Option<PitchClass>)
    requires j < |sections|
    ensures var o := SectionStep(ls, sections[j], target);
      RunSections(ls, sections[j..], target) == if o.Continue? then RunSections(o.line, sections[j + 1..], target) else o
  {
    assert sections[j..][0] == sections[j];
    assert sections[j..][1..] == sections[j + 1..];
  }

  lemma RunLinesStep(st: State, lines: seq<string>, i: nat, target: Option<PitchClass>)
    requires i < |lines|
    ensures var r := LineResult(st, lines[i], target);
      RunLines(st, lines[i..], target) == if r.Err? then Err(r.error) else RunLines(r.value, lines[i + 1..], target)
  {
    assert lines[i..][0] == lines[i];
    assert lines[i..][1..] == lines[i + 1..];
  }

  /** The loop over the pieces of one line (src/parser.rs:173-234), up to the point
      where the line is finished, consumed, or panics. */
  method ParseLine(start: State, line: string, target: Option<PitchClass>) returns (o: Outcome)
    ensures o == RunSections(LineState(start, [], []), Split(Tags, line), target)
  {
    var ls := LineState(start, [], []);
    var sections := RegexSplitKeep(Tags, line);
    var j := 0;
    while j < |sections|
      invariant j <= |sections|
      invariant RunSections(ls, sections[j..], target) == RunSections(LineState(start, [], []), sections, target)
    {
      var section := sections[j];
      RunSectionsStep(ls, sections, j, target);
      j := j + 1;
      var cap := TagCapture(section);
      if cap.Some? {
        var next := ApplyTag(ls, DirectiveOf(cap.value.name), cap.value, target);
        if !next.Continue? {
          return next;
        }
        ls := next.line;
      } else if ls.state.comment {
        ls := ls.(text := ls.text + [Span(section, Comment)]);
      } else {
        if !Shiftable(section, ls.state.transposition) {
          return Fail(IntervalOutOfRange(ls.state.transposition));
        }
        var chords, text := ParseChords(section, ls.chords, ls.text, ls.state.transposition);
        ls := ls.(chords := chords, text := text);
      }
    }
    assert sections[j..] == [];
    return Continue(ls);
  }

  /** `Song::new`: the loop over the lines of the normalised song text. */
  method NewSong(songstring: string, target: Option<PitchClass>) returns (r: Result<Song, Panic>)
    ensures r == ParsedSong(songstring, target)
  {
    var s := NormalizeNewlines(songstring);
    var st := Initial(s);
    var lines := Lines(s);
    for i := 0 to |lines|
      invariant RunLines(st, lines[i..], target) == RunLines(Initial(s), lines, target)
    {
      RunLinesStep(st, lines, i, target);
      var o := ParseLine(st, lines[i], target);
      if o.Fail? {
        return Err(o.panic);
      }
      if o.NextLine? {
        st := o.state;
      } else {
        var chords, text := o.line.chords, o.line.text;
        var song := o.line.state.song;
        if o.line.state.chorus {
          if text != [] {
            text := [ChorusMarker] + text;
          }
          if chords != [] {
            chords := [ChorusMarker] + chords;
          }
        }
        if chords != [] {
          song := song.(text := song.text + [From(chords, text)]);
        } else {
          song := song.(text := song.text + [FromText(text)]);
        }
        st := o.line.state.(song := song);
      }
    }
    assert lines[|lines|..] == [];
    return Ok(st.song);
  }
}
