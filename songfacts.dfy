/** What `Song::new` (src/parser.rs:161-258) does with each kind of line, and the
    shape of every song it builds. */
module SongFacts {
  import opened Text
  import opened Patterns
  import opened Tokenizer
  import opened Pitch
  import opened SongLines
  import opened Aligner
  import opened Builder

  /** What becomes of a line once its pieces have led to outcome `o`. */
  function Finish(o: Outcome): Result<State, Panic> {
    if o.Continue? then Ok(EndLine(o.line)) else if o.NextLine? then Ok(o.state) else Err(o.panic)
  }

  /** The state with `line` added to the song. */
  function Push(st: State, line: SongLine): State {
    st.(song := st.song.(text := st.song.text + [line]))
  }

  /** A line holding one directive and nothing else is handled by that directive's
      arm alone. */
  lemma DirectiveLine(st: State, t: Tag, d: Directive, target: Option<PitchClass>)
    requires Readable(t) && DirectiveOf(t.name) == d
    ensures LineResult(st, TagText(t), target) == Finish(ApplyTag(LineState(st, [], []), d, t, target))
  {
    TagRoundTrip(t);
    SplitWholeMatch(Tags, TagText(t));
    RunSectionsStep(LineState(st, [], []), [TagText(t)], 0, target);
  }

  /** `{t:..}` and `{title:..}` set the title to the trimmed argument; the line adds
      nothing to the song. */
  lemma TitleLine(st: State, name: string, arg: string, target: Option<PitchClass>)
    requires name == "t" || name == "title"
    requires Readable(Tag(name, Some(arg)))
    ensures LineResult(st, TagText(Tag(name, Some(arg))), target) == Ok(st.(song := st.song.(title := Trim(arg))))
  {
    var t := Tag(name, Some(arg));
    DirectiveLine(st, t, TitleTag, target);
    assert ApplyTag(LineState(st, [], []), TitleTag, t, target) == TitleArm(st, name, Some(arg));
  }

  /** `{st:..}` and `{subtitle:..}` set the subtitle to the trimmed argument and add
      exactly one line: that subtitle, title-styled, with no chords. */
  lemma SubtitleLineAdds(st: State, name: string, arg: string, target: Option<PitchClass>)
    requires name == "st" || name == "subtitle"
    requires Readable(Tag(name, Some(arg)))
    ensures LineResult(st, TagText(Tag(name, Some(arg))), target)
      == Ok(Push(st.(song := st.song.(subtitle := Trim(arg))), FromText([Span(Trim(arg), Title)])))
  {
    var t := Tag(name, Some(arg));
    DirectiveLine(st, t, SubtitleTag, target);
    assert ApplyTag(LineState(st, [], []), SubtitleTag, t, target) == SubtitleArm(st, name, Some(arg));
  }

  /** The `key` arm on its own: what it makes of the line. */
  lemma KeyArmResult(st: State, arg: string, target: Option<PitchClass>)
    ensures var key := FromStr(Trim(arg));
      Finish(ApplyTag(LineState(st, [], []), KeyTag, Tag("key", Some(arg)), target))
      == Ok(if target.Some? && key.Some? then st.(transposition := st.transposition + target.value - key.value) else st)
  {
    assert ApplyTag(LineState(st, [], []), KeyTag, Tag("key", Some(arg)), target) == KeyArm(st, "key", Some(arg), target);
  }

  /** `{key:..}` adds nothing to the song; with a target key it moves the
      transposition by the distance from the song's key to the target, and without
      one (or with a key that is not a pitch) it changes nothing. */
  lemma KeyLine(st: State, arg: string, target: Option<PitchClass>)
    requires Readable(Tag("key", Some(arg)))
    ensures var key := FromStr(Trim(arg));
      LineResult(st, TagText(Tag("key", Some(arg))), target)
      == Ok(if target.Some? && key.Some? then st.(transposition := st.transposition + target.value - key.value) else st)
  {
    DirectiveLine(st, Tag("key", Some(arg)), KeyTag, target);
    KeyArmResult(st, arg, target);
  }

  /** Asking for the key the song is already in leaves the transposition alone. */
  lemma KeyToOwnKey(st: State, arg: string)
    requires Readable(Tag("key", Some(arg))) && FromStr(Trim(arg)).Some?
    ensures LineResult(st, TagText(Tag("key", Some(arg))), FromStr(Trim(arg))) == Ok(st)
  {
    KeyLine(st, arg, FromStr(Trim(arg)));
  }

  /** A written integer is a readable capo argument that reads back as itself. */
  lemma CapoArgument(capo: int)
    requires I32Min <= capo <= I32Max
    ensures Readable(Tag("Capo-Bass_Guitar", Some(ShowInt(capo))))
    ensures ParseI32(Trim(ShowInt(capo))) == Some(capo)
  {
    ShowIntChars(capo);
    CapoName();
    CapoReadable();
    ReadableWithArgument("Capo-Bass_Guitar", ShowInt(capo));
    ParseShowRoundTrip(capo);
  }

  /** The capo arm on its own, with an argument that reads as `capo`. */
  lemma CapoArmResult(st: State, name: string, arg: string, capo: int, target: Option<PitchClass>)
    requires ParseI32(Trim(arg)) == Some(capo)
    ensures Finish(ApplyTag(LineState(st, [], []), CapoTag, Tag(name, Some(arg)), target))
      == Ok(Push(st.(transposition := st.transposition - capo), FromText([])))
  {
    var ls := LineState(st.(transposition := st.transposition - capo), [], []);
    var t := Tag(name, Some(arg));
    CapoArmReads(LineState(st, [], []), t, target, capo);
    assert EndLine(ls) == Push(st.(transposition := st.transposition - capo), FromText([]));
  }

  /** A line holding only a capo directive whose argument reads as `capo`. */
  lemma CapoTagLine(st: State, name: string, arg: string, capo: int, target: Option<PitchClass>)
    requires Readable(Tag(name, Some(arg))) && DirectiveOf(name) == CapoTag && ParseI32(Trim(arg)) == Some(capo)
    ensures LineResult(st, TagText(Tag(name, Some(arg))), target)
      == Ok(Push(st.(transposition := st.transposition - capo), FromText([])))
  {
    DirectiveLine(st, Tag(name, Some(arg)), CapoTag, target);
    CapoArmResult(st, name, arg, capo, target);
  }

  /** A capo line written with an integer subtracts it from the transposition; the
      line goes on, and ends as an empty lyric line. */
  lemma CapoLine(st: State, capo: int, target: Option<PitchClass>)
    requires I32Min <= capo <= I32Max
    ensures LineResult(st, TagText(Tag("Capo-Bass_Guitar", Some(ShowInt(capo)))), target)
      == Ok(Push(st.(transposition := st.transposition - capo), FromText([])))
  {
    CapoArgument(capo);
    CapoName();
    CapoReadable();
    CapoTagLine(st, "Capo-Bass_Guitar", ShowInt(capo), capo, target);
  }

  /** A capo argument that is not an `i32` makes `Song::new` panic. */
  lemma CapoNotInteger(st: State, arg: string, target: Option<PitchClass>)
    requires Readable(Tag("Capo-Bass_Guitar", Some(arg))) && ParseI32(Trim(arg)).None?
    ensures LineResult(st, TagText(Tag("Capo-Bass_Guitar", Some(arg))), target) == Err(CapoNotANumber(arg))
  {
    var t := Tag("Capo-Bass_Guitar", Some(arg));
    DirectiveLine(st, t, CapoTag, target);
    assert ApplyTag(LineState(st, [], []), CapoTag, t, target) == CapoArm(LineState(st, [], []), t.name, t.arg);
  }

  /** The directives that need an argument panic without one; `key` needs it only
      when there is a target key. */
  lemma MissingArgumentPanics(st: State, name: string, target: Option<PitchClass>)
    requires Readable(Tag(name, None))
    requires DirectiveOf(name) in {TitleTag, SubtitleTag, CapoTag, CommentTag} || (DirectiveOf(name) == KeyTag && target.Some?)
    ensures LineResult(st, TagText(Tag(name, None)), target) == Err(MissingArgument(name))
  {
    var t := Tag(name, None);
    var ls := LineState(st, [], []);
    match DirectiveOf(name) {
      case TitleTag => assert ApplyTag(ls, TitleTag, t, target) == TitleArm(st, name, None);
      case SubtitleTag => assert ApplyTag(ls, SubtitleTag, t, target) == SubtitleArm(st, name, None);
      case CapoTag => assert ApplyTag(ls, CapoTag, t, target) == CapoArm(ls, name, None);
      case CommentTag => assert ApplyTag(ls, CommentTag, t, target) == CommentArm(ls, name, None);
      case KeyTag => assert ApplyTag(ls, KeyTag, t, target) == KeyArm(st, name, None, target);
    }
    DirectiveLine(st, t, DirectiveOf(name), target);
  }

  /** `{soc}` starts the chorus and adds nothing to the song. */
  lemma ChorusStartLine(st: State, target: Option<PitchClass>)
    ensures LineResult(st, TagText(Tag("soc", None)), target) == Ok(st.(chorus := true))
  {
    assert Readable(Tag("soc", None));
    DirectiveLine(st, Tag("soc", None), StartOfChorus, target);
  }

  /** The end-of-chorus arm on its own: the line goes on with no spans. */
  lemma ChorusEndResult(st: State, t: Tag, target: Option<PitchClass>)
    ensures Finish(ApplyTag(LineState(st, [], []), EndOfChorus, t, target)) == Ok(Push(st.(chorus := false), FromText([])))
  {
    var ended := LineState(st.(chorus := false), [], []);
    assert ApplyTag(LineState(st, [], []), EndOfChorus, t, target) == Continue(ended);
  }

  /** `{eoc}` ends the chorus and, the line going on, adds an empty lyric line. */
  lemma ChorusEndLine(st: State, target: Option<PitchClass>)
    ensures LineResult(st, TagText(Tag("eoc", None)), target) == Ok(Push(st.(chorus := false), FromText([])))
  {
    assert Readable(Tag("eoc", None));
    DirectiveLine(st, Tag("eoc", None), EndOfChorus, target);
    ChorusEndResult(st, Tag("eoc", None), target);
  }

  /** `{tag}` and `{tag:}` consume their line and change nothing. */
  lemma IgnoredTagLine(st: State, target: Option<PitchClass>)
    ensures LineResult(st, TagText(Tag("tag", None)), target) == Ok(st)
    ensures LineResult(st, TagText(Tag("tag:", None)), target) == Ok(st)
  {
    TagName();
    DirectiveLine(st, Tag("tag", None), IgnoredTag, target);
    TagColonName();
    BracedMatch("tag:");
    var s := TagText(Tag("tag:", None));
    assert s == "{" + "tag:" + "}";
    SplitWholeMatch(Tags, s);
    RunSectionsStep(LineState(st, [], []), [s], 0, target);
  }

  /** The comment-block arms on their own: the line goes on with no spans. */
  lemma CommentModeResult(st: State, t: Tag, on: bool, target: Option<PitchClass>)
    ensures Finish(ApplyTag(LineState(st, [], []), if on then StartOfComments else EndOfComments, t, target))
      == Ok(Push(st.(comment := on), FromText([])))
  {
    var switched := LineState(st.(comment := on), [], []);
    assert ApplyTag(LineState(st, [], []), if on then StartOfComments else EndOfComments, t, target) == Continue(switched);
  }

  /** `{soh}` starts a comment block and `{eoh}` ends it; either line goes on and
      ends as an empty lyric line. */
  lemma CommentModeLine(st: State, target: Option<PitchClass>)
    ensures LineResult(st, TagText(Tag("soh", None)), target) == Ok(Push(st.(comment := true), FromText([])))
    ensures LineResult(st, TagText(Tag("eoh", None)), target) == Ok(Push(st.(comment := false), FromText([])))
  {
    SohName();
    DirectiveLine(st, Tag("soh", None), StartOfComments, target);
    CommentModeResult(st, Tag("soh", None), true, target);
    EohName();
    DirectiveLine(st, Tag("eoh", None), EndOfComments, target);
    CommentModeResult(st, Tag("eoh", None), false, target);
  }

  /** The comment arm on its own. */
  lemma CommentArmResult(st: State, arg: string, target: Option<PitchClass>)
    ensures Finish(ApplyTag(LineState(st, [], []), CommentTag, Tag("c", Some(arg)), target))
      == Ok(Push(st, FromText(Marked([Span(arg, Comment)], st.chorus))))
  {
    var ls := LineState(st, [], [Span(arg, Comment)]);
    assert ApplyTag(LineState(st, [], []), CommentTag, Tag("c", Some(arg)), target) == Continue(ls);
  }

  /** `{c:..}` adds one lyric line holding its argument, untrimmed and comment-styled,
      behind the chorus marker inside a chorus. */
  lemma CommentLine(st: State, arg: string, target: Option<PitchClass>)
    requires Readable(Tag("c", Some(arg)))
    ensures LineResult(st, TagText(Tag("c", Some(arg))), target)
      == Ok(Push(st, FromText(Marked([Span(arg, Comment)], st.chorus))))
  {
    DirectiveLine(st, Tag("c", Some(arg)), CommentTag, target);
    CommentArmResult(st, arg, target);
  }

  /** A line without tags, outside a comment block, goes through `parse_chords` as a
      whole; it panics only when its transposition cannot be applied. */
  lemma LyricLine(st: State, line: string, target: Option<PitchClass>)
    requires FindFrom(Tags, line, 0).None? && !st.comment
    ensures LineResult(st, line, target) ==
      if !Shiftable(line, st.transposition) then Err(IntervalOutOfRange(st.transposition))
      else
        var r := ChordRuns(line, [], [], st.transposition);
        Ok(EndLine(LineState(st, r.chords, r.text)))
  {
    SplitNoMatch(Tags, line);
    if line == [] {
      SplitNoMatch(Chords, line);
      assert AlignRows([], 0, 0, st.transposition) == Rows([], []);
    } else {
      RunSectionsStep(LineState(st, [], []), [line], 0, target);
    }
  }

  /** A lyric line without tags or chords, outside a comment block, adds itself as
      one plain span (none when it is empty), behind the chorus marker inside a
      chorus, and no chord run. */
  lemma PlainLyricLine(st: State, line: string, target: Option<PitchClass>)
    requires FindFrom(Tags, line, 0).None? && !st.comment
    requires forall k :: 0 <= k < |Split(Chords, line)| ==> ChordCapture(Split(Chords, line)[k]).None?
    ensures LineResult(st, line, target) == Ok(Push(st, FromText(Marked(RowSpans(line, Plain), st.chorus))))
  {
    LineWithoutChords(line, [], [], st.transposition);
    LyricLine(st, line, target);
    assert [] + RowSpans(line, Plain) == RowSpans(line, Plain);
  }

  /** Inside a comment block a line without tags is added whole, comment-styled, with
      no chord run and no transposing. */
  lemma CommentBlockLine(st: State, line: string, target: Option<PitchClass>)
    requires FindFrom(Tags, line, 0).None? && st.comment
    ensures LineResult(st, line, target) == Ok(Push(st, FromText(Marked(RowSpans(line, Comment), st.chorus))))
  {
    SplitNoMatch(Tags, line);
    if line != [] {
      RunSectionsStep(LineState(st, [], []), [line], 0, target);
      assert [] + [Span(line, Comment)] == RowSpans(line, Comment);
    }
  }

  /** No span of `run` has `style`. */
  predicate NoStyle(run: Spans, style: Style) {
    forall k :: 0 <= k < |run| ==> run[k].style != style
  }

  /** A chord run as `Song::new` builds it: not empty, and chord spans only, apart
      from the chorus marker. */
  predicate IsChordRun(run: Spans) {
    run != [] && forall k :: 0 <= k < |run| ==> run[k].style == Chord || run[k] == ChorusMarker
  }

  /** The shape of every line of a song: a subtitle line, or a lyric run without
      title-styled or chord spans, under an optional chord run. */
  predicate WellFormed(line: SongLine) {
    line.text.Some?
    && ((line.chords.None? && |line.text.value| == 1 && line.text.value[0].style == Title)
        || (NoStyle(line.text.value, Title) && NoStyle(line.text.value, Chord)
            && (line.chords.Some? ==> IsChordRun(line.chords.value))))
  }

  predicate AllWellFormed(lines: seq<SongLine>) {
    forall k :: 0 <= k < |lines| ==> WellFormed(lines[k])
  }

  /** The runs of an unfinished line: chord spans above, lyric and comment spans below. */
  predicate GoodRuns(ls: LineState) {
    NoStyle(ls.text, Title) && NoStyle(ls.text, Chord)
    && forall k :: 0 <= k < |ls.chords| ==> ls.chords[k].style == Chord
  }

  /** How a line may change the song: the song text is the same, the lines only
      grow, by at most one, and every line stays well formed. */
  predicate Grows(before: Song, after: Song) {
    after.songstring == before.songstring
    && before.text <= after.text && |after.text| <= |before.text| + 1
    && (AllWellFormed(before.text) ==> AllWellFormed(after.text))
  }

  /** What a piece of a line may do: going on, it keeps the runs in shape and the
      song as it was; ending the line, it adds at most one well-formed line. */
  predicate KeepsShape(ls: LineState, o: Outcome) {
    (o.Continue? ==> (GoodRuns(o.line) && o.line.state.song == ls.state.song))
    && (o.NextLine? ==> Grows(ls.state.song, o.state.song))
  }

  /** Adding a well-formed line keeps every line well formed. */
  lemma PushWellFormed(lines: seq<SongLine>, line: SongLine)
    requires AllWellFormed(lines) && WellFormed(line)
    ensures AllWellFormed(lines + [line])
  {
    forall k | 0 <= k < |lines| + 1 ensures WellFormed((lines + [line])[k]) {
      if k < |lines| { assert (lines + [line])[k] == lines[k]; }
    }
  }

  /** The subtitle arm adds one line, a subtitle line. */
  lemma SubtitleKeepsShape(ls: LineState, t: Tag)
    ensures KeepsShape(ls, SubtitleArm(ls.state, t.name, t.arg))
  {
    if t.arg.Some? {
      var line := SubtitleLine(Trim(t.arg.value));
      assert WellFormed(line);
      if AllWellFormed(ls.state.song.text) {
        PushWellFormed(ls.state.song.text, line);
      }
    }
  }

  /** The comment arm adds a comment span below. */
  lemma CommentKeepsShape(ls: LineState, t: Tag)
    requires GoodRuns(ls)
    ensures KeepsShape(ls, CommentArm(ls, t.name, t.arg))
  {
    if t.arg.Some? {
      var text := ls.text + [Span(t.arg.value, Comment)];
      forall k | 0 <= k < |text| ensures text[k].style != Title && text[k].style != Chord {
        if k < |ls.text| { assert text[k] == ls.text[k]; }
      }
    }
  }

  /** Every directive keeps the shape; only the subtitle adds a line. */
  lemma DirectiveKeepsShape(ls: LineState, d: Directive, t: Tag, target: Option<PitchClass>)
    requires GoodRuns(ls)
    ensures KeepsShape(ls, ApplyTag(ls, d, t, target))
  {
    var st := ls.state;
    match d {
      case TitleTag => assert ApplyTag(ls, TitleTag, t, target) == TitleArm(st, t.name, t.arg);
      case SubtitleTag =>
        assert ApplyTag(ls, SubtitleTag, t, target) == SubtitleArm(st, t.name, t.arg);
        SubtitleKeepsShape(ls, t);
      case KeyTag => assert ApplyTag(ls, KeyTag, t, target) == KeyArm(st, t.name, t.arg, target);
      case CapoTag => assert ApplyTag(ls, CapoTag, t, target) == CapoArm(ls, t.name, t.arg);
      case CommentTag =>
        assert ApplyTag(ls, CommentTag, t, target) == CommentArm(ls, t.name, t.arg);
        CommentKeepsShape(ls, t);
      case _ =>
    }
  }

  /** Lyrics add plain spans below and chord spans above; comments add comment spans. */
  lemma LyricsKeepShape(ls: LineState, section: string)
    requires GoodRuns(ls)
    ensures KeepsShape(ls, Lyrics(ls, section))
  {
    if !ls.state.comment && Shiftable(section, ls.state.transposition) {
      var rows := AlignRows(Split(Chords, section), Width(ls.chords), Width(ls.text), ls.state.transposition);
      var r := ChordRuns(section, ls.chords, ls.text, ls.state.transposition);
      assert r.chords == ls.chords + RowSpans(rows.cs, Chord);
      assert r.text == ls.text + RowSpans(rows.ls, Plain);
    }
  }

  /** The pieces of a line keep the runs in shape, and end the line adding at most
      one well-formed line. */
  lemma {:induction false} SectionsKeepShape(ls: LineState, sections: seq<string>, target: Option<PitchClass>)
    requires GoodRuns(ls)
    ensures KeepsShape(ls, RunSections(ls, sections, target))
    decreases |sections|
  {
    if sections != [] {
      var cap := TagCapture(sections[0]);
      if cap.Some? {
        DirectiveKeepsShape(ls, DirectiveOf(cap.value.name), cap.value, target);
      } else {
        LyricsKeepShape(ls, sections[0]);
      }
      var o := SectionStep(ls, sections[0], target);
      if o.Continue? {
        SectionsKeepShape(o.line, sections[1..], target);
      }
    }
  }

  /** A finished line is well formed. */
  lemma EndLineWellFormed(ls: LineState)
    requires GoodRuns(ls)
    ensures Grows(ls.state.song, EndLine(ls).song)
  {
    var chords := Marked(ls.chords, ls.state.chorus);
    var text := Marked(ls.text, ls.state.chorus);
    assert NoStyle(text, Title) && NoStyle(text, Chord) by {
      if ls.state.chorus && ls.text != [] {
        forall k | 1 <= k < |text| ensures text[k] == ls.text[k - 1] { }
      }
    }
    if chords != [] {
      assert IsChordRun(chords) by {
        if ls.state.chorus {
          forall k | 1 <= k < |chords| ensures chords[k] == ls.chords[k - 1] { }
        }
      }
      assert WellFormed(From(chords, text));
    } else {
      assert WellFormed(FromText(text));
    }
  }

  /** The lines a directive that consumes its line adds: the subtitle line for
      `st`/`subtitle`, none for the others. */
  function ConsumedAdds(d: Directive, t: Tag): seq<SongLine> {
    if d == SubtitleTag && t.arg.Some? then [SubtitleLine(Trim(t.arg.value))] else []
  }

  /** Text outside tags never ends the line, and leaves the state as it was. */
  lemma LyricsGoOn(ls: LineState, section: string)
    ensures Lyrics(ls, section).Continue? || Lyrics(ls, section).Fail?
    ensures Lyrics(ls, section).Continue? ==> Lyrics(ls, section).line.state == ls.state
  {
  }

  /** A directive that lets the line go on leaves the song as it was. */
  lemma GoingArmKeepsSong(ls: LineState, d: Directive, t: Tag, target: Option<PitchClass>)
    requires !ConsumesLine(d)
    ensures ApplyTag(ls, d, t, target).Continue? ==> ApplyTag(ls, d, t, target).line.state.song == ls.state.song
  {
    var o := ApplyTag(ls, d, t, target);
    if d == CapoTag {
      assert o == CapoArm(ls, t.name, t.arg);
    } else if d == CommentTag {
      assert o == CommentArm(ls, t.name, t.arg);
    }
  }

  /** A directive that ends the line adds the subtitle line if it is `st`, and no
      line otherwise. */
  lemma ConsumingArmAdds(ls: LineState, d: Directive, t: Tag, target: Option<PitchClass>)
    requires ConsumesLine(d)
    ensures var o := ApplyTag(ls, d, t, target);
      o.NextLine? ==> o.state.song.text == ls.state.song.text + ConsumedAdds(d, t)
  {
    var st := ls.state;
    var o := ApplyTag(ls, d, t, target);
    if d == TitleTag {
      assert o == TitleArm(st, t.name, t.arg);
    } else if d == SubtitleTag {
      assert o == SubtitleArm(st, t.name, t.arg);
    } else if d == KeyTag {
      assert o == KeyArm(st, t.name, t.arg, target);
    }
  }

  /** One piece: going on leaves the song as it was; ending the line takes a
      directive that consumes it, which adds only its `ConsumedAdds`. */
  lemma StepSong(ls: LineState, section: string, target: Option<PitchClass>)
    ensures var o := SectionStep(ls, section, target); var cap := TagCapture(section);
      (o.Continue? ==> o.line.state.song == ls.state.song)
      && (o.NextLine? ==>
            (cap.Some? && ConsumesLine(DirectiveOf(cap.value.name))
             && o.state.song.text == ls.state.song.text + ConsumedAdds(DirectiveOf(cap.value.name), cap.value)))
  {
    var cap := TagCapture(section);
    if cap.Some? {
      var d := DirectiveOf(cap.value.name);
      DirectiveEndsLine(ls, d, cap.value, target);
      if ConsumesLine(d) {
        ConsumingArmAdds(ls, d, cap.value, target);
      } else {
        GoingArmKeepsSong(ls, d, cap.value, target);
      }
    } else {
      LyricsGoOn(ls, section);
    }
  }

  /** What the pieces of a line do to the song, given their outcome `o` and the
      tag `stop` of the piece that ends the line: when they run out the song is
      `before`; when one ends the line it is a directive that consumes the line,
      and the song gains only that directive's `ConsumedAdds`. */
  predicate SongRuleOf(before: Song, o: Outcome, stop: Option<Tag>) {
    (o.Continue? ==> stop.None? && o.line.state.song == before)
    && (o.Fail? ==> stop.None?)
    && (o.NextLine? ==>
          (stop.Some? && ConsumesLine(DirectiveOf(stop.value.name))
           && o.state.song.text == before.text + ConsumedAdds(DirectiveOf(stop.value.name), stop.value)))
  }

  predicate SongRule(ls: LineState, sections: seq<string>, target: Option<PitchClass>) {
    SongRuleOf(ls.state.song, RunSections(ls, sections, target), StopTag(ls, sections, target))
  }

  /** The first piece ends the line or panics. */
  lemma SongRuleStop(ls: LineState, sections: seq<string>, target: Option<PitchClass>)
    requires sections != [] && !SectionStep(ls, sections[0], target).Continue?
    ensures SongRule(ls, sections, target)
  {
    StepSong(ls, sections[0], target);
    assert RunSections(ls, sections, target) == SectionStep(ls, sections[0], target);
  }

  /** The first piece lets the line go on, and the rest keep the rule. */
  lemma SongRuleGoOn(ls: LineState, sections: seq<string>, target: Option<PitchClass>)
    requires sections != [] && SectionStep(ls, sections[0], target).Continue?
    requires SongRule(SectionStep(ls, sections[0], target).line, sections[1..], target)
    ensures SongRule(ls, sections, target)
  {
    var o := SectionStep(ls, sections[0], target);
    StepSong(ls, sections[0], target);
    assert RunSections(ls, sections, target) == RunSections(o.line, sections[1..], target);
    assert StopTag(ls, sections, target) == StopTag(o.line, sections[1..], target);
  }

  /** The pieces of a line keep `SongRule`. */
  lemma {:induction false} SectionsSong(ls: LineState, sections: seq<string>, target: Option<PitchClass>)
    ensures SongRule(ls, sections, target)
    decreases |sections|
  {
    if sections == [] {
      assert RunSections(ls, sections, target) == Continue(ls);
    } else if SectionStep(ls, sections[0], target).Continue? {
      SectionsSong(SectionStep(ls, sections[0], target).line, sections[1..], target);
      SongRuleGoOn(ls, sections, target);
    } else {
      SongRuleStop(ls, sections, target);
    }
  }

  /** The tag that ends the line is the capture of the piece at `StopIndex`. */
  lemma {:induction false} StopTagAt(ls: LineState, sections: seq<string>, target: Option<PitchClass>)
    ensures var i := StopIndex(ls, sections, target); var t := StopTag(ls, sections, target);
      (i.Some? <==> t.Some?) && (i.Some? ==> t == TagCapture(sections[i.value]))
    decreases |sections|
  {
    if sections != [] {
      var o := SectionStep(ls, sections[0], target);
      if o.Continue? {
        StopTagAt(o.line, sections[1..], target);
        var rest := StopIndex(o.line, sections[1..], target);
        if rest.Some? {
          CaptureOfTail(sections, rest.value);
        }
      } else if o.NextLine? {
        StepSong(ls, sections[0], target);
      }
    }
  }

  lemma CaptureOfTail(sections: seq<string>, k: nat)
    requires k + 1 < |sections|
    ensures TagCapture(sections[1..][k]) == TagCapture(sections[k + 1])
  {
    assert sections[1..][k] == sections[k + 1];
  }

  /** Each line of the song text adds at most one well-formed line to the song and
      keeps the lines before it. Exactly: a line whose pieces all go on adds the
      one line `FinishedLine` builds from its runs; a line that a directive consumes
      adds that directive's `ConsumedAdds` (the subtitle line for `st`, else
      nothing). */
  lemma LineGrowsSong(st: State, line: string, target: Option<PitchClass>)
    ensures LineResult(st, line, target).Ok? ==> Grows(st.song, LineResult(st, line, target).value.song)
    ensures var r := LineResult(st, line, target); var sections := Split(Tags, line);
      var ls := LineState(st, [], []); var o := RunSections(ls, sections, target);
      var stop := StopIndex(ls, sections, target);
      r.Ok? ==>
        ((stop.None? ==> o.Continue? && r.value.song.text == st.song.text + [FinishedLine(o.line)])
         && (stop.Some? ==>
               (var cap := TagCapture(sections[stop.value]);
                cap.Some? && ConsumesLine(DirectiveOf(cap.value.name))
                && r.value.song.text == st.song.text + ConsumedAdds(DirectiveOf(cap.value.name), cap.value))))
  {
    var ls := LineState(st, [], []);
    var o := RunSections(ls, Split(Tags, line), target);
    SectionsKeepShape(ls, Split(Tags, line), target);
    SectionsSong(ls, Split(Tags, line), target);
    StopTagAt(ls, Split(Tags, line), target);
    if o.Continue? {
      EndLineWellFormed(o.line);
    }
  }

  /** The lines of the song text, one after the other, keep the song text and only
      add lines, at most one per line of text, all well formed. */
  lemma {:induction false} LinesGrowSong(st: State, lines: seq<string>, target: Option<PitchClass>)
    requires AllWellFormed(st.song.text)
    ensures var r := RunLines(st, lines, target);
      r.Ok? ==> (r.value.song.songstring == st.song.songstring
        && st.song.text <= r.value.song.text && |r.value.song.text| <= |st.song.text| + |lines|
        && AllWellFormed(r.value.song.text))
    decreases |lines|
  {
    if lines != [] {
      LineGrowsSong(st, lines[0], target);
      var r := LineResult(st, lines[0], target);
      if r.Ok? {
        LinesGrowSong(r.value, lines[1..], target);
      }
    }
  }

  /** Every song `Song::new` builds keeps the normalised text, which holds no
      carriage return, has at most one line per line of that text, and only
      well-formed lines. */
  lemma SongShape(songstring: string, target: Option<PitchClass>)
    ensures var r := ParsedSong(songstring, target);
      r.Ok? ==> (r.value.songstring == NormalizeNewlines(songstring)
        && '\r' !in r.value.songstring
        && |r.value.text| <= |Lines(r.value.songstring)|
        && AllWellFormed(r.value.text))
  {
    var s := NormalizeNewlines(songstring);
    LinesGrowSong(Initial(s), Lines(s), target);
    NormalizedHasNoCR(songstring);
  }
}
