/** `Song::get_name` (src/parser.rs:332-354): the label of a song in a list, made
    from its last title directive ("Untitled" when it has none) and its last
    subtitle directive, read from every tag of every line, consumed or not. */
module SongName {
  import opened Text
  import opened Patterns
  import opened Tokenizer

  /** The two variables of the loop: the title and the subtitle seen so far. */
  datatype Label = Label(title: string, subtitle: string)

  const Untitled: string := "Untitled"

  /** The two directives `get_name` reads. */
  datatype Field = TitleField | SubtitleField

  predicate Names(f: Field, name: string) {
    if f == TitleField then name == "t" || name == "title" else name == "st" || name == "subtitle"
  }

  /** A tag of one of the two kinds without an argument: the `unwrap` of its
      argument at src/parser.rs:343 or :345 panics. */
  predicate Panics(section: string) {
    var cap := TagCapture(section);
    cap.Some? && (Names(TitleField, cap.value.name) || Names(SubtitleField, cap.value.name)) && cap.value.arg.None?
  }

  /** `songstring` has no such tag on any line. */
  predicate NamesGiven(songstring: string) {
    var lines := Lines(NormalizeNewlines(songstring));
    forall i, j :: 0 <= i < |lines| && 0 <= j < |Split(Tags, lines[i])| ==> !Panics(Split(Tags, lines[i])[j])
  }

  /** The piece `section` sets field `f`. */
  predicate Gives(section: string, f: Field) {
    var cap := TagCapture(section);
    cap.Some? && cap.value.arg.Some? && Names(f, cap.value.name)
  }

  /** The value it sets the field to: its argument, trimmed. */
  function GivenArg(section: string): string
    requires TagCapture(section).Some? && TagCapture(section).value.arg.Some?
  {
    Trim(TagCapture(section).value.arg.value)
  }

  function Get(l: Label, f: Field): string {
    if f == TitleField then l.title else l.subtitle
  }

  /** The body of the inner loop (src/parser.rs:340-349) for one piece. */
  function NameStep(acc: Label, section: string): Label {
    if Gives(section, TitleField) then acc.(title := GivenArg(section))
    else if Gives(section, SubtitleField) then acc.(subtitle := GivenArg(section))
    else acc
  }

  /** The inner loop over the pieces of one line. */
  function ScanSections(acc: Label, sections: seq<string>): Label
    decreases |sections|
  {
    if sections == [] then acc else ScanSections(NameStep(acc, sections[0]), sections[1..])
  }

  /** The outer loop over the lines. */
  function ScanLines(acc: Label, lines: seq<string>): Label
    decreases |lines|
  {
    if lines == [] then acc else ScanLines(ScanSections(acc, Split(Tags, lines[0])), lines[1..])
  }

  /** The label: the title alone when the subtitle is empty, else both joined by " - ". */
  function Format(l: Label): string {
    if l.subtitle == [] then l.title else l.title + " - " + l.subtitle
  }

  /** What `get_name` returns. */
  function GetName(songstring: string): string
    requires NamesGiven(songstring)
  {
    Format(ScanLines(Label(Untitled, ""), Lines(NormalizeNewlines(songstring))))
  }

  /** All pieces of all lines, in order. */
  function Sections(lines: seq<string>): seq<string>
    decreases |lines|
  {
    if lines == [] then [] else Split(Tags, lines[0]) + Sections(lines[1..])
  }

  /** Reference definition, read from the end: the value the last piece that sets
      `f` sets it to, if any piece does. */
  function LastArg(sections: seq<string>, f: Field): Option<string>
    decreases |sections|
  {
    if sections == [] then None
    else
      var x := sections[|sections| - 1];
      if Gives(x, f) then Some(GivenArg(x)) else LastArg(sections[..|sections| - 1], f)
  }

  function Or(o: Option<string>, default: string): string {
    if o.Some? then o.value else default
  }

  /** The piece at `k` sets `f` and no later piece does. */
  predicate LastGiven(sections: seq<string>, f: Field, k: int) {
    0 <= k < |sections| && Gives(sections[k], f) && forall j :: k < j < |sections| ==> !Gives(sections[j], f)
  }

  /** One step of `LastArg`: the last piece, or else the pieces before it. */
  lemma LastArgStep(sections: seq<string>, f: Field)
    requires sections != []
    ensures var n := |sections| - 1;
      LastArg(sections, f) == if Gives(sections[n], f) then Some(GivenArg(sections[n])) else LastArg(sections[..n], f)
  {
  }

  /** `LastArg` is the last setting of the field. */
  lemma {:induction false} LastArgIsLast(sections: seq<string>, f: Field, k: int)
    requires LastGiven(sections, f, k)
    ensures LastArg(sections, f) == Some(GivenArg(sections[k]))
    decreases |sections|
  {
    var n := |sections| - 1;
    LastArgStep(sections, f);
    if k < n {
      var init := sections[..n];
      assert init[k] == sections[k];
      assert LastGiven(init, f, k) by {
        forall j | k < j < |init| ensures !Gives(init[j], f) { assert init[j] == sections[j]; }
      }
      LastArgIsLast(init, f, k);
    }
  }

  /** `LastArg` is nothing when no piece sets the field. */
  lemma {:induction false} LastArgNone(sections: seq<string>, f: Field)
    requires forall j :: 0 <= j < |sections| ==> !Gives(sections[j], f)
    ensures LastArg(sections, f).None?
    decreases |sections|
  {
    if sections != [] {
      var n := |sections| - 1;
      var init := sections[..n];
      LastArgStep(sections, f);
      forall j | 0 <= j < |init| ensures !Gives(init[j], f) { assert init[j] == sections[j]; }
      LastArgNone(init, f);
    }
  }

  /** A step at the end of the pieces is a step after scanning the ones before. */
  lemma {:induction false} ScanAppend(acc: Label, a: seq<string>, x: string)
    ensures ScanSections(acc, a + [x]) == NameStep(ScanSections(acc, a), x)
    decreases |a|
  {
    if a == [] {
      assert ([] + [x])[1..] == [];
    } else {
      assert (a + [x])[1..] == a[1..] + [x];
      ScanAppend(NameStep(acc, a[0]), a[1..], x);
    }
  }

  /** A step sets a field exactly when the piece sets that field. */
  lemma NameStepGet(acc: Label, x: string, f: Field)
    ensures Get(NameStep(acc, x), f) == if Gives(x, f) then GivenArg(x) else Get(acc, f)
  {
    if Gives(x, TitleField) {
      assert !Gives(x, SubtitleField);
    }
  }

  /** Scanning the pieces in order leaves a field at its last setting. */
  lemma {:induction false} ScanGetIsLast(acc: Label, sections: seq<string>, f: Field)
    ensures Get(ScanSections(acc, sections), f) == Or(LastArg(sections, f), Get(acc, f))
    decreases |sections|
  {
    if sections != [] {
      var n := |sections| - 1;
      var init := sections[..n];
      var x := sections[n];
      assert init + [x] == sections;
      ScanAppend(acc, init, x);
      ScanGetIsLast(acc, init, f);
      LastArgStep(sections, f);
      NameStepGet(ScanSections(acc, init), x, f);
    }
  }

  /** Scanning the pieces in order leaves each field at its last setting. */
  lemma ScanIsLast(acc: Label, sections: seq<string>)
    ensures ScanSections(acc, sections)
      == Label(Or(LastArg(sections, TitleField), acc.title), Or(LastArg(sections, SubtitleField), acc.subtitle))
  {
    ScanGetIsLast(acc, sections, TitleField);
    ScanGetIsLast(acc, sections, SubtitleField);
  }

  lemma {:induction false} ScanConcat(acc: Label, a: seq<string>, b: seq<string>)
    ensures ScanSections(acc, a + b) == ScanSections(ScanSections(acc, a), b)
    decreases |a|
  {
    if a == [] {
      assert [] + b == b;
    } else {
      assert (a + b)[1..] == a[1..] + b;
      ScanConcat(NameStep(acc, a[0]), a[1..], b);
    }
  }

  /** The two nested loops are one scan over all pieces of all lines. */
  lemma {:induction false} ScanLinesFlat(acc: Label, lines: seq<string>)
    ensures ScanLines(acc, lines) == ScanSections(acc, Sections(lines))
    decreases |lines|
  {
    if lines != [] {
      ScanConcat(acc, Split(Tags, lines[0]), Sections(lines[1..]));
      ScanLinesFlat(ScanSections(acc, Split(Tags, lines[0])), lines[1..]);
    }
  }

  /** The label is made from the last title directive, or "Untitled" without one,
      and the last subtitle directive, or none; a subtitle that trims to nothing
      leaves the title alone. */
  lemma GetNameSpec(songstring: string)
    requires NamesGiven(songstring)
    ensures var all := Sections(Lines(NormalizeNewlines(songstring)));
      var title := Or(LastArg(all, TitleField), Untitled);
      var subtitle := Or(LastArg(all, SubtitleField), "");
      GetName(songstring) == if subtitle == [] then title else title + " - " + subtitle
  {
    var lines := Lines(NormalizeNewlines(songstring));
    ScanLinesFlat(Label(Untitled, ""), lines);
    ScanIsLast(Label(Untitled, ""), Sections(lines));
  }

  /** A song without title or subtitle directives is "Untitled". */
  lemma UntitledWithoutDirectives(songstring: string)
    requires NamesGiven(songstring)
    requires var all := Sections(Lines(NormalizeNewlines(songstring)));
      forall j :: 0 <= j < |all| ==> !Gives(all[j], TitleField) && !Gives(all[j], SubtitleField)
    ensures GetName(songstring) == Untitled
  {
    var all := Sections(Lines(NormalizeNewlines(songstring)));
    GetNameSpec(songstring);
    LastArgNone(all, TitleField);
    LastArgNone(all, SubtitleField);
  }

  /** With its last title directive at `k`, and its last subtitle directive at `m`
      trimming to `sub`, the song is labelled "title - sub" (the title alone when
      `sub` is empty). */
  lemma LastDirectivesWin(songstring: string, k: int, m: int)
    requires NamesGiven(songstring)
    requires var all := Sections(Lines(NormalizeNewlines(songstring)));
      LastGiven(all, TitleField, k) && LastGiven(all, SubtitleField, m)
    ensures var all := Sections(Lines(NormalizeNewlines(songstring)));
      GetName(songstring) == Format(Label(GivenArg(all[k]), GivenArg(all[m])))
  {
    var all := Sections(Lines(NormalizeNewlines(songstring)));
    GetNameSpec(songstring);
    LastArgIsLast(all, TitleField, k);
    LastArgIsLast(all, SubtitleField, m);
  }

  /** `get_name`, its two nested loops updating `title` and `subtitle`. */
  method GetNameOf(songstring: string) returns (name: string)
    requires NamesGiven(songstring)
    ensures name == GetName(songstring)
  {
    var lines := Lines(NormalizeNewlines(songstring));
    var title := Untitled;
    var subtitle := "";
    for i := 0 to |lines|
      invariant ScanLines(Label(title, subtitle), lines[i..]) == ScanLines(Label(Untitled, ""), lines)
    {
      assert lines[i..][1..] == lines[i + 1..];
      var sections := RegexSplitKeep(Tags, lines[i]);
      for j := 0 to |sections|
        invariant ScanLines(ScanSections(Label(title, subtitle), sections[j..]), lines[i + 1..])
          == ScanLines(Label(Untitled, ""), lines)
      {
        assert sections[j..][1..] == sections[j + 1..];
        assert !Panics(sections[j]);
        var cap := TagCapture(sections[j]);
        if cap.Some? {
          var tagName := cap.value.name;
          if tagName == "t" || tagName == "title" {
            title := Trim(cap.value.arg.value);
          } else if tagName == "st" || tagName == "subtitle" {
            subtitle := Trim(cap.value.arg.value);
          }
        }
      }
      assert sections[|sections|..] == [];
    }
    assert lines[|lines|..] == [];
    if subtitle == [] {
      return title;
    }
    return title + " - " + subtitle;
  }
}
