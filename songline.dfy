/** Display lines of a song (src/parser.rs:17-142): a `SongLine` holds an optional
    run of chords and an optional run of lyrics, each a sequence of styled spans.
    A span's width is its number of characters. */
module SongLines {
  import opened Text

  /** The style tag a span carries in place of its colours. */
  datatype Style = Plain | Chord | Comment | Title

  datatype Span = Span(content: string, style: Style)

  /** One run of spans, shown on one screen row. */
  type Spans = seq<Span>

  datatype SongLine = SongLine(chords: Option<Spans>, text: Option<Spans>)

  function From(chords: Spans, text: Spans): SongLine {
    SongLine(Some(chords), Some(text))
  }

  function FromText(text: Spans): SongLine {
    SongLine(None, Some(text))
  }

  function FromChords(chords: Spans): SongLine {
    SongLine(Some(chords), None)
  }

  /** `Spans::width`: the widths of the spans added up. */
  function Width(spans: Spans): nat {
    if spans == [] then 0 else |spans[0].content| + Width(spans[1..])
  }

  /** The text of a run, its spans' contents one after another. */
  function Content(spans: Spans): string {
    if spans == [] then [] else spans[0].content + Content(spans[1..])
  }

  lemma {:induction false} WidthAppend(a: Spans, b: Spans)
    ensures Width(a + b) == Width(a) + Width(b)
  {
    if a != [] {
      assert (a + b)[1..] == a[1..] + b;
      WidthAppend(a[1..], b);
    } else {
      assert a + b == b;
    }
  }

  lemma {:induction false} ContentAppend(a: Spans, b: Spans)
    ensures Content(a + b) == Content(a) + Content(b)
  {
    if a != [] {
      assert (a + b)[1..] == a[1..] + b;
      ContentAppend(a[1..], b);
    } else {
      assert a + b == b;
    }
  }

  /** The width of a run is the length of its text. */
  lemma {:induction false} WidthIsContentLength(spans: Spans)
    ensures Width(spans) == |Content(spans)|
  {
    if spans != [] {
      WidthIsContentLength(spans[1..]);
    }
  }

  /** `SongLine::width`: the wider of the runs present, 0 for an empty line. */
  function LineWidth(line: SongLine): nat {
    match (line.chords, line.text)
    case (Some(c), Some(t)) => if Width(c) >= Width(t) then Width(c) else Width(t)
    case (Some(c), None) => Width(c)
    case (None, Some(t)) => Width(t)
    case (None, None) => 0
  }

  /** `SongLine::height`: the number of screen rows the line takes. */
  function Height(line: SongLine): nat {
    match (line.chords, line.text)
    case (Some(_), Some(_)) => 2
    case (Some(_), None) => 1
    case (None, Some(_)) => 1
    case (None, None) => 0
  }

  /** `SongLine::to_spans`: the runs present, chords first. */
  function ToSpans(line: SongLine): seq<Spans> {
    match (line.chords, line.text)
    case (Some(c), Some(t)) => [c, t]
    case (Some(c), None) => [c]
    case (None, Some(t)) => [t]
    case (None, None) => []
  }

  /** `to_spans` gives exactly `height` runs, each of them one the line holds:
      the chords first and the lyrics last. */
  lemma RowsAreRuns(line: SongLine)
    ensures |ToSpans(line)| == Height(line) <= 2
    ensures line.chords.Some? ==> ToSpans(line)[0] == line.chords.value
    ensures line.text.Some? ==> ToSpans(line)[Height(line) - 1] == line.text.value
    ensures forall r :: r in ToSpans(line) <==> (line.chords == Some(r) || line.text == Some(r))
  {
  }

  /** `width` is the largest width among the rows `to_spans` gives, or 0 when
      there is no row. */
  lemma WidthIsWidestRow(line: SongLine)
    ensures forall r :: r in ToSpans(line) ==> Width(r) <= LineWidth(line)
    ensures ToSpans(line) == [] ==> LineWidth(line) == 0
    ensures ToSpans(line) != [] ==> exists r :: r in ToSpans(line) && Width(r) == LineWidth(line)
  {
    var rows := ToSpans(line);
    if rows != [] {
      if line.chords.Some? && Width(line.chords.value) == LineWidth(line) {
        assert line.chords.value in rows;
      } else {
        assert line.text.value in rows;
      }
    }
  }

  /** The two halves `split_spans` builds. */
  datatype Cut = Cut(left: Spans, right: Spans)

  /** The loop at src/parser.rs:110-131 over `spans`, with `w` the width already
      placed on the left: a span that straddles `index` is cut in two with its
      style kept, a span that starts before `index` goes left, any other goes right. */
  function CutFrom(spans: Spans, index: nat, w: nat): Cut
    decreases |spans|
  {
    if spans == [] then Cut([], [])
    else
      var sp := spans[0];
      var sw := |sp.content|;
      var rest := CutFrom(spans[1..], index, if w < index then w + sw else w);
      if w + sw > index && w < index then
        Cut([Span(sp.content[..index - w], sp.style)] + rest.left, [Span(sp.content[index - w..], sp.style)] + rest.right)
      else if w < index then Cut([sp] + rest.left, rest.right)
      else Cut(rest.left, [sp] + rest.right)
  }

  /** `split_spans` as its loop intends: the run itself when `index` is not inside
      it, else the two halves. */
  function Halves(spans: Spans, index: nat): seq<Spans> {
    if index >= Width(spans) then [spans]
    else
      var c := CutFrom(spans, index, 0);
      [c.left, c.right]
  }

  /** One turn of the loop: the first span's place, and the rest cut from the
      width it leaves. */
  lemma CutStep(spans: Spans, index: nat, w: nat)
    requires spans != []
    ensures var sp := spans[0];
      var sw := |sp.content|;
      var rest := CutFrom(spans[1..], index, if w < index then w + sw else w);
      CutFrom(spans, index, w)
      == if w + sw > index && w < index then
           Cut([Span(sp.content[..index - w], sp.style)] + rest.left, [Span(sp.content[index - w..], sp.style)] + rest.right)
         else if w < index then Cut([sp] + rest.left, rest.right)
         else Cut(rest.left, [sp] + rest.right)
  {
  }

  /** The loop's accumulators `left` and `right`, with the cut of the spans from `i`
      on placed after them, make up the cut of the whole run. */
  ghost predicate Accumulated(spans: Spans, index: nat, i: nat, w: nat, left: Spans, right: Spans, whole: Cut)
    requires i <= |spans|
  {
    left + CutFrom(spans[i..], index, w).left == whole.left
    && right + CutFrom(spans[i..], index, w).right == whole.right
  }

  /** A span that straddles `index` is cut in two, its halves pushed on each side. */
  lemma StepStraddles(spans: Spans, index: nat, i: nat, w: nat, left: Spans, right: Spans, whole: Cut)
    requires i < |spans| && w < index < w + |spans[i].content|
    requires Accumulated(spans, index, i, w, left, right, whole)
    ensures var sp := spans[i];
      Accumulated(spans, index, i + 1, w + |sp.content|,
        left + [Span(sp.content[..index - w], sp.style)], right + [Span(sp.content[index - w..], sp.style)], whole)
  {
    var sp := spans[i];
    var tail := spans[i..];
    assert tail[0] == sp && tail[1..] == spans[i + 1..];
    var rest := CutFrom(spans[i + 1..], index, w + |sp.content|);
    var l, r := Span(sp.content[..index - w], sp.style), Span(sp.content[index - w..], sp.style);
    CutStraddles(tail, index, w);
    assert left + ([l] + rest.left) == (left + [l]) + rest.left;
    assert right + ([r] + rest.right) == (right + [r]) + rest.right;
  }

  /** A span that ends at or before `index` is pushed on the left whole. */
  lemma StepGoesLeft(spans: Spans, index: nat, i: nat, w: nat, left: Spans, right: Spans, whole: Cut)
    requires i < |spans| && w < index && w + |spans[i].content| <= index
    requires Accumulated(spans, index, i, w, left, right, whole)
    ensures Accumulated(spans, index, i + 1, w + |spans[i].content|, left + [spans[i]], right, whole)
  {
    var sp := spans[i];
    var tail := spans[i..];
    assert tail[0] == sp && tail[1..] == spans[i + 1..];
    var rest := CutFrom(spans[i + 1..], index, w + |sp.content|);
    CutGoesLeft(tail, index, w);
    assert left + ([sp] + rest.left) == (left + [sp]) + rest.left;
  }

  /** A span that starts at or after `index` is pushed on the right whole. */
  lemma StepGoesRight(spans: Spans, index: nat, i: nat, w: nat, left: Spans, right: Spans, whole: Cut)
    requires i < |spans| && index <= w
    requires Accumulated(spans, index, i, w, left, right, whole)
    ensures Accumulated(spans, index, i + 1, w, left, right + [spans[i]], whole)
  {
    var sp := spans[i];
    var tail := spans[i..];
    assert tail[0] == sp && tail[1..] == spans[i + 1..];
    var rest := CutFrom(spans[i + 1..], index, w);
    CutGoesRight(tail, index, w);
    assert right + ([sp] + rest.right) == (right + [sp]) + rest.right;
  }

  /** `split_spans` (src/parser.rs:93-131), with the loop's accumulators `left`,
      `right` and `spanswidth`. */
  method SplitSpans(spans: Spans, index: nat) returns (parts: seq<Spans>)
    ensures parts == Halves(spans, index)
  {
    if index >= Width(spans) {
      return [spans];
    }
    ghost var whole := CutFrom(spans, index, 0);
    var left: Spans := [];
    var right: Spans := [];
    var spanswidth: nat := 0;
    for i := 0 to |spans|
      invariant Accumulated(spans, index, i, spanswidth, left, right, whole)
    {
      var span := spans[i];
      var spanwidth := |span.content|;
      if spanswidth + spanwidth > index && spanswidth < index {
        StepStraddles(spans, index, i, spanswidth, left, right, whole);
        var spanLeft := Span(span.content[..index - spanswidth], span.style);
        var spanRight := Span(span.content[index - spanswidth..], span.style);
        spanswidth := spanswidth + spanwidth;
        left := left + [spanLeft];
        right := right + [spanRight];
      } else if spanswidth < index {
        StepGoesLeft(spans, index, i, spanswidth, left, right, whole);
        spanswidth := spanswidth + spanwidth;
        left := left + [span];
      } else {
        StepGoesRight(spans, index, i, spanswidth, left, right, whole);
        right := right + [span];
      }
    }
    assert CutFrom(spans[|spans|..], index, spanswidth) == Cut([], []);
    assert left + [] == left && right + [] == right;
    parts := [left, right];
  }

  /** Once the placed width has reached `index`, every remaining span goes right. */
  lemma {:induction false} CutAllRight(spans: Spans, index: nat, w: nat)
    requires w >= index
    ensures CutFrom(spans, index, w) == Cut([], spans)
  {
    if spans != [] {
      CutAllRight(spans[1..], index, w);
    }
  }

  /** The cut falls between spans `k - 1` and `k`, after `index - w` columns. */
  ghost predicate CutBetween(spans: Spans, index: nat, w: nat, k: int, c: Cut) {
    0 <= k <= |spans| && w + Width(spans[..k]) == index && c == Cut(spans[..k], spans[k..])
  }

  /** The cut falls inside span `k`, which becomes two spans of its style. */
  ghost predicate CutInside(spans: Spans, index: nat, w: nat, k: int, c: Cut) {
    0 <= k < |spans| && w + Width(spans[..k]) < index < w + Width(spans[..k]) + |spans[k].content|
    && var at := index - w - Width(spans[..k]);
    c == Cut(spans[..k] + [Span(spans[k].content[..at], spans[k].style)],
             [Span(spans[k].content[at..], spans[k].style)] + spans[k + 1..])
  }

  /** With the placed width at `index` the cut falls before the first span. */
  lemma CutAtStart(spans: Spans, index: nat, w: nat)
    requires w == index
    ensures CutBetween(spans, index, w, 0, CutFrom(spans, index, w))
  {
    CutAllRight(spans, index, w);
    assert spans[..0] == [] && spans[0..] == spans;
  }

  /** With `index` inside the first span the cut falls inside it. */
  lemma CutInFirst(spans: Spans, index: nat, w: nat)
    requires spans != [] && w < index < w + |spans[0].content|
    ensures CutInside(spans, index, w, 0, CutFrom(spans, index, w))
  {
    CutStraddles(spans, index, w);
    CutAllRight(spans[1..], index, w + |spans[0].content|);
    assert spans[..0] == [];
  }

  /** A first span that straddles `index` is cut in two. */
  lemma CutStraddles(spans: Spans, index: nat, w: nat)
    requires spans != [] && w < index < w + |spans[0].content|
    ensures var sp := spans[0];
      var rest := CutFrom(spans[1..], index, w + |sp.content|);
      CutFrom(spans, index, w)
      == Cut([Span(sp.content[..index - w], sp.style)] + rest.left, [Span(sp.content[index - w..], sp.style)] + rest.right)
  {
  }

  /** A first span that ends at or before `index` goes left whole. */
  lemma CutGoesLeft(spans: Spans, index: nat, w: nat)
    requires spans != [] && w < index && w + |spans[0].content| <= index
    ensures var rest := CutFrom(spans[1..], index, w + |spans[0].content|);
      CutFrom(spans, index, w) == Cut([spans[0]] + rest.left, rest.right)
  {
  }

  /** Placed before the cut of the spans after it, a first span that goes left
      moves a cut between spans one span on. */
  lemma CutBetweenLater(spans: Spans, index: nat, w: nat, k: nat)
    requires spans != [] && w < index && w + |spans[0].content| <= index
    requires CutBetween(spans[1..], index, w + |spans[0].content|, k, CutFrom(spans[1..], index, w + |spans[0].content|))
    ensures CutBetween(spans, index, w, k + 1, CutFrom(spans, index, w))
  {
    var sp, rest := spans[0], spans[1..];
    CutGoesLeft(spans, index, w);
    assert spans[..k + 1] == [sp] + rest[..k];
    assert spans[k + 1..] == rest[k..];
    WidthAppend([sp], rest[..k]);
    assert Width([sp]) == |sp.content|;
  }

  /** A first span that starts at or after `index` goes right whole. */
  lemma CutGoesRight(spans: Spans, index: nat, w: nat)
    requires spans != [] && index <= w
    ensures var rest := CutFrom(spans[1..], index, w);
      CutFrom(spans, index, w) == Cut(rest.left, [spans[0]] + rest.right)
  {
  }

  /** Likewise for a cut inside a span. */
  lemma CutInsideLater(spans: Spans, index: nat, w: nat, k: nat)
    requires spans != [] && w < index && w + |spans[0].content| <= index
    requires CutInside(spans[1..], index, w + |spans[0].content|, k, CutFrom(spans[1..], index, w + |spans[0].content|))
    ensures CutInside(spans, index, w, k + 1, CutFrom(spans, index, w))
  {
    var sp, rest := spans[0], spans[1..];
    CutGoesLeft(spans, index, w);
    assert spans[..k + 1] == [sp] + rest[..k];
    assert spans[k + 1] == rest[k];
    assert spans[k + 2..] == rest[k + 1..];
    WidthAppend([sp], rest[..k]);
    assert Width([sp]) == |sp.content|;
  }

  /** Where the cut lies when `index` is inside the run: between two spans or
      inside one, every other span copied unchanged to its side. */
  lemma {:induction false} CutShape(spans: Spans, index: nat, w: nat) returns (k: nat)
    requires w <= index < w + Width(spans)
    ensures CutBetween(spans, index, w, k, CutFrom(spans, index, w)) || CutInside(spans, index, w, k, CutFrom(spans, index, w))
    decreases |spans|
  {
    var sw := |spans[0].content|;
    if w == index {
      CutAtStart(spans, index, w);
      k := 0;
    } else if w + sw > index {
      CutInFirst(spans, index, w);
      k := 0;
    } else {
      var k' := CutShape(spans[1..], index, w + sw);
      if CutBetween(spans[1..], index, w + sw, k', CutFrom(spans[1..], index, w + sw)) {
        CutBetweenLater(spans, index, w, k');
      } else {
        CutInsideLater(spans, index, w, k');
      }
      k := k' + 1;
    }
  }

  /** A cut between spans leaves the text as it was. */
  lemma CutBetweenKeepsText(spans: Spans, index: nat, k: nat)
    requires CutBetween(spans, index, 0, k, CutFrom(spans, index, 0))
    ensures Content(CutFrom(spans, index, 0).left) + Content(CutFrom(spans, index, 0).right) == Content(spans)
  {
    assert spans == spans[..k] + spans[k..];
    ContentAppend(spans[..k], spans[k..]);
  }

  /** The text of a run that starts with `sp`. */
  lemma ContentCons(sp: Span, post: Spans)
    ensures Content([sp] + post) == sp.content + Content(post)
  {
    assert ([sp] + post)[1..] == post;
  }

  /** Cutting span `sp` after `at` columns, behind run `pre`: the left side is `at`
      wider than `pre`. */
  lemma CutSpanWidth(pre: Spans, sp: Span, at: nat)
    requires at <= |sp.content|
    ensures Width(pre + [Span(sp.content[..at], sp.style)]) == Width(pre) + at
  {
    WidthAppend(pre, [Span(sp.content[..at], sp.style)]);
  }

  /** The text of a run of one span. */
  lemma ContentOne(sp: Span)
    ensures Content([sp]) == sp.content
  {
    assert [sp][1..] == [];
  }

  /** Cutting span `sp` after `at` columns, between runs `pre` and `post`: the two
      sides together hold the text. */
  lemma CutSpanContent(pre: Spans, sp: Span, post: Spans, at: nat)
    requires at <= |sp.content|
    ensures Content(pre + [Span(sp.content[..at], sp.style)]) + Content([Span(sp.content[at..], sp.style)] + post)
      == Content(pre + [sp] + post)
  {
    var l := Span(sp.content[..at], sp.style);
    var r := Span(sp.content[at..], sp.style);
    var c, d := Content(pre), Content(post);
    var x, y := sp.content[..at], sp.content[at..];
    assert x + y == sp.content;
    calc {
      Content(pre + [l]) + Content([r] + post);
    == { ContentAppend(pre, [l]); ContentOne(l); ContentCons(r, post); }
      (c + x) + (y + d);
    ==
      c + (sp.content + d);
    == { ContentCons(sp, post); }
      c + Content([sp] + post);
    == { ContentAppend(pre, [sp] + post); }
      Content(pre + ([sp] + post));
    == { assert pre + ([sp] + post) == pre + [sp] + post; }
      Content(pre + [sp] + post);
    }
  }

  /** A cut inside a span leaves a left half exactly `index` wide, and the text as it was. */
  lemma CutInsideKeepsText(spans: Spans, index: nat, k: nat)
    requires CutInside(spans, index, 0, k, CutFrom(spans, index, 0))
    ensures Width(CutFrom(spans, index, 0).left) == index
    ensures Content(CutFrom(spans, index, 0).left) + Content(CutFrom(spans, index, 0).right) == Content(spans)
  {
    var pre, sp, post := spans[..k], spans[k], spans[k + 1..];
    CutSpanWidth(pre, sp, index - Width(pre));
    CutSpanContent(pre, sp, post, index - Width(pre));
    assert spans == pre + [sp] + post;
  }

  /** For `index` inside the run the halves are: a left half exactly `index` wide,
      a right half holding the rest of the text, and a cut between two spans or
      inside one span, as the two predicates above say. For any other `index` the
      run comes back whole. */
  lemma HalvesSpec(spans: Spans, index: nat)
    ensures index >= Width(spans) ==> Halves(spans, index) == [spans]
    ensures index < Width(spans) ==> |Halves(spans, index)| == 2
    ensures index < Width(spans) ==> Width(Halves(spans, index)[0]) == index
    ensures index < Width(spans) ==> Content(Halves(spans, index)[0]) + Content(Halves(spans, index)[1]) == Content(spans)
    ensures index < Width(spans) ==> exists k :: CutBetween(spans, index, 0, k, CutFrom(spans, index, 0)) || CutInside(spans, index, 0, k, CutFrom(spans, index, 0))
  {
    if index < Width(spans) {
      var k := CutShape(spans, index, 0);
      if CutBetween(spans, index, 0, k, CutFrom(spans, index, 0)) {
        CutBetweenKeepsText(spans, index, k);
      } else {
        CutInsideKeepsText(spans, index, k);
      }
    }
  }

  /** The error `split_at` reports. */
  datatype SplitError = IndexOutOfRange(index: nat, width: nat) | NoContent

  function ChordLines(runs: seq<Spans>): (r: seq<SongLine>)
    ensures |r| == |runs|
  {
    if runs == [] then [] else [FromChords(runs[0])] + ChordLines(runs[1..])
  }

  function TextLines(runs: seq<Spans>): (r: seq<SongLine>)
    ensures |r| == |runs|
  {
    if runs == [] then [] else [FromText(runs[0])] + TextLines(runs[1..])
  }

  /** `zip` of the two lists of halves, which stops at the shorter one. */
  function ZipLines(chords: seq<Spans>, text: seq<Spans>): (r: seq<SongLine>)
    ensures |r| == if |chords| <= |text| then |chords| else |text|
  {
    if chords == [] || text == [] then [] else [From(chords[0], text[0])] + ZipLines(chords[1..], text[1..])
  }

  /** `SongLine::split_at` as written (src/parser.rs:62-91): the lyrics-only branch
      builds chord-only lines, and the zip keeps only as many lines as the run
      that was split into fewer halves. */
  function SplitAt(line: SongLine, index: nat): Result<seq<SongLine>, SplitError> {
    if index >= LineWidth(line) then Err(IndexOutOfRange(index, LineWidth(line)))
    else match (line.chords, line.text)
      case (Some(c), Some(t)) => Ok(ZipLines(Halves(c, index), Halves(t, index)))
      case (Some(c), None) => Ok(ChordLines(Halves(c, index)))
      case (None, Some(t)) => Ok(ChordLines(Halves(t, index)))
      case (None, None) => Err(NoContent)
  }

  /** `split_at` fails exactly when `index` is not inside the line; a line with
      neither run is therefore always refused. */
  lemma SplitAtRefuses(line: SongLine, index: nat)
    ensures SplitAt(line, index).Err? <==> index >= LineWidth(line)
    ensures SplitAt(line, index).Err? ==> SplitAt(line, index).error == IndexOutOfRange(index, LineWidth(line))
    ensures SplitAt(SongLine(None, None), index).Err?
  {
  }

  /** As written, splitting a lyrics-only line gives chord-only lines. */
  lemma SplitAtLyricsBecomeChords(t: Spans, index: nat)
    requires index < Width(t)
    ensures SplitAt(FromText(t), index).Ok?
    ensures var parts := SplitAt(FromText(t), index).value;
      |parts| == 2 && forall p :: p in parts ==> p.chords.Some? && p.text.None?
  {
    HalvesSpec(t, index);
    var h := Halves(t, index);
    assert ChordLines(h) == [FromChords(h[0]), FromChords(h[1])] by {
      assert h[1..][1..] == [];
    }
  }

  /** As written, when `index` lies inside the wider run but not inside the
      narrower one, the zip keeps one line and the right half of the wider run is
      lost. With chords "G " and lyrics "Hello", `split_at(3)` gives one line whose
      lyrics are "Hel". */
  lemma SplitAtLosesTail(c: Spans, t: Spans, index: nat)
    requires Width(c) <= index < Width(t)
    ensures SplitAt(From(c, t), index) == Ok([From(c, Halves(t, index)[0])])
    ensures Content(Halves(t, index)[0]) != Content(t)
  {
    HalvesSpec(t, index);
    WidthIsContentLength(t);
    WidthIsContentLength(Halves(t, index)[0]);
    var h := Halves(t, index);
    assert Halves(c, index) == [c];
    assert ZipLines([c], h) == [From(c, h[0])] + ZipLines([c][1..], h[1..]);
    assert [c][1..] == [];
    assert ZipLines([c], h) == [From(c, h[0])];
    assert LineWidth(From(c, t)) == Width(t);
  }

  /** The mirror case: when `index` lies inside the chords but past the lyrics,
      the right half of the chords is lost. */
  lemma SplitAtLosesChordTail(c: Spans, t: Spans, index: nat)
    requires Width(t) <= index < Width(c)
    ensures SplitAt(From(c, t), index) == Ok([From(Halves(c, index)[0], t)])
    ensures Content(Halves(c, index)[0]) != Content(c)
  {
    HalvesSpec(c, index);
    WidthIsContentLength(c);
    WidthIsContentLength(Halves(c, index)[0]);
    var h := Halves(c, index);
    assert Halves(t, index) == [t];
    assert ZipLines(h, [t]) == [From(h[0], t)] + ZipLines(h[1..], [t][1..]);
    assert [t][1..] == [];
    assert ZipLines(h, [t]) == [From(h[0], t)];
    assert LineWidth(From(c, t)) == Width(c);
  }

  lemma SplitAtLosesTailExample()
    ensures SplitAt(From([Span("G ", Chord)], [Span("Hello", Plain)]), 3)
            == Ok([From([Span("G ", Chord)], [Span("Hel", Plain)])])
  {
    var t := [Span("Hello", Plain)];
    assert Width(t) == 5;
    assert Width([Span("G ", Chord)]) == 2;
    SplitAtLosesTail([Span("G ", Chord)], t, 3);
    assert CutFrom(t, 3, 0).left == [Span("Hel", Plain)] by {
      CutStep(t, 3, 0);
      assert t[1..] == [];
      assert CutFrom([], 3, 5) == Cut([], []);
      assert "Hello"[..3] == "Hel";
    }
  }

  /** The halves of a run for a split of the line: its own halves when `index`
      is inside it, else the whole run and an empty one. */
  function PairedHalves(spans: Spans, index: nat): seq<Spans> {
    if index >= Width(spans) then [spans, []] else Halves(spans, index)
  }

  /** `split_at` as evidently intended: every run present is split in two, and the
      lyrics stay lyrics. */
  function SplitAtFixed(line: SongLine, index: nat): Result<seq<SongLine>, SplitError> {
    if index >= LineWidth(line) then Err(IndexOutOfRange(index, LineWidth(line)))
    else match (line.chords, line.text)
      case (Some(c), Some(t)) => Ok(ZipLines(PairedHalves(c, index), PairedHalves(t, index)))
      case (Some(c), None) => Ok(ChordLines(PairedHalves(c, index)))
      case (None, Some(t)) => Ok(TextLines(PairedHalves(t, index)))
      case (None, None) => Err(NoContent)
  }

  lemma PairedHalvesSpec(spans: Spans, index: nat)
    ensures |PairedHalves(spans, index)| == 2
    ensures Width(PairedHalves(spans, index)[0]) == if index < Width(spans) then index else Width(spans)
    ensures Content(PairedHalves(spans, index)[0]) + Content(PairedHalves(spans, index)[1]) == Content(spans)
  {
    HalvesSpec(spans, index);
    if index >= Width(spans) {
      assert Content([]) == [];
      assert Content(spans) + [] == Content(spans);
    }
  }

  /** Both halves of a run present, in order, make up the run's text again. */
  ghost predicate KeepsRun(whole: Option<Spans>, first: Option<Spans>, second: Option<Spans>) {
    whole.Some? == first.Some? == second.Some?
    && (whole.Some? ==> Content(first.value) + Content(second.value) == Content(whole.value))
  }

  /** Two lines made of the halves of both runs. */
  lemma ZipTwo(hc: seq<Spans>, ht: seq<Spans>)
    requires |hc| == 2 && |ht| == 2
    ensures ZipLines(hc, ht) == [From(hc[0], ht[0]), From(hc[1], ht[1])]
  {
    assert hc[1..][1..] == [];
  }

  lemma ChordLinesTwo(h: seq<Spans>)
    requires |h| == 2
    ensures ChordLines(h) == [FromChords(h[0]), FromChords(h[1])]
  {
    assert h[1..][1..] == [];
  }

  lemma TextLinesTwo(h: seq<Spans>)
    requires |h| == 2
    ensures TextLines(h) == [FromText(h[0]), FromText(h[1])]
  {
    assert h[1..][1..] == [];
  }

  /** The corrected `split_at` refuses exactly the indices outside the line, and
      otherwise gives two lines that keep the runs the line has, lose no text, and
      whose first line is exactly `index` wide. */
  lemma SplitAtFixedSpec(line: SongLine, index: nat)
    ensures SplitAtFixed(line, index).Err? <==> index >= LineWidth(line)
    ensures SplitAtFixed(line, index).Ok? ==>
      var parts := SplitAtFixed(line, index).value;
      |parts| == 2
      && KeepsRun(line.chords, parts[0].chords, parts[1].chords)
      && KeepsRun(line.text, parts[0].text, parts[1].text)
      && LineWidth(parts[0]) == index
  {
    if index < LineWidth(line) {
      match (line.chords, line.text)
      case (Some(c), Some(t)) =>
        PairedHalvesSpec(c, index);
        PairedHalvesSpec(t, index);
        ZipTwo(PairedHalves(c, index), PairedHalves(t, index));
      case (Some(c), None) =>
        PairedHalvesSpec(c, index);
        ChordLinesTwo(PairedHalves(c, index));
      case (None, Some(t)) =>
        PairedHalvesSpec(t, index);
        TextLinesTwo(PairedHalves(t, index));
    }
  }
}
