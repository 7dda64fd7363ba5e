/** The parser's four regular expressions (src/parser.rs:10-15), each written out as
    the scanner it amounts to under the leftmost-first semantics of Rust's `regex`
    crate:
      Newlines  `(\n\r?|\r\n?)`
      Tags      `\{([^\{\}\n]+?)(?::([^\{\}\n]+))?\}\n?`
      Chords    `\[([^\n\[\]]*)\]`
      RootNote  `[ABCDEFG][b#]?`
    None of them matches the empty string. */
module Patterns {
  import opened Text

  datatype Pattern = Newlines | Tags | Chords | RootNote

  /** A directive tag's two capture groups: the name and the optional argument. */
  datatype Tag = Tag(name: string, arg: Option<string>)

  predicate IsTagChar(c: char) { c != '{' && c != '}' && c != '\n' }

  predicate IsChordChar(c: char) { c != '\n' && c != '[' && c != ']' }

  predicate IsRootLetter(c: char) { 'A' <= c <= 'G' }

  predicate IsAccidental(c: char) { c == 'b' || c == '#' }

  /** The characters a bracketed pattern allows between its delimiters. */
  predicate InRun(p: Pattern, c: char) {
    match p
    case Tags => IsTagChar(c)
    case Chords => IsChordChar(c)
    case _ => false
  }

  /** The first index at or after `k` whose character the pattern does not allow
      between its delimiters, or `|s|`. */
  function RunEnd(p: Pattern, s: string, k: nat): (j: nat)
    requires k <= |s|
    decreases |s| - k
    ensures k <= j <= |s|
    ensures forall i :: k <= i < j ==> InRun(p, s[i])
    ensures j < |s| ==> !InRun(p, s[j])
  {
    if k == |s| || !InRun(p, s[k]) then k else RunEnd(p, s, k + 1)
  }

  /** Where the match starting at `i` ends, if the pattern matches at `i`. A greedy
      optional part (`\r?`, `\n?`, `[b#]?`) is taken whenever it is there. */
  function MatchEnd(p: Pattern, s: string, i: nat): (r: Option<nat>)
    ensures r.Some? ==> i < r.value <= |s|
  {
    if i >= |s| then None
    else match p
      case Newlines =>
        if s[i] == '\n' then Some(if i + 1 < |s| && s[i + 1] == '\r' then i + 2 else i + 1)
        else if s[i] == '\r' then Some(if i + 1 < |s| && s[i + 1] == '\n' then i + 2 else i + 1)
        else None
      case Tags =>
        if s[i] != '{' then None
        else
          var j := RunEnd(Tags, s, i + 1);
          if j < |s| && s[j] == '}' && i + 1 < j
          then Some(if j + 1 < |s| && s[j + 1] == '\n' then j + 2 else j + 1)
          else None
      case Chords =>
        if s[i] != '[' then None
        else
          var j := RunEnd(Chords, s, i + 1);
          if j < |s| && s[j] == ']' then Some(j + 1) else None
      case RootNote =>
        if IsRootLetter(s[i]) then Some(if i + 1 < |s| && IsAccidental(s[i + 1]) then i + 2 else i + 1)
        else None
  }

  /** The leftmost match that starts at or after `i`, as (start, end). */
  function FindFrom(p: Pattern, s: string, i: nat): (r: Option<(nat, nat)>)
    requires i <= |s|
    decreases |s| - i
    ensures r.Some? ==> i <= r.value.0 < r.value.1 <= |s| && MatchEnd(p, s, r.value.0) == Some(r.value.1)
  {
    if i == |s| then None
    else if MatchEnd(p, s, i).Some? then Some((i, MatchEnd(p, s, i).value))
    else FindFrom(p, s, i + 1)
  }

  /** No match starts between `i` and the match `FindFrom` returns (or the end of
      the text, when it returns none). */
  lemma {:induction false} FindFromLeftmost(p: Pattern, s: string, i: nat)
    requires i <= |s|
    ensures var r := FindFrom(p, s, i);
      forall j :: i <= j < (if r.Some? then r.value.0 else |s|) ==> MatchEnd(p, s, j).None?
    decreases |s| - i
  {
    if i < |s| && MatchEnd(p, s, i).None? {
      FindFromLeftmost(p, s, i + 1);
    }
  }

  /** Positions where no match starts are skipped by the search. */
  lemma {:induction false} FindFromSkips(p: Pattern, s: string, i: nat, j: nat)
    requires i <= j <= |s|
    requires forall k :: i <= k < j ==> MatchEnd(p, s, k).None?
    ensures FindFrom(p, s, i) == FindFrom(p, s, j)
    decreases j - i
  {
    if i < j {
      FindFromSkips(p, s, i + 1, j);
    }
  }

  /** The first `:` at or after `k` that still has a character after it, or `|body|`. */
  function NameEnd(body: string, k: nat): (j: nat)
    requires 1 <= k <= |body|
    decreases |body| - k
    ensures k <= j <= |body|
    ensures j < |body| ==> body[j] == ':' && j + 1 < |body|
    ensures forall i :: k <= i < j && i + 1 < |body| ==> body[i] != ':'
  {
    if k + 1 >= |body| then |body|
    else if body[k] == ':' then k
    else NameEnd(body, k + 1)
  }

  /** How the tag pattern divides the text between the braces: the lazy name group
      stops at the first `:` (not the very first character) that still has at
      least one character after it; without such a `:` the whole text is the name
      and there is no argument. */
  function SplitTagBody(body: string): (t: Tag)
    requires body != []
    ensures t.name != []
    ensures t.arg.Some? ==> body == t.name + ":" + t.arg.value && t.arg.value != []
    ensures t.arg.Some? ==> forall i :: 1 <= i < |t.name| ==> t.name[i] != ':'
    ensures t.arg.None? ==> t.name == body && forall i :: 1 <= i < |body| - 1 ==> body[i] != ':'
  {
    var k := NameEnd(body, 1);
    if k < |body| then Tag(body[..k], Some(body[k + 1..])) else Tag(body, None)
  }

  /** The capture groups of the tag match that starts at `i`. */
  function TagAt(s: string, i: nat): Tag
    requires MatchEnd(Tags, s, i).Some?
  {
    SplitTagBody(s[i + 1..RunEnd(Tags, s, i + 1)])
  }

  /** The capture group of the chord match that starts at `i`: the text between the brackets. */
  function ChordAt(s: string, i: nat): string
    requires MatchEnd(Chords, s, i).Some?
  {
    s[i + 1..RunEnd(Chords, s, i + 1)]
  }

  /** `RE_TAGS.captures(section)`: the groups of the leftmost tag match, if any. */
  function TagCapture(section: string): Option<Tag> {
    match FindFrom(Tags, section, 0)
    case None => None
    case Some(m) => Some(TagAt(section, m.0))
  }

  /** `RE_CHORDS.captures(part)`: the group of the leftmost chord match, if any. */
  function ChordCapture(part: string): Option<string> {
    match FindFrom(Chords, part, 0)
    case None => None
    case Some(m) => Some(ChordAt(part, m.0))
  }

  lemma {:induction false} RunEndSlice(p: Pattern, s: string, x: nat, y: nat, k: nat)
    requires x + k <= y <= |s|
    ensures RunEnd(p, s[x..y], k) == (if RunEnd(p, s, x + k) < y then RunEnd(p, s, x + k) else y) - x
    decreases y - x - k
  {
    if x + k < y && InRun(p, s[x + k]) {
      assert s[x..y][k] == s[x + k];
      RunEndSlice(p, s, x, y, k + 1);
    } else if x + k < y {
      assert s[x..y][k] == s[x + k];
    }
  }

  /** A bracketed match found in a slice (see `MatchInSlice`). */
  lemma BracketInSlice(p: Pattern, s: string, x: nat, y: nat, k: nat)
    requires p == Tags || p == Chords
    requires x + k <= y <= |s|
    requires MatchEnd(p, s[x..y], k).Some?
    ensures MatchEnd(p, s, x + k).Some?
  {
    var t := s[x..y];
    assert t[k] == s[x + k];
    RunEndSlice(p, s, x, y, k + 1);
    var j := RunEnd(p, t, k + 1);
    assert t[j] == s[x + j];
  }

  /** A match found in a slice of `s` is a match of `s` at the same place: cutting
      text off can remove matches but never create one. */
  lemma MatchInSlice(p: Pattern, s: string, x: nat, y: nat, k: nat)
    requires x + k <= y <= |s|
    requires MatchEnd(p, s[x..y], k).Some?
    ensures MatchEnd(p, s, x + k).Some?
  {
    var t := s[x..y];
    assert t[k] == s[x + k];
    if p == Tags || p == Chords {
      BracketInSlice(p, s, x, y, k);
    }
  }

  /** A tag match taken on its own (see `MatchIsolated`). */
  lemma TagIsolated(s: string, i: nat)
    requires MatchEnd(Tags, s, i).Some?
    ensures var e := MatchEnd(Tags, s, i).value; MatchEnd(Tags, s[i..e], 0) == Some(e - i)
    ensures TagAt(s[i..MatchEnd(Tags, s, i).value], 0) == TagAt(s, i)
  {
    var e := MatchEnd(Tags, s, i).value;
    var t := s[i..e];
    assert t[0] == s[i];
    RunEndSlice(Tags, s, i, e, 1);
    var j := RunEnd(Tags, s, i + 1);
    assert t[j - i] == s[j];
    if j + 1 < e { assert t[j + 1 - i] == s[j + 1]; }
    assert t[1..j - i] == s[i + 1..j];
  }

  /** A chord match taken on its own (see `MatchIsolated`). */
  lemma ChordIsolated(s: string, i: nat)
    requires MatchEnd(Chords, s, i).Some?
    ensures var e := MatchEnd(Chords, s, i).value; MatchEnd(Chords, s[i..e], 0) == Some(e - i)
    ensures ChordAt(s[i..MatchEnd(Chords, s, i).value], 0) == ChordAt(s, i)
  {
    var e := MatchEnd(Chords, s, i).value;
    var t := s[i..e];
    assert t[0] == s[i];
    RunEndSlice(Chords, s, i, e, 1);
    var j := RunEnd(Chords, s, i + 1);
    assert t[j - i] == s[j];
    assert t[1..j - i] == s[i + 1..j];
  }

  /** The text of a match, taken on its own, is matched whole by the same pattern,
      with the same capture groups. */
  lemma MatchIsolated(p: Pattern, s: string, i: nat)
    requires MatchEnd(p, s, i).Some?
    ensures var e := MatchEnd(p, s, i).value; MatchEnd(p, s[i..e], 0) == Some(e - i)
    ensures p == Tags ==> TagAt(s[i..MatchEnd(p, s, i).value], 0) == TagAt(s, i)
    ensures p == Chords ==> ChordAt(s[i..MatchEnd(p, s, i).value], 0) == ChordAt(s, i)
  {
    var e := MatchEnd(p, s, i).value;
    var t := s[i..e];
    assert t[0] == s[i];
    if e > i + 1 { assert t[1] == s[i + 1]; }
    match p
    case Tags => TagIsolated(s, i);
    case Chords => ChordIsolated(s, i);
    case _ =>
  }

  /** A directive tag as a song writes it: `{name}` or `{name:arg}`. */
  function TagText(t: Tag): string {
    if t.arg.Some? then "{" + t.name + ":" + t.arg.value + "}" else "{" + t.name + "}"
  }

  /** A tag the pattern reads back as written: a non-empty name and argument made of
      characters allowed between the braces, and no `:` in the name after its first
      character (there the lazy name group would stop). */
  predicate Readable(t: Tag) {
    t.name != []
    && (forall i :: 0 <= i < |t.name| ==> IsTagChar(t.name[i]))
    && (forall i :: 1 <= i < |t.name| ==> t.name[i] != ':')
    && (t.arg.Some? ==> t.arg.value != [] && forall i :: 0 <= i < |t.arg.value| ==> IsTagChar(t.arg.value[i]))
  }

  /** A readable directive name takes any argument made of tag characters. */
  lemma ReadableWithArgument(name: string, arg: string)
    requires Readable(Tag(name, None))
    requires arg != [] && forall i :: 0 <= i < |arg| ==> IsTagChar(arg[i])
    ensures Readable(Tag(name, Some(arg)))
  {
  }

  /** The text a tag puts between its braces. */
  function TagBody(t: Tag): string {
    if t.arg.Some? then t.name + ":" + t.arg.value else t.name
  }

  /** The body of a readable tag is made of tag characters and divides back into
      the tag. */
  lemma BodyRoundTrip(t: Tag)
    requires Readable(t)
    ensures TagBody(t) != [] && forall i :: 0 <= i < |TagBody(t)| ==> IsTagChar(TagBody(t)[i])
    ensures SplitTagBody(TagBody(t)) == t
  {
    var body := TagBody(t);
    forall i | 0 <= i < |body| ensures IsTagChar(body[i]) {
      if t.arg.Some? && i > |t.name| {
        assert body[i] == t.arg.value[i - |t.name| - 1];
      }
    }
    if t.arg.Some? {
      assert body[|t.name|] == ':';
      assert body[..|t.name|] == t.name && body[|t.name| + 1..] == t.arg.value;
    } else {
      forall i | 1 <= i < |body| - 1 ensures body[i] != ':' { }
    }
  }

  /** The tag pattern matches a body of tag characters in braces whole, and its
      groups are read from that body. */
  lemma BracedMatch(body: string)
    requires body != [] && forall i :: 0 <= i < |body| ==> IsTagChar(body[i])
    ensures MatchEnd(Tags, "{" + body + "}", 0) == Some(|body| + 2)
    ensures TagCapture("{" + body + "}") == Some(SplitTagBody(body))
  {
    var s := "{" + body + "}";
    forall i | 1 <= i < |s| - 1 ensures IsTagChar(s[i]) {
      assert s[i] == body[i - 1];
    }
    var j := RunEnd(Tags, s, 1);
    assert s[|s| - 1] == '}' && !InRun(Tags, s[|s| - 1]);
    assert j == |s| - 1;
    assert s[1..j] == body;
  }

  /** Writing a readable tag and capturing it gives the tag back, and the match
      covers the whole text. */
  lemma TagRoundTrip(t: Tag)
    requires Readable(t)
    ensures MatchEnd(Tags, TagText(t), 0) == Some(|TagText(t)|)
    ensures TagCapture(TagText(t)) == Some(t)
  {
    BodyRoundTrip(t);
    BracedMatch(TagBody(t));
    assert TagText(t) == "{" + TagBody(t) + "}";
  }
}
