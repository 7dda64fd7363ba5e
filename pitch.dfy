/** Pitch classes and chord transposition as `parse_chords` uses them
    (src/parser.rs:293-301): every root-note match in a chord is parsed with
    `PitchClass::from_str`, moved up by `Interval::from_semitone(((t + 12) % 12) as u8)`
    with `PitchClass::from_interval`, and printed back with `to_string`. */
module Pitch {
  import opened Text
  import opened Patterns
  import opened Tokenizer

  /** A pitch class: the number of semitones above C. */
  type PitchClass = p: int | 0 <= p < 12

  /** The pitch class of a natural note letter. */
  function LetterPitch(c: char): PitchClass
    requires IsRootLetter(c)
  {
    match c
    case 'C' => 0
    case 'D' => 2
    case 'E' => 4
    case 'F' => 5
    case 'G' => 7
    case 'A' => 9
    case _ => 11
  }

  /** `PitchClass::from_str` on a note letter, optionally raised by `#` or lowered
      by `b`; any other text is read as no pitch. */
  function FromStr(s: string): (r: Option<PitchClass>)
    ensures r.Some? <==> 1 <= |s| <= 2 && IsRootLetter(s[0]) && (|s| == 2 ==> IsAccidental(s[1]))
  {
    if |s| == 1 && IsRootLetter(s[0]) then Some(LetterPitch(s[0]))
    else if |s| == 2 && IsRootLetter(s[0]) && s[1] == '#' then Some(if s[0] == 'B' then 0 else LetterPitch(s[0]) + 1)
    else if |s| == 2 && IsRootLetter(s[0]) && s[1] == 'b' then Some(if s[0] == 'C' then 11 else LetterPitch(s[0]) - 1)
    else None
  }

  /** The spelling `to_string` gives each pitch class. */
  const Names: seq<string> := ["C", "C#", "D", "D#", "E", "F", "F#", "G", "G#", "A", "A#", "B"]

  function Name(p: PitchClass): string {
    Names[p]
  }

  /** Every name reads back as its own pitch class. */
  lemma NameRoundTrip(p: PitchClass)
    ensures FromStr(Name(p)) == Some(p)
  {
  }

  /** Every root-note match parses, so the `unwrap` at src/parser.rs:297 never fails. */
  lemma RootMatchParses(s: string, i: nat)
    requires MatchEnd(RootNote, s, i).Some?
    ensures FromStr(s[i..MatchEnd(RootNote, s, i).value]).Some?
  {
    var e := MatchEnd(RootNote, s, i).value;
    assert s[i..e][0] == s[i];
    if e == i + 2 { assert s[i..e][1] == s[i + 1]; }
  }

  /** Moving a pitch class up by `n` semitones around the twelve-tone circle. */
  function Shift(p: PitchClass, n: int): PitchClass {
    (p + n) % 12
  }

  /** Shifting is a group action of the integers: by nothing is the identity, and
      shifting twice is shifting once by the sum. */
  lemma ShiftIdentity(p: PitchClass)
    ensures Shift(p, 0) == p
  {
  }

  lemma ShiftCompose(p: PitchClass, a: int, b: int)
    ensures Shift(Shift(p, a), b) == Shift(p, a + b)
  {
    var q := (p + a) % 12;
    var k := (p + a) / 12;
    assert p + a == 12 * k + q;
    assert q + b == (p + a + b) - 12 * k;
    ModShift(p + a + b, k);
  }

  lemma ModShift(x: int, k: int)
    ensures (x - 12 * k) % 12 == x % 12
    decreases if k >= 0 then k else -k
  {
    if k > 0 {
      ModShift(x, k - 1);
      assert x - 12 * k == (x - 12 * (k - 1)) - 12;
    } else if k < 0 {
      ModShift(x, k + 1);
      assert x - 12 * k == (x - 12 * (k + 1)) + 12;
    }
  }

  /** The semitone count the parser computes, `(t + 12) % 12` with Rust's truncating `%`. */
  function Semitones(t: int): int {
    RustRem12(t + 12)
  }

  /** `Interval::from_semitone` gets that count cast to `u8`; a negative count wraps
      to 245 or more, which is not an interval, and the `unwrap` at
      src/parser.rs:298 panics. */
  predicate ValidShift(t: int) {
    Semitones(t) >= 0
  }

  /** The count is a valid interval exactly when `t >= -12` or `t` is a multiple of
      twelve, and then moving by it is shifting by `t`. */
  lemma ValidShiftMeans(t: int)
    ensures ValidShift(t) <==> t >= -12 || t % 12 == 0
    ensures ValidShift(t) ==> Semitones(t) == t % 12
  {
    ModShift(t + 12, 1);
  }

  /** `PitchClass::from_interval`. */
  function FromInterval(p: PitchClass, semitones: nat): PitchClass {
    (p + semitones) % 12
  }

  /** What the closure at src/parser.rs:295-301 makes of one root-note match. */
  function RootName(m: string, t: int): string {
    match FromStr(m)
    case Some(p) => Name(FromInterval(p, if Semitones(t) >= 0 then Semitones(t) else 0))
    case None => m
  }

  /** `RE_ROOT_NOTE.replace_all(chord_tag, ..)`: each root note in the chord moved by `t`. */
  function TransposeChord(chord: string, t: int): string {
    ReplaceAll(RootNote, chord, m => RootName(m, t))
  }

  /** A note letter, optionally followed by an accidental: one root-note match. */
  predicate IsRoot(r: string) {
    1 <= |r| <= 2 && IsRootLetter(r[0]) && (|r| == 2 ==> IsAccidental(r[1]))
  }

  predicate HasRootLetter(s: string) {
    exists i :: 0 <= i < |s| && IsRootLetter(s[i])
  }

  /** No root-note match starts at or after `last` when no note letter is there. */
  lemma {:induction false} NoRootFrom(s: string, last: nat)
    requires last <= |s|
    requires forall j :: last <= j < |s| ==> !IsRootLetter(s[j])
    ensures FindFrom(RootNote, s, last).None?
    decreases |s| - last
  {
    if last < |s| {
      NoRootFrom(s, last + 1);
    }
  }

  /** A chord without a note letter comes through untouched, whatever `t` is. */
  lemma NoRootUnchanged(chord: string, t: int)
    requires !HasRootLetter(chord)
    ensures TransposeChord(chord, t) == chord
  {
    NoRootFrom(chord, 0);
    ReplaceStep(RootNote, chord, 0, m => RootName(m, t));
  }

  /** On a root, the replacement closure gives the name of the shifted pitch. */
  lemma RootNameShifts(r: string, t: int)
    requires IsRoot(r) && ValidShift(t)
    ensures RootName(r, t) == Name(Shift(FromStr(r).value, t))
  {
    var p := FromStr(r).value;
    ValidShiftMeans(t);
    var k := t / 12;
    assert Semitones(t) == t - 12 * k;
    ModShift(p + t, k);
    assert FromInterval(p, Semitones(t)) == Shift(p, t);
  }

  /** The first root-note match of `r + suffix` is `r`, and none follows it. */
  lemma RootSuffixMatches(r: string, suffix: string)
    requires IsRoot(r) && !HasRootLetter(suffix)
    requires |r| == 1 && suffix != [] ==> !IsAccidental(suffix[0])
    ensures FindFrom(RootNote, r + suffix, 0) == Some((0 as nat, |r| as nat))
    ensures FindFrom(RootNote, r + suffix, |r|).None?
  {
    var s := r + suffix;
    assert s[0] == r[0];
    if |r| == 2 { assert s[1] == r[1]; }
    assert MatchEnd(RootNote, s, 0) == Some(|r|);
    forall j | |r| <= j < |s| ensures !IsRootLetter(s[j]) {
      assert s[j] == suffix[j - |r|];
    }
    NoRootFrom(s, |r|);
  }

  /** A root followed by a suffix without note letters (`Am7`, `F#sus4`, `Bb`): the
      root is replaced by the name of the shifted pitch and the suffix is kept. A
      one-letter root must not be followed by an accidental, or the two would be
      read together as the root. */
  lemma TransposeRootSuffix(r: string, suffix: string, t: int)
    requires IsRoot(r) && ValidShift(t) && !HasRootLetter(suffix)
    requires |r| == 1 && suffix != [] ==> !IsAccidental(suffix[0])
    ensures TransposeChord(r + suffix, t) == Name(Shift(FromStr(r).value, t)) + suffix
  {
    var s := r + suffix;
    var f: string -> string := m => RootName(m, t);
    RootSuffixMatches(r, suffix);
    ReplaceStep(RootNote, s, 0, f);
    ReplaceStep(RootNote, s, |r|, f);
    assert s[0..|r|] == r && s[0..0] == [] && s[|r|..] == suffix;
    assert ReplaceAll(RootNote, s, f) == f(r) + suffix;
    RootNameShifts(r, t);
  }

  /** Transposing such a chord twice is transposing it once by the sum of the two
      shifts, as long as its suffix does not start with an accidental that a
      one-letter name of the first result would swallow. */
  lemma TransposeTwice(r: string, suffix: string, a: int, b: int)
    requires IsRoot(r) && !HasRootLetter(suffix)
    requires suffix != [] ==> !IsAccidental(suffix[0])
    requires ValidShift(a) && ValidShift(b) && ValidShift(a + b)
    ensures TransposeChord(TransposeChord(r + suffix, a), b) == TransposeChord(r + suffix, a + b)
  {
    var p := FromStr(r).value;
    TransposeRootSuffix(r, suffix, a);
    var q := Shift(p, a);
    NameRoundTrip(q);
    TransposeRootSuffix(Name(q), suffix, b);
    TransposeRootSuffix(r, suffix, a + b);
    ShiftCompose(p, a, b);
  }

  /** Reference reading of the closure at src/parser.rs:295-301: a root becomes the
      name of its pitch moved by `t` semitones; other text stays as it is. */
  function ShiftedRoot(m: string, t: int): string {
    if IsRoot(m) then Name(Shift(FromStr(m).value, t)) else m
  }

  /** Transposing a chord, whatever it holds (slash-chord bass notes included),
      replaces each of its root-note matches by the name of that root's pitch
      moved by `t`, and keeps every other character. */
  lemma TransposeShiftsEveryRoot(chord: string, t: int)
    requires ValidShift(t)
    ensures TransposeChord(chord, t) == ReplaceAll(RootNote, chord, m => ShiftedRoot(m, t))
  {
    var f: string -> string := m => RootName(m, t);
    var g: string -> string := m => ShiftedRoot(m, t);
    forall i | 0 <= i && MatchEnd(RootNote, chord, i).Some?
      ensures f(chord[i..MatchEnd(RootNote, chord, i).value]) == g(chord[i..MatchEnd(RootNote, chord, i).value])
    {
      var r := chord[i..MatchEnd(RootNote, chord, i).value];
      RootMatchParses(chord, i);
      RootNameShifts(r, t);
    }
    ReplaceFromAgree(RootNote, chord, 0, f, g);
  }

  /** The four parts of `w + x + y + z`, as slices. */
  lemma FourParts(w: string, x: string, y: string, z: string)
    ensures var s := w + x + y + z; var a := |w| + |x|; var e := a + |y|;
      s[..|w|] == w && s[|w|..a] == x && s[a..e] == y && s[e..] == z
  {
    var s := w + x + y + z;
    assert s == w + (x + (y + z));
    assert s[|w|..] == x + (y + z);
    assert s[|w| + |x|..] == y + z;
  }

  /** Where the root-note matches of a slash chord lie: the root, then the bass
      note, then none. */
  lemma SlashMatches(r1: string, mid: string, r2: string, suffix: string)
    requires IsRoot(r1) && IsRoot(r2)
    requires !HasRootLetter(mid) && !HasRootLetter(suffix)
    requires |r1| == 1 && mid != [] ==> !IsAccidental(mid[0])
    requires |r2| == 1 && suffix != [] ==> !IsAccidental(suffix[0])
    ensures var s := r1 + mid + r2 + suffix; var b: nat := |r1|; var a: nat := b + |mid|; var e: nat := a + |r2|;
      FindFrom(RootNote, s, 0) == Some((0, b))
      && FindFrom(RootNote, s, b) == Some((a, e))
      && FindFrom(RootNote, s, e).None?
  {
    var s := r1 + mid + r2 + suffix;
    var a := |r1| + |mid|;
    var e := a + |r2|;
    FourParts(r1, mid, r2, suffix);
    if |r1| == 1 && 1 < |s| {
      if mid != [] { assert s[1] == mid[0]; } else { assert s[1] == r2[0]; }
    }
    if |r2| == 1 && e < |s| {
      assert s[e] == suffix[0];
    }
    FirstRootMatch(s, 0, r1);
    FirstRootMatch(s, a, r2);
    forall k | |r1| <= k < a ensures MatchEnd(RootNote, s, k).None? {
      assert s[k] == mid[k - |r1|];
    }
    FindFromSkips(RootNote, s, |r1|, a);
    forall k | e <= k < |s| ensures !IsRootLetter(s[k]) {
      assert s[k] == suffix[k - e];
    }
    NoRootFrom(s, e);
  }

  /** A slash chord such as `D/F#` or `Am7/G`: both the root and the bass note are
      moved by `t`, and the text around them is kept. */
  lemma TransposeSlashChord(r1: string, mid: string, r2: string, suffix: string, t: int)
    requires IsRoot(r1) && IsRoot(r2) && ValidShift(t)
    requires !HasRootLetter(mid) && !HasRootLetter(suffix)
    requires |r1| == 1 && mid != [] ==> !IsAccidental(mid[0])
    requires |r2| == 1 && suffix != [] ==> !IsAccidental(suffix[0])
    ensures TransposeChord(r1 + mid + r2 + suffix, t)
      == Name(Shift(FromStr(r1).value, t)) + mid + Name(Shift(FromStr(r2).value, t)) + suffix
  {
    var s := r1 + mid + r2 + suffix;
    var a := |r1| + |mid|;
    var e := a + |r2|;
    var f: string -> string := m => RootName(m, t);
    SlashMatches(r1, mid, r2, suffix);
    ReplaceTwoMatches(RootNote, s, 0, |r1|, a, e, f);
    FourParts(r1, mid, r2, suffix);
    RootNameShifts(r1, t);
    RootNameShifts(r2, t);
  }

  /** A root written at `i` whose one letter is not followed by an accidental is the
      match found from `i`. */
  lemma FirstRootMatch(s: string, i: nat, r: string)
    requires IsRoot(r) && i + |r| <= |s| && s[i..i + |r|] == r
    requires |r| == 1 && i + 1 < |s| ==> !IsAccidental(s[i + 1])
    ensures FindFrom(RootNote, s, i) == Some((i, i + |r|))
  {
    assert s[i] == r[0];
    if |r| == 2 { assert s[i + 1] == r[1]; }
  }
}
