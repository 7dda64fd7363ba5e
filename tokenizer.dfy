/** `Song::regex_split_keep` (src/parser.rs:316-330), which cuts a line into the
    unmatched text and the matches of a pattern, in order, and `Regex::replace_all`
    as the parser uses it for line endings (src/parser.rs:162) and chord roots
    (src/parser.rs:295). */
module Tokenizer {
  import opened Text
  import opened Patterns

  /** The pieces of `s` from position `last` on: the leftmost match at or after
      `last`, preceded by the unmatched text before it when there is any, then the
      pieces after that match; with no match left, the rest of the text if any. */
  function SplitFrom(p: Pattern, s: string, last: nat): seq<string>
    requires last <= |s|
    decreases |s| - last
  {
    match FindFrom(p, s, last)
    case None => if last < |s| then [s[last..]] else []
    case Some(m) =>
      (if last != m.0 then [s[last..m.0]] else []) + [s[m.0..m.1]] + SplitFrom(p, s, m.1)
  }

  /** What `regex_split_keep` returns. */
  function Split(p: Pattern, s: string): seq<string> {
    SplitFrom(p, s, 0)
  }

  /** The unmatched text between `last` and `index`, as a piece when there is any. */
  function Gap(s: string, last: nat, index: nat): seq<string>
    requires last <= index <= |s|
  {
    if last != index then [s[last..index]] else []
  }

  /** Pushing the gap and the next match moves the split forward past that match. */
  lemma SplitAdvance(p: Pattern, s: string, last: nat, before: seq<string>, after: seq<string>)
    requires last <= |s| && FindFrom(p, s, last).Some?
    requires var m := FindFrom(p, s, last).value; after == before + Gap(s, last, m.0) + [s[m.0..m.1]]
    ensures before + SplitFrom(p, s, last) == after + SplitFrom(p, s, FindFrom(p, s, last).value.1)
  {
  }

  /** With no match left, pushing the rest of the text finishes the split. */
  lemma SplitFinish(p: Pattern, s: string, last: nat, before: seq<string>, after: seq<string>)
    requires last <= |s| && FindFrom(p, s, last).None?
    requires after == before + Gap(s, last, |s|)
    ensures before + SplitFrom(p, s, last) == after
  {
    assert s[last..|s|] == s[last..];
  }

  /** `regex_split_keep`: walks the leftmost non-overlapping matches (the iterator
      `match_indices`), pushing the text before each match when it is not empty,
      then the match, then whatever is left after the last match. */
  method RegexSplitKeep(p: Pattern, text: string) returns (result: seq<string>)
    ensures result == Split(p, text)
  {
    result := [];
    var last: nat := 0;
    var matched := FindFrom(p, text, 0);
    while matched.Some?
      invariant last <= |text|
      invariant matched == FindFrom(p, text, last)
      invariant result + SplitFrom(p, text, last) == Split(p, text)
      decreases |text| - last
    {
      var index := matched.value.0;
      var end := matched.value.1;
      ghost var before := result;
      if last != index {
        result := result + [text[last..index]];
      }
      result := result + [text[index..end]];
      SplitAdvance(p, text, last, before, result);
      last := end;
      matched := FindFrom(p, text, last);
    }
    ghost var before := result;
    if last < |text| {
      result := result + [text[last..]];
    }
    assert text[last..|text|] == text[last..];
    SplitFinish(p, text, last, before, result);
  }

  /** The pieces put back together give the text they were cut from. */
  lemma ConcatAround(pre: seq<string>, t: string, rest: seq<string>)
    ensures Concat(pre + [t] + rest) == Concat(pre) + t + Concat(rest)
  {
    ConcatAppend(pre + [t], rest);
    ConcatAppend(pre, [t]);
    assert Concat([t]) == t + Concat([]);
  }

  lemma ConcatGap(s: string, last: nat, index: nat)
    requires last <= index <= |s|
    ensures Concat(Gap(s, last, index)) == s[last..index]
  {
    if last != index {
      assert Concat([s[last..index]]) == s[last..index] + Concat([]);
    }
  }

  /** With a match ahead, the split is the gap, the match, and the split after it. */
  lemma SplitFromMatch(p: Pattern, s: string, last: nat)
    requires last <= |s| && FindFrom(p, s, last).Some?
    ensures var m := FindFrom(p, s, last).value;
      SplitFrom(p, s, last) == Gap(s, last, m.0) + [s[m.0..m.1]] + SplitFrom(p, s, m.1)
  {
  }

  lemma {:induction false} SplitFromConcat(p: Pattern, s: string, last: nat)
    requires last <= |s|
    ensures Concat(SplitFrom(p, s, last)) == s[last..]
    decreases |s| - last
  {
    var r := FindFrom(p, s, last);
    if r.None? {
      SplitFinish(p, s, last, [], Gap(s, last, |s|));
      ConcatGap(s, last, |s|);
    } else {
      var m := r.value;
      var pre := Gap(s, last, m.0);
      var t := s[m.0..m.1];
      var rest := SplitFrom(p, s, m.1);
      calc {
        Concat(SplitFrom(p, s, last));
      == { SplitFromMatch(p, s, last); }
        Concat(pre + [t] + rest);
      == { ConcatAround(pre, t, rest); }
        Concat(pre) + t + Concat(rest);
      == { ConcatGap(s, last, m.0); SplitFromConcat(p, s, m.1); }
        s[last..m.0] + t + s[m.1..];
      == { assert s[last..] == s[last..m.0] + s[m.0..m.1] + s[m.1..]; }
        s[last..];
      }
    }
  }

  /** Text without a match comes back as one piece, or none when it is empty. */
  lemma SplitNoMatch(p: Pattern, s: string)
    requires FindFrom(p, s, 0).None?
    ensures Split(p, s) == if s == [] then [] else [s]
  {
    assert s[0..] == s;
  }

  /** Text that is one match from start to end comes back as that one piece. */
  lemma SplitWholeMatch(p: Pattern, s: string)
    requires MatchEnd(p, s, 0) == Some(|s|)
    ensures Split(p, s) == [s]
  {
    assert FindFrom(p, s, 0) == Some((0 as nat, |s| as nat));
    assert SplitFrom(p, s, |s|) == [];
    assert s[0..|s|] == s;
  }

  /** Concatenating the output of `regex_split_keep` reproduces its input exactly. */
  lemma SplitConcat(p: Pattern, s: string)
    ensures Concat(Split(p, s)) == s
  {
    SplitFromConcat(p, s, 0);
  }

  /** The leftmost match in `t` is all of `t`. */
  ghost predicate MatchedWhole(p: Pattern, t: string) {
    var r := FindFrom(p, t, 0);
    r.Some? && r.value.0 == 0 && r.value.1 == |t|
  }

  /** What `captures` finds in a piece taken on its own: nothing at all, or the
      whole piece. */
  ghost predicate WellCut(p: Pattern, piece: string) {
    piece != [] && (FindFrom(p, piece, 0).None? || MatchedWhole(p, piece))
  }

  lemma LiteralHasNoMatch(p: Pattern, s: string, x: nat, y: nat)
    requires x < y <= |s|
    requires forall j :: x <= j < y ==> MatchEnd(p, s, j).None?
    ensures FindFrom(p, s[x..y], 0).None?
  {
    forall k | 0 <= k < y - x ensures MatchEnd(p, s[x..y], k).None? {
      if MatchEnd(p, s[x..y], k).Some? {
        MatchInSlice(p, s, x, y, k);
      }
    }
  }

  /** Every piece is non-empty, and re-matching a piece on its own finds nothing
      in the text between matches and the whole piece in a match. */
  lemma {:induction false} SplitFromWellCut(p: Pattern, s: string, last: nat)
    requires last <= |s|
    ensures forall i :: 0 <= i < |SplitFrom(p, s, last)| ==> WellCut(p, SplitFrom(p, s, last)[i])
    decreases |s| - last
  {
    var ps := SplitFrom(p, s, last);
    FindFromLeftmost(p, s, last);
    match FindFrom(p, s, last)
    case None =>
      if last < |s| {
        LiteralHasNoMatch(p, s, last, |s|);
        assert s[last..|s|] == s[last..];
      }
    case Some(m) =>
      SplitFromWellCut(p, s, m.1);
      var pre := if last != m.0 then [s[last..m.0]] else [];
      if last != m.0 {
        LiteralHasNoMatch(p, s, last, m.0);
        assert WellCut(p, pre[0]);
      }
      MatchIsolated(p, s, m.0);
      var t := s[m.0..m.1];
      assert MatchedWhole(p, t);
      assert ps == pre + [t] + SplitFrom(p, s, m.1);
      AllWellCut(p, pre + [t], SplitFrom(p, s, m.1));
  }

  lemma AllWellCut(p: Pattern, xs: seq<string>, ys: seq<string>)
    requires forall i :: 0 <= i < |xs| ==> WellCut(p, xs[i])
    requires forall i :: 0 <= i < |ys| ==> WellCut(p, ys[i])
    ensures forall i :: 0 <= i < |xs + ys| ==> WellCut(p, (xs + ys)[i])
  {
    forall i | 0 <= i < |xs + ys| ensures WellCut(p, (xs + ys)[i]) {
      if i >= |xs| { assert (xs + ys)[i] == ys[i - |xs|]; }
    }
  }

  /** No piece returned by `regex_split_keep` is empty, and re-matching a piece on
      its own (as the parser does with `captures`) finds nothing in the unmatched
      text and the whole piece in a match. */
  lemma SplitWellCut(p: Pattern, s: string)
    ensures forall i :: 0 <= i < |Split(p, s)| ==> WellCut(p, Split(p, s)[i])
  {
    SplitFromWellCut(p, s, 0);
  }

  /** The leftmost non-overlapping matches of the pattern in `s` from `i` on, as
      (start, end) pairs: each one the first match that starts at or after the end
      of the one before. */
  function Matches(p: Pattern, s: string, i: nat): (r: seq<(nat, nat)>)
    requires i <= |s|
    decreases |s| - i
    ensures forall k :: 0 <= k < |r| ==> i <= r[k].0 < r[k].1 <= |s|
    ensures forall k :: 0 < k < |r| ==> r[k - 1].1 <= r[k].0
  {
    match FindFrom(p, s, i)
    case None => []
    case Some(m) => [m] + Matches(p, s, m.1)
  }

  function MatchTexts(s: string, ms: seq<(nat, nat)>): seq<string>
    requires forall k :: 0 <= k < |ms| ==> ms[k].0 <= ms[k].1 <= |s|
  {
    if ms == [] then [] else [s[ms[0].0..ms[0].1]] + MatchTexts(s, ms[1..])
  }

  /** The pieces on which `captures` succeeds, in order. */
  function Captured(p: Pattern, sections: seq<string>): seq<string> {
    if sections == [] then []
    else (if FindFrom(p, sections[0], 0).Some? then [sections[0]] else []) + Captured(p, sections[1..])
  }

  lemma CapturedAppend(p: Pattern, a: seq<string>, b: seq<string>)
    ensures Captured(p, a + b) == Captured(p, a) + Captured(p, b)
  {
    if a != [] {
      assert (a + b)[0] == a[0];
      assert (a + b)[1..] == a[1..] + b;
    } else {
      assert a + b == b;
    }
  }

  lemma CapturedGap(p: Pattern, s: string, last: nat, index: nat)
    requires last <= index <= |s|
    requires forall j :: last <= j < index ==> MatchEnd(p, s, j).None?
    ensures Captured(p, Gap(s, last, index)) == []
  {
    if last != index {
      LiteralHasNoMatch(p, s, last, index);
      assert Captured(p, [s[last..index]]) == [] + Captured(p, []);
    }
  }

  lemma CapturedMatch(p: Pattern, s: string, i: nat)
    requires MatchEnd(p, s, i).Some?
    ensures Captured(p, [s[i..MatchEnd(p, s, i).value]]) == [s[i..MatchEnd(p, s, i).value]]
  {
    var t := s[i..MatchEnd(p, s, i).value];
    MatchIsolated(p, s, i);
    assert FindFrom(p, t, 0).Some?;
    assert Captured(p, [t]) == [t] + Captured(p, []);
  }

  lemma MatchTextsStep(p: Pattern, s: string, last: nat)
    requires last <= |s| && FindFrom(p, s, last).Some?
    ensures var m := FindFrom(p, s, last).value;
      MatchTexts(s, Matches(p, s, last)) == [s[m.0..m.1]] + MatchTexts(s, Matches(p, s, m.1))
  {
    var m := FindFrom(p, s, last).value;
    var ms := Matches(p, s, last);
    assert ms == [m] + Matches(p, s, m.1);
    assert ms[1..] == Matches(p, s, m.1);
  }

  lemma CapturedCombine(p: Pattern, pre: seq<string>, t: string, rest: seq<string>)
    requires Captured(p, pre) == [] && Captured(p, [t]) == [t]
    ensures Captured(p, pre + [t] + rest) == [t] + Captured(p, rest)
  {
    CapturedAppend(p, pre + [t], rest);
    CapturedAppend(p, pre, [t]);
  }

  lemma {:induction false} CapturedSplitFrom(p: Pattern, s: string, last: nat)
    requires last <= |s|
    ensures Captured(p, SplitFrom(p, s, last)) == MatchTexts(s, Matches(p, s, last))
    decreases |s| - last
  {
    FindFromLeftmost(p, s, last);
    var r := FindFrom(p, s, last);
    if r.None? {
      SplitFinish(p, s, last, [], Gap(s, last, |s|));
      CapturedGap(p, s, last, |s|);
    } else {
      var m := r.value;
      var pre := Gap(s, last, m.0);
      var t := s[m.0..m.1];
      var rest := SplitFrom(p, s, m.1);
      SplitAdvance(p, s, last, [], pre + [t]);
      CapturedSplitFrom(p, s, m.1);
      CapturedGap(p, s, last, m.0);
      CapturedMatch(p, s, m.0);
      CapturedCombine(p, pre, t, rest);
      MatchTextsStep(p, s, last);
    }
  }

  /** The pieces of `regex_split_keep` in which `captures` finds a match are exactly
      the pattern's leftmost non-overlapping matches, in order. */
  lemma SplitCapturesMatches(p: Pattern, s: string)
    ensures Captured(p, Split(p, s)) == MatchTexts(s, Matches(p, s, 0))
  {
    CapturedSplitFrom(p, s, 0);
  }

  /** `Regex::replace_all` from position `last` on: every match replaced by `f` of
      its text, the text between matches kept as it is. */
  function ReplaceFrom(p: Pattern, s: string, last: nat, f: string -> string): string
    requires last <= |s|
    decreases |s| - last
  {
    match FindFrom(p, s, last)
    case None => s[last..]
    case Some(m) => s[last..m.0] + f(s[m.0..m.1]) + ReplaceFrom(p, s, m.1, f)
  }

  function ReplaceAll(p: Pattern, s: string, f: string -> string): string {
    ReplaceFrom(p, s, 0, f)
  }

  /** One step of `ReplaceFrom`: the text up to the next match, its replacement,
      and the rest; or the remaining text when no match is left. */
  lemma ReplaceStep(p: Pattern, s: string, last: nat, f: string -> string)
    requires last <= |s|
    ensures var r := FindFrom(p, s, last);
      ReplaceFrom(p, s, last, f)
      == if r.None? then s[last..]
         else s[last..r.value.0] + f(s[r.value.0..r.value.1]) + ReplaceFrom(p, s, r.value.1, f)
  {
  }

  /** Two replacements that agree on every match give the same text. */
  lemma {:induction false} ReplaceFromAgree(p: Pattern, s: string, last: nat, f: string -> string, g: string -> string)
    requires last <= |s|
    requires forall i :: last <= i && MatchEnd(p, s, i).Some? ==> f(s[i..MatchEnd(p, s, i).value]) == g(s[i..MatchEnd(p, s, i).value])
    ensures ReplaceFrom(p, s, last, f) == ReplaceFrom(p, s, last, g)
    decreases |s| - last
  {
    match FindFrom(p, s, last)
    case None =>
    case Some(m) =>
      ReplaceFromAgree(p, s, m.1, f, g);
      assert f(s[m.0..m.1]) == g(s[m.0..m.1]);
  }

  /** Text from `last` on with exactly one match. */
  lemma ReplaceOneMatch(p: Pattern, s: string, last: nat, j: nat, e: nat, f: string -> string)
    requires last <= j <= e <= |s|
    requires FindFrom(p, s, last) == Some((j, e)) && FindFrom(p, s, e).None?
    ensures ReplaceFrom(p, s, last, f) == s[last..j] + f(s[j..e]) + s[e..]
  {
    assert ReplaceFrom(p, s, e, f) == s[e..];
  }

  /** Text from `last` on with exactly two matches, the first at `last`. */
  lemma ReplaceTwoMatches(p: Pattern, s: string, last: nat, i: nat, j: nat, e: nat, f: string -> string)
    requires last <= i <= j <= e <= |s|
    requires FindFrom(p, s, last) == Some((last, i)) && FindFrom(p, s, i) == Some((j, e)) && FindFrom(p, s, e).None?
    ensures ReplaceFrom(p, s, last, f) == f(s[last..i]) + s[i..j] + f(s[j..e]) + s[e..]
  {
    var rest := ReplaceFrom(p, s, i, f);
    ReplaceOneMatch(p, s, i, j, e, f);
    assert ReplaceFrom(p, s, last, f) == s[last..last] + f(s[last..i]) + rest;
    assert s[last..last] == [];
  }

  /** `RE_NEWLINES.replace_all(songstring, "\n")`: every `\n\r`, `\r\n`, lone `\r`
      and lone `\n` becomes one line feed. */
  function NormalizeNewlines(s: string): string {
    ReplaceAll(Newlines, s, _ => "\n")
  }

  lemma {:induction false} ReplaceFromNoCR(s: string, last: nat)
    requires last <= |s|
    ensures '\r' !in ReplaceFrom(Newlines, s, last, _ => "\n")
    decreases |s| - last
  {
    FindFromLeftmost(Newlines, s, last);
    match FindFrom(Newlines, s, last)
    case None =>
      forall j | last <= j < |s| ensures s[j] != '\r' {
        assert MatchEnd(Newlines, s, j).None?;
      }
    case Some(m) =>
      ReplaceFromNoCR(s, m.1);
      forall j | last <= j < m.0 ensures s[j] != '\r' {
        assert MatchEnd(Newlines, s, j).None?;
      }
  }

  /** After normalisation no carriage return is left. */
  lemma NormalizedHasNoCR(s: string)
    ensures '\r' !in NormalizeNewlines(s)
  {
    ReplaceFromNoCR(s, 0);
  }

  lemma {:induction false} ReplaceFromKeepsCRFree(s: string, last: nat)
    requires last <= |s| && '\r' !in s
    ensures ReplaceFrom(Newlines, s, last, _ => "\n") == s[last..]
    decreases |s| - last
  {
    match FindFrom(Newlines, s, last)
    case None =>
    case Some(m) =>
      ReplaceFromKeepsCRFree(s, m.1);
      assert s[m.0] == '\n' && m.1 == m.0 + 1 by {
        if m.0 + 1 < |s| { assert s[m.0 + 1] != '\r'; }
      }
      assert s[m.0..m.1] == "\n";
      assert s[last..] == s[last..m.0] + "\n" + s[m.1..];
  }

  /** Text that already has no carriage return is left exactly as it is. */
  lemma NormalizeKeepsCRFree(s: string)
    requires '\r' !in s
    ensures NormalizeNewlines(s) == s
  {
    ReplaceFromKeepsCRFree(s, 0);
  }

  /** Normalising twice is normalising once. */
  lemma NormalizeIdempotent(s: string)
    ensures NormalizeNewlines(NormalizeNewlines(s)) == NormalizeNewlines(s)
  {
    NormalizedHasNoCR(s);
    NormalizeKeepsCRFree(NormalizeNewlines(s));
  }
}
