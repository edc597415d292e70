/**
 * The two placeholder patterns of JobConfigurationService:
 *   braced    \$\{[a-zA-Z_]+\}
 *   unbraced  \$[a-zA-Z_]+
 * InPattern gives the language of each pattern; MatchAt, FindFrom and Matches are a
 * hand-written scanner that finds matches the way java.util.regex.Matcher.find does
 * for these two patterns: leftmost start first, and the greedy (longest) name run.
 */
module Patterns {
  import opened Wrappers

  datatype Syntax = Braced | Unbraced

  /** The `braceOffset` argument the source passes with each pattern. */
  function BraceOffset(syn: Syntax): (o: nat)
    ensures o <= 1
  {
    if syn.Braced? then 1 else 0
  }

  /** The character class [a-zA-Z_]. */
  predicate IsNameChar(c: char) {
    ('a' <= c <= 'z') || ('A' <= c <= 'Z') || c == '_'
  }

  /** t is a string of the pattern's language (the whole of t matches). */
  predicate InPattern(t: string, syn: Syntax) {
    match syn
    case Unbraced =>
      && |t| >= 2 && t[0] == '$'
      && forall k :: 1 <= k < |t| ==> IsNameChar(t[k])
    case Braced =>
      && |t| >= 4 && t[0] == '$' && t[1] == '{' && t[|t| - 1] == '}'
      && forall k :: 2 <= k < |t| - 1 ==> IsNameChar(t[k])
  }

  /** Some substring of s matches the pattern. */
  ghost predicate HasPlaceholder(s: string, syn: Syntax) {
    exists i, e :: 0 <= i <= e <= |s| && InPattern(s[i..e], syn)
  }

  /** The end of the maximal run of name characters that starts at j. */
  function NameEnd(s: string, j: nat): (k: nat)
    requires j <= |s|
    ensures j <= k <= |s|
    decreases |s| - j
  {
    if j < |s| && IsNameChar(s[j]) then NameEnd(s, j + 1) else j
  }

  /** NameEnd ends the longest run: name characters up to it, and none at it. */
  lemma {:induction false} NameEndMaximal(s: string, j: nat)
    requires j <= |s|
    ensures forall i :: j <= i < NameEnd(s, j) ==> IsNameChar(s[i])
    ensures NameEnd(s, j) == |s| || !IsNameChar(s[NameEnd(s, j)])
    decreases |s| - j
  {
    if j < |s| && IsNameChar(s[j]) {
      NameEndMaximal(s, j + 1);
    }
  }

  /**
   * The scanner's walk while trying a match at i, now at j: the `$`, the `{` of the
   * braced form, the run of name characters (as long as it goes), and the `}` of the
   * braced form. The result is the end of the match, if there is one.
   */
  function MatchFrom(s: string, i: nat, j: nat, syn: Syntax): (r: Option<nat>)
    requires i <= j <= |s|
    ensures r.Some? ==> i + 2 + 2 * BraceOffset(syn) <= r.value <= |s|
    decreases |s| - j
  {
    if j == i then
      if j < |s| && s[j] == '$' then MatchFrom(s, i, j + 1, syn) else None
    else if syn.Braced? && j == i + 1 then
      if j < |s| && s[j] == '{' then MatchFrom(s, i, j + 1, syn) else None
    else if j < |s| && IsNameChar(s[j]) then MatchFrom(s, i, j + 1, syn)
    else if j <= i + 1 + BraceOffset(syn) then None
    else if syn.Unbraced? then Some(j)
    else if j < |s| && s[j] == '}' then Some(j + 1)
    else None
  }

  /** The end of the match that starts at i, if one does (see MatchAtCorrect). */
  function MatchAt(s: string, i: nat, syn: Syntax): (r: Option<nat>)
    requires i <= |s|
    ensures r.Some? ==> i + 2 + 2 * BraceOffset(syn) <= r.value <= |s|
  {
    MatchFrom(s, i, i, syn)
  }

  /** Inside the name run, the walk ends where the maximal run of name characters ends. */
  lemma {:induction false} MatchFromRun(s: string, i: nat, j: nat, syn: Syntax)
    requires i + 1 + BraceOffset(syn) <= j <= |s|
    ensures MatchFrom(s, i, j, syn) == RunOutcome(s, i, NameEnd(s, j), syn)
    decreases |s| - j
  {
    if j < |s| && IsNameChar(s[j]) {
      MatchFromRun(s, i, j + 1, syn);
    }
  }

  /** How the walk ends when the name run [i + 1 + braceOffset, k) is over. */
  function RunOutcome(s: string, i: nat, k: nat, syn: Syntax): Option<nat>
    requires k <= |s|
  {
    if k <= i + 1 + BraceOffset(syn) then None
    else if syn.Unbraced? then Some(k)
    else if k < |s| && s[k] == '}' then Some(k + 1)
    else None
  }

  /**
   * MatchAt is the regex engine's choice at position i: a match when s[i..e] is in the
   * pattern's language for some e, and then the largest such e (the greedy name run);
   * no match when there is no such e.
   */
  lemma MatchAtCorrect(s: string, i: nat, syn: Syntax)
    requires i <= |s|
    ensures MatchAt(s, i, syn).Some? ==> InPattern(s[i..MatchAt(s, i, syn).value], syn)
    ensures MatchAt(s, i, syn).Some? ==>
      forall e :: MatchAt(s, i, syn).value < e <= |s| ==> !InPattern(s[i..e], syn)
    ensures MatchAt(s, i, syn).None? ==> forall e :: i <= e <= |s| ==> !InPattern(s[i..e], syn)
  {
    var first := i + 1 + BraceOffset(syn);
    if first <= |s| && s[i] == '$' && (syn.Braced? ==> s[i + 1] == '{') {
      assert MatchAt(s, i, syn) == MatchFrom(s, i, i + 1, syn);
      if syn.Braced? {
        assert MatchFrom(s, i, i + 1, syn) == MatchFrom(s, i, i + 2, syn);
      }
      MatchFromRun(s, i, first, syn);
      NameRunBounds(s, i, first, NameEnd(s, first), syn);
    } else if i < |s| && s[i] == '$' && i + 1 < |s| {
      assert MatchAt(s, i, syn) == MatchFrom(s, i, i + 1, syn);
    }
  }

  /**
   * Every e with s[i..e] in the language, when s[i] == '$' (and s[i+1] == '{' for the
   * braced form), is tied to the maximal name run [first, k).
   */
  lemma NameRunBounds(s: string, i: nat, first: nat, k: nat, syn: Syntax)
    requires first == i + 1 + BraceOffset(syn) <= |s|
    requires k == NameEnd(s, first)
    ensures forall e :: i <= e <= |s| && InPattern(s[i..e], syn) ==>
      (if syn.Unbraced? then first < e <= k else first < k && e == k + 1)
    ensures syn.Braced? && s[i] == '$' && s[i + 1] == '{' && first < k < |s| && s[k] == '}' ==>
      InPattern(s[i..k + 1], syn)
    ensures syn.Unbraced? && s[i] == '$' && first < k ==> InPattern(s[i..k], syn)
  {
    NameEndMaximal(s, first);
    forall e | i <= e <= |s| && InPattern(s[i..e], syn)
      ensures if syn.Unbraced? then first < e <= k else first < k && e == k + 1
    {
      var t := s[i..e];
      if syn.Braced? {
        assert t[|t| - 1] == s[e - 1];
        assert t[2] == s[first];
      }
    }
    if syn.Braced? && s[i] == '$' && s[i + 1] == '{' && first < k < |s| && s[k] == '}' {
      var t := s[i..k + 1];
      forall j | 2 <= j < |t| - 1 ensures IsNameChar(t[j]) {
        assert t[j] == s[i + j];
      }
    }
    if syn.Unbraced? && s[i] == '$' && first < k {
      var t := s[i..k];
      forall j | 1 <= j < |t| ensures IsNameChar(t[j]) {
        assert t[j] == s[i + j];
      }
    }
  }

  /** A match the scanner found: the span [start, end) of the scanned string. */
  datatype Match = Match(start: nat, end: nat)

  /** No match of the pattern starts anywhere in [lo, hi). */
  ghost predicate NoMatchIn(s: string, lo: nat, hi: nat, syn: Syntax)
    requires lo <= hi <= |s|
  {
    forall i :: lo <= i < hi ==> MatchAt(s, i, syn).None?
  }

  /**
   * One call of Matcher.find() from position `from`: the match with the leftmost start
   * at or after `from`.
   */
  function FindFrom(s: string, from: nat, syn: Syntax): (r: Option<Match>)
    requires from <= |s|
    ensures r.Some? ==> from <= r.value.start && SpanOk(s, r.value, syn)
    decreases |s| - from
  {
    if from == |s| then None
    else
      match MatchAt(s, from, syn)
      case Some(e) => Some(Match(from, e))
      case None => FindFrom(s, from + 1, syn)
  }

  /**
   * Matcher.find() from `from`: a match of the pattern at the first position from `from`
   * where one starts, or none when no position from `from` starts one.
   */
  lemma {:induction false} FindFromCorrect(s: string, from: nat, syn: Syntax)
    requires from <= |s|
    ensures var r := FindFrom(s, from, syn);
      && (r.Some? ==> from <= r.value.start <= |s| && MatchAt(s, r.value.start, syn) == Some(r.value.end))
      && (r.Some? ==> NoMatchIn(s, from, r.value.start, syn))
      && (r.None? ==> NoMatchIn(s, from, |s|, syn))
    decreases |s| - from
  {
    if from < |s| && MatchAt(s, from, syn).None? {
      FindFromCorrect(s, from + 1, syn);
    }
  }

  /** Where the gap before the k-th match of ms begins, when scanning began at `from`. */
  function GapStart(from: nat, ms: seq<Match>, k: nat): nat
    requires k <= |ms|
  {
    if k == 0 then from else ms[k - 1].end
  }

  /** Where the text after the last match of ms begins. */
  function EndOf(from: nat, ms: seq<Match>): nat {
    GapStart(from, ms, |ms|)
  }

  /**
   * ms are the matches of a left-to-right scan of s that began at `from`: every element
   * is a match, it starts after the previous one ended, no match starts in the gap before
   * it, and none starts after the last one.
   */
  ghost predicate Scanned(s: string, from: nat, ms: seq<Match>, syn: Syntax) {
    && (forall k :: 0 <= k < |ms| ==>
          && GapStart(from, ms, k) <= ms[k].start <= |s|
          && MatchAt(s, ms[k].start, syn) == Some(ms[k].end)
          && NoMatchIn(s, GapStart(from, ms, k), ms[k].start, syn))
    && EndOf(from, ms) <= |s|
    && NoMatchIn(s, EndOf(from, ms), |s|, syn)
  }

  /** The successive results of Matcher.find() until it reports no further match. */
  function Matches(s: string, from: nat, syn: Syntax): seq<Match>
    requires from <= |s|
    decreases |s| - from
  {
    match FindFrom(s, from, syn)
    case None => []
    case Some(m) => [m] + Matches(s, m.end, syn)
  }

  /**
   * The matches are those of a leftmost, non-overlapping scan: each starts where no
   * earlier match could start, and none is missed after the last one.
   */
  lemma {:induction false} MatchesScanned(s: string, from: nat, syn: Syntax)
    requires from <= |s|
    ensures Scanned(s, from, Matches(s, from, syn), syn)
    decreases |s| - from
  {
    FindFromCorrect(s, from, syn);
    var r := FindFrom(s, from, syn);
    if r.Some? {
      MatchesScanned(s, r.value.end, syn);
      ScannedCons(s, from, r.value, Matches(s, r.value.end, syn), syn);
    }
  }

  /** A match found from `from`, followed by a scan from its end, is a scan from `from`. */
  lemma ScannedCons(s: string, from: nat, m: Match, rest: seq<Match>, syn: Syntax)
    requires from <= |s| && FindFrom(s, from, syn) == Some(m)
    requires Scanned(s, m.end, rest, syn)
    ensures Scanned(s, from, [m] + rest, syn)
  {
    FindFromCorrect(s, from, syn);
    var ms := [m] + rest;
    forall k | 0 <= k < |ms|
      ensures GapStart(from, ms, k) <= ms[k].start <= |s|
      ensures MatchAt(s, ms[k].start, syn) == Some(ms[k].end)
      ensures NoMatchIn(s, GapStart(from, ms, k), ms[k].start, syn)
    {
      if k == 0 {
        assert ms[k] == m && GapStart(from, ms, k) == from;
      } else {
        GapStartCons(from, m, rest, k);
      }
    }
    assert EndOf(from, ms) == EndOf(m.end, rest);
  }

  /** Indexing into [m] + rest, with the gap starts that come with it. */
  lemma GapStartCons(from: nat, m: Match, rest: seq<Match>, k: nat)
    requires 1 <= k <= |rest|
    ensures ([m] + rest)[k] == rest[k - 1]
    ensures GapStart(from, [m] + rest, k) == GapStart(m.end, rest, k - 1)
  {
  }

  /** A span inside s long enough for the sigil, a name and the braces of its form. */
  predicate SpanOk(s: string, m: Match, syn: Syntax) {
    m.start + 2 + 2 * BraceOffset(syn) <= m.end <= |s|
  }

  /** Match spans inside s, each starting after the previous one (or `from`) ends. */
  ghost predicate Ordered(s: string, from: nat, ms: seq<Match>, syn: Syntax)
    decreases |ms|
  {
    ms == [] || (from <= ms[0].start && SpanOk(s, ms[0], syn) && Ordered(s, ms[0].end, ms[1..], syn))
  }

  /** The scan's matches are ordered spans, all inside s. */
  lemma {:induction false} MatchesOrdered(s: string, from: nat, syn: Syntax)
    requires from <= |s|
    ensures Ordered(s, from, Matches(s, from, syn), syn)
    decreases |s| - from
  {
    var r := FindFrom(s, from, syn);
    if r.Some? {
      MatchesOrdered(s, r.value.end, syn);
      assert ([r.value] + Matches(s, r.value.end, syn))[1..] == Matches(s, r.value.end, syn);
    }
  }

  /**
   * The variable name of a match: from `matcher.start() + braceOffset + 1` to
   * `matcher.end() - braceOffset` (see NameOfShape).
   */
  function NameOf(s: string, m: Match, syn: Syntax): string
    requires SpanOk(s, m, syn)
  {
    s[m.start + BraceOffset(syn) + 1..m.end - BraceOffset(syn)]
  }

  /**
   * A match's name is a non-empty run of name characters, and the matched text is the
   * sigil, the name and, for the braced form, the closing brace.
   */
  lemma NameOfShape(s: string, m: Match, syn: Syntax)
    requires m.start <= |s| && MatchAt(s, m.start, syn) == Some(m.end)
    ensures |NameOf(s, m, syn)| >= 1 && forall c :: c in NameOf(s, m, syn) ==> IsNameChar(c)
    ensures s[m.start..m.end] == (if syn.Braced? then "${" + NameOf(s, m, syn) + "}" else "$" + NameOf(s, m, syn))
  {
    MatchAtCorrect(s, m.start, syn);
    PatternShape(s[m.start..m.end], syn);
    NameOfInMatch(s, m, syn);
  }

  /** The name inside a match, as a slice of the matched text. */
  lemma NameOfInMatch(s: string, m: Match, syn: Syntax)
    requires SpanOk(s, m, syn)
    ensures NameOf(s, m, syn) == s[m.start..m.end][BraceOffset(syn) + 1..m.end - m.start - BraceOffset(syn)]
  {
    var t := s[m.start..m.end];
    var o := BraceOffset(syn);
    assert forall j :: 0 <= j < m.end - m.start - 2 * o - 1 ==> NameOf(s, m, syn)[j] == t[o + 1 + j];
  }

  /** A string of the pattern's language is the sigil, a non-empty name and, braced, the closing brace. */
  lemma PatternShape(t: string, syn: Syntax)
    requires InPattern(t, syn)
    ensures |t| >= 2 + 2 * BraceOffset(syn)
    ensures |t[BraceOffset(syn) + 1..|t| - BraceOffset(syn)]| >= 1
    ensures forall c :: c in t[BraceOffset(syn) + 1..|t| - BraceOffset(syn)] ==> IsNameChar(c)
    ensures t == (if syn.Braced? then "${" + t[2..|t| - 1] + "}" else "$" + t[1..])
  {
    var o := BraceOffset(syn);
    var name := t[o + 1..|t| - o];
    assert forall j :: 0 <= j < |name| ==> name[j] == t[o + 1 + j];
    if syn.Braced? {
      assert t == t[..2] + name + t[|t| - 1..];
    } else {
      assert t == t[..1] + name;
    }
  }

  /** No match is found in s exactly when no substring of s is in the pattern's language. */
  lemma NoMatchesIffNoPlaceholder(s: string, syn: Syntax)
    ensures Matches(s, 0, syn) == [] <==> !HasPlaceholder(s, syn)
  {
    var ms := Matches(s, 0, syn);
    MatchesScanned(s, 0, syn);
    if ms == [] {
      assert NoMatchIn(s, 0, |s|, syn);
      forall i, e | 0 <= i <= e <= |s| ensures !InPattern(s[i..e], syn) {
        MatchAtCorrect(s, i, syn);
      }
    } else {
      MatchAtCorrect(s, ms[0].start, syn);
    }
  }
}
