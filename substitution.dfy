/**
 * One substitution pass of JobConfigurationService.resolveEmbeddedEnvVariables: scan the
 * key with one pattern, replace each match by its variable's value, stop at the first
 * variable the environment does not define. PassFrom is the pass as the source's loop
 * computes it; Reference states it over the scanner's match list.
 */
module Substitution {
  import opened Wrappers
  import opened Patterns

  /** The environment snapshot: variable name to value. A missing key is Java's null. */
  type Env = map<string, string>

  /** The outcome of one pass: the first undefined name, or the new text and whether any match was replaced. */
  datatype PassResult = PassMissing(name: string) | PassDone(text: string, changed: bool)

  /** A pass's outcome with `p` put in front of its text; an undefined name passes through. */
  function Prefixed(p: string, r: PassResult, changed: bool): PassResult {
    match r
    case PassMissing(_) => r
    case PassDone(t, c) => PassDone(p + t, c || changed)
  }

  /**
   * The pass from matcher position `from`: the text from `from` with every match replaced,
   * scanning left to right, or the first undefined name met.
   */
  function PassFrom(s: string, from: nat, syn: Syntax, env: Env): PassResult
    requires from <= |s|
    decreases |s| - from
  {
    match FindFrom(s, from, syn)
    case None => PassDone(s[from..], false)
    case Some(m) =>
      var name := NameOf(s, m, syn);
      if name !in env then PassMissing(name)
      else Prefixed(s[from..m.start] + env[name], PassFrom(s, m.end, syn, env), true)
  }

  /** One whole pass over the key. */
  function Pass(s: string, syn: Syntax, env: Env): PassResult {
    PassFrom(s, 0, syn, env)
  }

  // ----- the reference statement over the match list -----

  /** The names of the matches, in scan order. */
  function NamesOf(s: string, from: nat, ms: seq<Match>, syn: Syntax): (names: seq<string>)
    requires Ordered(s, from, ms, syn)
    ensures |names| == |ms|
    decreases |ms|
  {
    if ms == [] then []
    else [NameOf(s, ms[0], syn)] + NamesOf(s, ms[0].end, ms[1..], syn)
  }

  /** The position of the first name the environment does not define. */
  function FirstMissing(names: seq<string>, env: Env): (r: Option<nat>)
    ensures r.Some? ==> r.value < |names| && names[r.value] !in env
    ensures r.Some? ==> forall j :: 0 <= j < r.value ==> names[j] in env
    ensures r.None? ==> forall j :: 0 <= j < |names| ==> names[j] in env
  {
    if names == [] then None
    else if names[0] !in env then Some(0)
    else
      match FirstMissing(names[1..], env)
      case Some(k) => Some(k + 1)
      case None => None
  }

  /** The text from `from` with every match of ms replaced and every gap kept verbatim. */
  function Splice(s: string, from: nat, ms: seq<Match>, syn: Syntax, env: Env): string
    requires from <= |s| && Ordered(s, from, ms, syn)
    requires FirstMissing(NamesOf(s, from, ms, syn), env).None?
    decreases |ms|
  {
    if ms == [] then s[from..]
    else s[from..ms[0].start] + env[NameOf(s, ms[0], syn)] + Splice(s, ms[0].end, ms[1..], syn, env)
  }

  /** The sum over the matches of the value's length minus the match's length. */
  function Drift(s: string, from: nat, ms: seq<Match>, syn: Syntax, env: Env): int
    requires from <= |s| && Ordered(s, from, ms, syn)
    requires FirstMissing(NamesOf(s, from, ms, syn), env).None?
    decreases |ms|
  {
    if ms == [] then 0
    else |env[NameOf(s, ms[0], syn)]| - (ms[0].end - ms[0].start) + Drift(s, ms[0].end, ms[1..], syn, env)
  }

  /** The spliced text is as long as the original plus the drift (the source's `offset`). */
  lemma {:induction false} SpliceLength(s: string, from: nat, ms: seq<Match>, syn: Syntax, env: Env)
    requires from <= |s| && Ordered(s, from, ms, syn)
    requires FirstMissing(NamesOf(s, from, ms, syn), env).None?
    ensures |Splice(s, from, ms, syn, env)| == |s| - from + Drift(s, from, ms, syn, env)
    decreases |ms|
  {
    if ms != [] {
      SpliceLength(s, ms[0].end, ms[1..], syn, env);
    }
  }

  /**
   * What a pass over the match list ms yields: the first undefined name if there is one,
   * otherwise the spliced text, changed exactly when there was a match.
   */
  function Reference(s: string, from: nat, ms: seq<Match>, syn: Syntax, env: Env): PassResult
    requires from <= |s| && Ordered(s, from, ms, syn)
  {
    var names := NamesOf(s, from, ms, syn);
    match FirstMissing(names, env)
    case Some(k) => PassMissing(names[k])
    case None => PassDone(Splice(s, from, ms, syn, env), ms != [])
  }

  /** The pass from `from` is the reference applied to the scan from `from`. */
  lemma {:induction false} PassFromIsReference(s: string, from: nat, syn: Syntax, env: Env)
    requires from <= |s|
    ensures Ordered(s, from, Matches(s, from, syn), syn)
    ensures PassFrom(s, from, syn, env) == Reference(s, from, Matches(s, from, syn), syn, env)
    decreases |s| - from
  {
    MatchesOrdered(s, from, syn);
    var r := FindFrom(s, from, syn);
    if r.Some? {
      var m := r.value;
      var rest := Matches(s, m.end, syn);
      var ms := [m] + rest;
      assert Matches(s, from, syn) == ms;
      assert ms[0] == m && ms[1..] == rest;
      var names := NamesOf(s, from, ms, syn);
      assert names[1..] == NamesOf(s, m.end, rest, syn);
      if NameOf(s, m, syn) in env {
        PassFromIsReference(s, m.end, syn, env);
      }
    }
  }

  /**
   * A whole pass: the matches are those of a leftmost non-overlapping scan, and the pass
   * yields the first undefined name among them or the text with all of them replaced.
   */
  lemma PassIsReference(s: string, syn: Syntax, env: Env)
    ensures Scanned(s, 0, Matches(s, 0, syn), syn) && Ordered(s, 0, Matches(s, 0, syn), syn)
    ensures Pass(s, syn, env) == Reference(s, 0, Matches(s, 0, syn), syn, env)
  {
    MatchesScanned(s, 0, syn);
    PassFromIsReference(s, 0, syn, env);
  }

  /** When a pass completes, its text is |s| plus the drift long. */
  lemma PassLength(s: string, syn: Syntax, env: Env)
    requires Pass(s, syn, env).PassDone?
    ensures Ordered(s, 0, Matches(s, 0, syn), syn)
    ensures FirstMissing(NamesOf(s, 0, Matches(s, 0, syn), syn), env).None?
    ensures |Pass(s, syn, env).text| == |s| + Drift(s, 0, Matches(s, 0, syn), syn, env)
  {
    PassFromIsReference(s, 0, syn, env);
    SpliceLength(s, 0, Matches(s, 0, syn), syn, env);
  }

  /** A pass leaves the text alone, reporting no change, exactly when it holds no placeholder. */
  lemma PassUnchangedIffNoPlaceholder(s: string, syn: Syntax, env: Env)
    ensures Pass(s, syn, env) == PassDone(s, false) <==> !HasPlaceholder(s, syn)
    ensures Pass(s, syn, env).PassDone? && !Pass(s, syn, env).changed ==> Pass(s, syn, env).text == s
  {
    PassFromIsReference(s, 0, syn, env);
    NoMatchesIffNoPlaceholder(s, syn);
  }

  /** A name that ends a pass is a well-formed variable name the environment does not define. */
  lemma {:induction false} PassMissingIsUndefined(s: string, from: nat, syn: Syntax, env: Env)
    requires from <= |s| && PassFrom(s, from, syn, env).PassMissing?
    ensures PassFrom(s, from, syn, env).name !in env
    ensures |PassFrom(s, from, syn, env).name| >= 1
    ensures forall c :: c in PassFrom(s, from, syn, env).name ==> IsNameChar(c)
    decreases |s| - from
  {
    FindFromCorrect(s, from, syn);
    var m := FindFrom(s, from, syn).value;
    NameOfShape(s, m, syn);
    if NameOf(s, m, syn) in env {
      PassMissingIsUndefined(s, m.end, syn, env);
    }
  }

  // ----- the number of '$' characters, which bounds how often a resolution restarts -----

  /** The number of '$' characters in s. */
  function Dollars(s: string): nat {
    multiset(s)['$']
  }

  /** No value of the environment contains a '$'. */
  predicate DollarFree(env: Env) {
    forall n :: n in env ==> '$' !in env[n]
  }

  /** The matched text holds exactly one '$', its sigil. */
  lemma MatchHasOneDollar(s: string, m: Match, syn: Syntax)
    requires m.start <= |s| && MatchAt(s, m.start, syn) == Some(m.end)
    ensures Dollars(s[m.start..m.end]) == 1
  {
    NameOfShape(s, m, syn);
    var name := NameOf(s, m, syn);
    assert '$' !in name;
    assert multiset(name)['$'] == 0;
  }

  /**
   * With '$'-free values, a pass never adds a '$', and a pass that replaced something
   * removed at least one.
   */
  lemma {:induction false} PassFromDollars(s: string, from: nat, syn: Syntax, env: Env)
    requires from <= |s| && DollarFree(env) && PassFrom(s, from, syn, env).PassDone?
    ensures var r := PassFrom(s, from, syn, env);
      Dollars(r.text) + (if r.changed then 1 else 0) <= Dollars(s[from..])
    decreases |s| - from
  {
    var f := FindFrom(s, from, syn);
    if f.Some? {
      var m := f.value;
      var v := env[NameOf(s, m, syn)];
      PassFromDollars(s, m.end, syn, env);
      var t := PassFrom(s, m.end, syn, env).text;
      PassFromStep(s, from, syn, env, m);
      assert '$' !in v;
      ReplaceMatchDollars(s, from, syn, m, v, t);
    }
  }

  /** The pass from `from` over a match whose variable is defined, when the rest of the pass completes. */
  lemma PassFromStep(s: string, from: nat, syn: Syntax, env: Env, m: Match)
    requires from <= |s| && FindFrom(s, from, syn) == Some(m) && NameOf(s, m, syn) in env
    requires PassFrom(s, m.end, syn, env).PassDone?
    ensures PassFrom(s, from, syn, env)
      == PassDone(s[from..m.start] + env[NameOf(s, m, syn)] + PassFrom(s, m.end, syn, env).text, true)
  {
  }

  /** Replacing the match found from `from` by a '$'-free value removes a '$'. */
  lemma ReplaceMatchDollars(s: string, from: nat, syn: Syntax, m: Match, v: string, t: string)
    requires from <= |s| && FindFrom(s, from, syn) == Some(m)
    requires '$' !in v && Dollars(t) <= Dollars(s[m.end..])
    ensures Dollars(s[from..m.start] + v + t) + 1 <= Dollars(s[from..])
  {
    FindFromCorrect(s, from, syn);
    MatchHasOneDollar(s, m, syn);
    assert s[from..] == s[from..m.start] + s[m.start..m.end] + s[m.end..];
    ReplaceDollars(s[from..m.start], s[m.start..m.end], s[m.end..], v, t);
  }

  /** Replacing a piece holding one '$' by a '$'-free value, in front of a text with no more '$' than before. */
  lemma ReplaceDollars(gap: string, matched: string, rest: string, v: string, t: string)
    requires Dollars(matched) == 1 && '$' !in v && Dollars(t) <= Dollars(rest)
    ensures Dollars(gap + v + t) + 1 <= Dollars(gap + matched + rest)
  {
    assert multiset(v)['$'] == 0;
    assert multiset(gap + v + t) == multiset(gap) + multiset(v) + multiset(t);
    assert multiset(gap + matched + rest) == multiset(gap) + multiset(matched) + multiset(rest);
  }

  /** Pass-level form of PassFromDollars. */
  lemma PassDollars(s: string, syn: Syntax, env: Env)
    requires DollarFree(env) && Pass(s, syn, env).PassDone?
    ensures Dollars(Pass(s, syn, env).text) + (if Pass(s, syn, env).changed then 1 else 0) <= Dollars(s)
  {
    PassFromDollars(s, 0, syn, env);
    assert s[0..] == s;
  }

  // ----- the pass on the source's StringBuilder -----

  /**
   * The pass as resolveEmbeddedEnvVariables performs it on its StringBuilder: the matcher
   * resumes at `pos` of the original key, and a match [start, end) of the key is replaced
   * at [start + offset, end + offset) of the builder, `offset` being how much longer the
   * builder has become than the key.
   */
  function BuilderPass(key: string, syn: Syntax, env: Env, pos: nat, builder: string, offset: int, changed: bool): PassResult
    requires pos <= |key| && |builder| == |key| + offset && pos + offset >= 0
    decreases |key| - pos
  {
    match FindFrom(key, pos, syn)
    case None => PassDone(builder, changed)
    case Some(m) =>
      var name := NameOf(key, m, syn);
      if name !in env then PassMissing(name)
      else
        var value := env[name];
        BuilderPass(key, syn, env, m.end, builder[..m.start + offset] + value + builder[m.end + offset..],
                    offset + |value| - (m.end - m.start), true)
  }

  /**
   * While the builder is as much longer than the key as `offset` says, and the matcher
   * resumes at a position that is still inside the builder once shifted, the next match
   * shifted by `offset` is a range of the builder: `builder.replace` is never out of range.
   */
  lemma BuilderReplaceInBounds(key: string, syn: Syntax, pos: nat, builder: string, offset: int, m: Match)
    requires pos <= |key| && |builder| == |key| + offset && pos + offset >= 0
    requires FindFrom(key, pos, syn) == Some(m)
    ensures 0 <= m.start + offset <= m.end + offset <= |builder|
  {
  }

  /** One replacement of the builder pass, for a match whose variable is defined. */
  lemma BuilderPassStep(key: string, syn: Syntax, env: Env, pos: nat, builder: string, offset: int, changed: bool,
                        m: Match, value: string, next: string, nextOffset: int)
    requires pos <= |key| && |builder| == |key| + offset && pos + offset >= 0
    requires FindFrom(key, pos, syn) == Some(m) && NameOf(key, m, syn) in env && value == env[NameOf(key, m, syn)]
    requires 0 <= m.start + offset <= m.end + offset <= |builder|
    requires next == builder[..m.start + offset] + value + builder[m.end + offset..]
    requires nextOffset == offset + |value| - (m.end - m.start)
    ensures |next| == |key| + nextOffset && m.end + nextOffset >= 0
    ensures BuilderPass(key, syn, env, pos, builder, offset, changed) == BuilderPass(key, syn, env, m.end, next, nextOffset, true)
  {
  }

  /** Putting two prefixes in front of a pass's outcome, one after the other. */
  lemma PrefixedTwice(a: string, b: string, r: PassResult, changed: bool)
    ensures Prefixed(a, Prefixed(b, r, true), changed) == Prefixed(a + b, r, true)
  {
    if r.PassDone? {
      assert a + (b + r.text) == (a + b) + r.text;
    }
  }

  /**
   * In a builder holding the rewritten text followed by the key from `pos`, replacing the
   * key's match [start, end), shifted by `offset` (how much longer the builder is than the
   * key), extends the rewritten text to the match's end.
   */
  lemma BuilderSplice(replaced: string, key: string, pos: nat, start: nat, end: nat, value: string, offset: int)
    requires pos <= start <= end <= |key| && offset == |replaced| - pos
    ensures 0 <= start + offset <= end + offset <= |replaced + key[pos..]|
    ensures (replaced + key[pos..])[..start + offset] + value + (replaced + key[pos..])[end + offset..]
            == (replaced + (key[pos..start] + value)) + key[end..]
  {
    var builder := replaced + key[pos..];
    assert builder[..start + offset] == replaced + key[pos..start] by {
      assert forall j :: 0 <= j < start + offset ==> builder[j] == (replaced + key[pos..start])[j];
    }
    assert builder[end + offset..] == key[end..];
  }

  /** The builder pass's replacement step, on a builder holding the rewritten text followed by the key from `pos`. */
  lemma BuilderPassAdvance(key: string, syn: Syntax, env: Env, pos: nat, replaced: string, changed: bool, m: Match, value: string)
    requires pos <= |key| && FindFrom(key, pos, syn) == Some(m)
    requires NameOf(key, m, syn) in env && value == env[NameOf(key, m, syn)]
    ensures BuilderPass(key, syn, env, pos, replaced + key[pos..], |replaced| - pos, changed)
            == BuilderPass(key, syn, env, m.end, (replaced + (key[pos..m.start] + value)) + key[m.end..],
                           |replaced + (key[pos..m.start] + value)| - m.end, true)
  {
    var offset := |replaced| - pos;
    BuilderSplice(replaced, key, pos, m.start, m.end, value, offset);
    assert |replaced + (key[pos..m.start] + value)| - m.end == offset + |value| - (m.end - m.start);
    BuilderPassStep(key, syn, env, pos, replaced + key[pos..], offset, changed, m, value,
                    (replaced + (key[pos..m.start] + value)) + key[m.end..], |replaced + (key[pos..m.start] + value)| - m.end);
  }

  /** The pass's replacement step, with the rewritten text in front. */
  lemma PassFromAdvance(key: string, syn: Syntax, env: Env, pos: nat, replaced: string, changed: bool, m: Match, value: string)
    requires pos <= |key| && FindFrom(key, pos, syn) == Some(m)
    requires NameOf(key, m, syn) in env && value == env[NameOf(key, m, syn)]
    ensures Prefixed(replaced + (key[pos..m.start] + value), PassFrom(key, m.end, syn, env), true)
            == Prefixed(replaced, PassFrom(key, pos, syn, env), changed)
  {
    PrefixedTwice(replaced, key[pos..m.start] + value, PassFrom(key, m.end, syn, env), changed);
  }

  /**
   * On a builder holding the rewritten text followed by the key from `pos`, the builder
   * pass yields the rest of the pass with the rewritten text in front.
   */
  lemma {:induction false} BuilderPassIsPassFrom(key: string, syn: Syntax, env: Env, pos: nat, replaced: string, changed: bool)
    requires pos <= |key|
    ensures BuilderPass(key, syn, env, pos, replaced + key[pos..], |replaced| - pos, changed)
            == Prefixed(replaced, PassFrom(key, pos, syn, env), changed)
    decreases |key| - pos
  {
    var f := FindFrom(key, pos, syn);
    if f.Some? && NameOf(key, f.value, syn) in env {
      var m := f.value;
      var value := env[NameOf(key, m, syn)];
      BuilderPassAdvance(key, syn, env, pos, replaced, changed, m, value);
      BuilderPassIsPassFrom(key, syn, env, m.end, replaced + (key[pos..m.start] + value), true);
      PassFromAdvance(key, syn, env, pos, replaced, changed, m, value);
    }
  }

  /** Started on a copy of the key, the builder pass is the pass. */
  lemma BuilderPassIsPass(key: string, syn: Syntax, env: Env)
    ensures BuilderPass(key, syn, env, 0, key, 0, false) == Pass(key, syn, env)
  {
    BuilderPassIsPassFrom(key, syn, env, 0, "", false);
    assert "" + key[0..] == key;
  }
}
