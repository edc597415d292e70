/** Resolutions of concrete keys, worked pass by pass. */
module ResolutionExamples {
  import opened Wrappers
  import opened Patterns
  import opened Substitution
  import opened Resolution

  /** A pass over a key with exactly one match, of a defined variable. */
  lemma PassOne(s: string, syn: Syntax, env: Env, m: Match)
    requires FindFrom(s, 0, syn) == Some(m) && NameOf(s, m, syn) in env
    requires FindFrom(s, m.end, syn) == None
    ensures Pass(s, syn, env) == PassDone(s[..m.start] + env[NameOf(s, m, syn)] + s[m.end..], true)
  {
    var v := env[NameOf(s, m, syn)];
    assert PassFrom(s, m.end, syn, env) == PassDone(s[m.end..], false);
    assert PassFrom(s, 0, syn, env) == Prefixed(s[0..m.start] + v, PassDone(s[m.end..], false), true);
    assert s[0..m.start] == s[..m.start];
  }

  /** The scanner finds nothing in a stretch without '$'. */
  lemma {:induction false} NoSigilNoFind(s: string, from: nat, syn: Syntax)
    requires from <= |s| && '$' !in s[from..]
    ensures FindFrom(s, from, syn) == None
    decreases |s| - from
  {
    if from < |s| {
      assert s[from] == s[from..][0];
      assert s[from + 1..] == s[from..][1..];
      NoSigilNoFind(s, from + 1, syn);
    }
  }

  /** A key whose braced pass yields a text without '$' resolves to that text. */
  lemma ResolveOneBracedPass(s: string, env: Env, fuel: nat, t: string)
    requires fuel >= 1 && Pass(s, Braced, env) == PassDone(t, true) && '$' !in t
    ensures Resolve(s, env, fuel) == Resolved(t)
  {
    Plain(t, env, fuel - 1);
    NoSigilClean(t);
    ResolveLevelIdentity(t, env, Unbraced, fuel);
  }

  /** A key without '$' resolves to itself. */
  lemma Plain(s: string, env: Env, fuel: nat)
    requires '$' !in s
    ensures Resolve(s, env, fuel) == Resolved(s)
  {
    NoSigilClean(s);
    ResolveIdentity(s, env, fuel);
  }

  /** The braced pass runs first; its result is resolved again, which replaces the unbraced `$A`. */
  lemma BracedThenUnbraced()
    ensures Resolve("${A}$A", map["A" := "x"], 2) == Resolved("xx")
  {
    var env := map["A" := "x"];
    assert FindFrom("${A}$A", 0, Braced) == Some(Match(0, 4));
    assert NameOf("${A}$A", Match(0, 4), Braced) == "A";
    PassOne("${A}$A", Braced, env, Match(0, 4));
    assert "${A}$A"[..0] + "x" + "${A}$A"[4..] == "x$A";
    assert FindFrom("x$A", 0, Unbraced) == Some(Match(1, 3));
    assert NameOf("x$A", Match(1, 3), Unbraced) == "A";
    PassOne("x$A", Unbraced, env, Match(1, 3));
    assert "x$A"[..1] + "x" + "x$A"[3..] == "xx";
    Plain("xx", env, 0);
    Plain("xx", env, 2);
  }

  /** A value that is itself a placeholder is resolved by the restart. */
  lemma Chained()
    ensures Resolve("${A}", map["A" := "${B}", "B" := "done"], 2) == Resolved("done")
  {
    var env := map["A" := "${B}", "B" := "done"];
    assert NameOf("${A}", Match(0, 4), Braced) == "A";
    PassOne("${A}", Braced, env, Match(0, 4));
    assert "${A}"[..0] + "${B}" + "${A}"[4..] == "${B}";
    assert NameOf("${B}", Match(0, 4), Braced) == "B";
    PassOne("${B}", Braced, env, Match(0, 4));
    assert "${B}"[..0] + "done" + "${B}"[4..] == "done";
    Plain("done", env, 0);
    Plain("done", env, 1);
    Plain("done", env, 2);
  }

  /** An undefined variable ends the resolution with its name. */
  lemma Missing()
    ensures Resolve("${MISSING}", map[], 0) == MissingVariable("MISSING")
  {
    assert FindFrom("${MISSING}", 0, Braced) == Some(Match(0, 10));
    assert NameOf("${MISSING}", Match(0, 10), Braced) == "MISSING";
  }

  /** An undefined variable after a defined one still ends the resolution. */
  lemma MissingAfterReplacement()
    ensures Resolve("${A}${B}", map["A" := "1"], 1) == MissingVariable("B")
  {
    assert FindFrom("${A}${B}", 0, Braced) == Some(Match(0, 4));
    assert FindFrom("${A}${B}", 4, Braced) == Some(Match(4, 8));
    assert NameOf("${A}${B}", Match(0, 4), Braced) == "A";
    assert NameOf("${A}${B}", Match(4, 8), Braced) == "B";
  }

  /** The text around a placeholder is kept verbatim. */
  lemma TextAroundKept()
    ensures Resolve("p-${A}-s", map["A" := "42"], 1) == Resolved("p-42-s")
  {
    var env := map["A" := "42"];
    TextAroundKeptPass();
    ResolveOneBracedPass("p-${A}-s", env, 1, "p-42-s");
  }

  /** The braced pass of TextAroundKept. */
  lemma TextAroundKeptPass()
    ensures Pass("p-${A}-s", Braced, map["A" := "42"]) == PassDone("p-42-s", true)
  {
    var env := map["A" := "42"];
    assert FindFrom("p-${A}-s", 0, Braced) == Some(Match(2, 6));
    assert NameOf("p-${A}-s", Match(2, 6), Braced) == "A";
    assert "p-${A}-s"[6..] == "-s";
    NoSigilNoFind("p-${A}-s", 6, Braced);
    PassOne("p-${A}-s", Braced, env, Match(2, 6));
    assert "p-${A}-s"[..2] + "42" + "p-${A}-s"[6..] == "p-42-s";
  }

  /** The unbraced name is the run of letters: `$A1` replaces `$A` and keeps the `1`. */
  lemma NameRunStops()
    ensures Resolve("$A1", map["A" := "x"], 1) == Resolved("x1")
  {
    var env := map["A" := "x"];
    assert FindFrom("$A1", 0, Unbraced) == Some(Match(0, 2));
    assert NameOf("$A1", Match(0, 2), Unbraced) == "A";
    PassOne("$A1", Unbraced, env, Match(0, 2));
    assert "$A1"[..0] + "x" + "$A1"[2..] == "x1";
    Plain("x1", env, 0);
  }

  /** A digit inside braces matches neither pattern, whatever the environment. */
  lemma DigitInBracesNoMatch(env: Env, fuel: nat)
    ensures Resolve("${A1}", env, fuel) == Resolved("${A1}")
  {
  }

  /** A variable whose value is its own placeholder restarts forever: no fuel suffices. */
  lemma {:induction false} SelfReferenceNeverResolves(fuel: nat)
    ensures Resolve("$A", map["A" := "$A"], fuel) == DepthExceeded
  {
    var env := map["A" := "$A"];
    assert FindFrom("$A", 0, Unbraced) == Some(Match(0, 2));
    assert NameOf("$A", Match(0, 2), Unbraced) == "A";
    PassOne("$A", Unbraced, env, Match(0, 2));
    assert "$A"[..0] + "$A" + "$A"[2..] == "$A";
    if fuel > 0 {
      SelfReferenceNeverResolves(fuel - 1);
    }
  }
}
