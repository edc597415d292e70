/**
 * The recursive resolution of JobConfigurationService.getProjectKey: the braced pass, then
 * the unbraced pass, each starting the whole resolution again on its result when it
 * replaced anything.
 */
module Resolution {
  import opened Patterns
  import opened Substitution

  /**
   * The outcome of resolving a key: the resolved key, the undefined variable that made
   * the source throw, or DepthExceeded when the restarts nest deeper than the fuel allows.
   */
  datatype Resolution =
    | Resolved(key: string)
    | MissingVariable(name: string)
    | DepthExceeded

  /**
   * resolveEmbeddedEnvVariables: one pass with one pattern; if it replaced anything, the
   * whole resolution starts again on the new text. `fuel` bounds how deeply those restarts
   * nest, which the source does not bound.
   */
  function ResolveLevel(key: string, env: Env, syn: Syntax, fuel: nat): Resolution
    decreases fuel, 0
  {
    match Pass(key, syn, env)
    case PassMissing(name) => MissingVariable(name)
    case PassDone(text, changed) =>
      if !changed then Resolved(text)
      else if fuel == 0 then DepthExceeded
      else Resolve(text, env, fuel - 1)
  }

  /** getProjectKey: the braced pass, then the unbraced pass on its result. */
  function Resolve(key: string, env: Env, fuel: nat): Resolution
    decreases fuel, 1
  {
    match ResolveLevel(key, env, Braced, fuel)
    case Resolved(afterFirst) => ResolveLevel(afterFirst, env, Unbraced, fuel)
    case failed => failed
  }

  /** Neither pattern matches anywhere in s. */
  ghost predicate Clean(s: string) {
    !HasPlaceholder(s, Braced) && !HasPlaceholder(s, Unbraced)
  }

  /**
   * A level that resolves returns a text without matches of its own pattern, and either
   * its input unchanged or a text that the restarted resolution left clean.
   */
  lemma {:induction false} ResolveLevelResolvedClean(s: string, env: Env, syn: Syntax, fuel: nat)
    requires ResolveLevel(s, env, syn, fuel).Resolved?
    ensures !HasPlaceholder(ResolveLevel(s, env, syn, fuel).key, syn)
    ensures ResolveLevel(s, env, syn, fuel).key == s || Clean(ResolveLevel(s, env, syn, fuel).key)
    decreases fuel, 0
  {
    PassUnchangedIffNoPlaceholder(s, syn, env);
    var p := Pass(s, syn, env);
    if p.changed {
      ResolveResolvedClean(p.text, env, fuel - 1);
    }
  }

  /** A resolved key holds no match of either pattern. */
  lemma {:induction false} ResolveResolvedClean(s: string, env: Env, fuel: nat)
    requires Resolve(s, env, fuel).Resolved?
    ensures Clean(Resolve(s, env, fuel).key)
    decreases fuel, 1
  {
    ResolveLevelResolvedClean(s, env, Braced, fuel);
    var a := ResolveLevel(s, env, Braced, fuel).key;
    ResolveLevelResolvedClean(a, env, Unbraced, fuel);
  }

  /** A level leaves its input alone exactly when its pattern does not match the input. */
  lemma ResolveLevelIdentity(s: string, env: Env, syn: Syntax, fuel: nat)
    ensures ResolveLevel(s, env, syn, fuel) == Resolved(s) <==> !HasPlaceholder(s, syn)
  {
    PassUnchangedIffNoPlaceholder(s, syn, env);
    if ResolveLevel(s, env, syn, fuel) == Resolved(s) {
      ResolveLevelResolvedClean(s, env, syn, fuel);
    }
  }

  /**
   * Resolution returns its input unchanged exactly when neither pattern matches it; such
   * a key resolves to itself under every environment, so none is consulted.
   */
  lemma ResolveIdentity(s: string, env: Env, fuel: nat)
    ensures Resolve(s, env, fuel) == Resolved(s) <==> Clean(s)
  {
    ResolveLevelIdentity(s, env, Braced, fuel);
    ResolveLevelIdentity(s, env, Unbraced, fuel);
    if Resolve(s, env, fuel) == Resolved(s) {
      ResolveResolvedClean(s, env, fuel);
    }
  }

  /**
   * A resolution that fails on a variable names a non-empty run of [a-zA-Z_] that the
   * environment does not define.
   */
  lemma {:induction false} ResolveLevelMissing(s: string, env: Env, syn: Syntax, fuel: nat)
    requires ResolveLevel(s, env, syn, fuel).MissingVariable?
    ensures ResolveLevel(s, env, syn, fuel).name !in env
    ensures |ResolveLevel(s, env, syn, fuel).name| >= 1
    ensures forall c :: c in ResolveLevel(s, env, syn, fuel).name ==> IsNameChar(c)
    decreases fuel, 0
  {
    var p := Pass(s, syn, env);
    if p.PassMissing? {
      PassMissingIsUndefined(s, 0, syn, env);
    } else {
      ResolveMissing(p.text, env, fuel - 1);
    }
  }

  /** getProjectKey fails only on a well-formed variable name the environment does not define. */
  lemma {:induction false} ResolveMissing(s: string, env: Env, fuel: nat)
    requires Resolve(s, env, fuel).MissingVariable?
    ensures Resolve(s, env, fuel).name !in env
    ensures |Resolve(s, env, fuel).name| >= 1
    ensures forall c :: c in Resolve(s, env, fuel).name ==> IsNameChar(c)
    decreases fuel, 1
  {
    var first := ResolveLevel(s, env, Braced, fuel);
    if first.MissingVariable? {
      ResolveLevelMissing(s, env, Braced, fuel);
    } else {
      ResolveLevelMissing(first.key, env, Unbraced, fuel);
    }
  }

  /** More fuel does not change an outcome that did not run out of fuel. */
  lemma {:induction false} ResolveLevelFuel(s: string, env: Env, syn: Syntax, fuel: nat, more: nat)
    requires fuel <= more && ResolveLevel(s, env, syn, fuel) != DepthExceeded
    ensures ResolveLevel(s, env, syn, more) == ResolveLevel(s, env, syn, fuel)
    decreases fuel, 0
  {
    var p := Pass(s, syn, env);
    if p.PassDone? && p.changed {
      ResolveFuel(p.text, env, fuel - 1, more - 1);
    }
  }

  /** The outcome of getProjectKey, once it is not DepthExceeded, is the same for all larger fuel. */
  lemma {:induction false} ResolveFuel(s: string, env: Env, fuel: nat, more: nat)
    requires fuel <= more && Resolve(s, env, fuel) != DepthExceeded
    ensures Resolve(s, env, more) == Resolve(s, env, fuel)
    decreases fuel, 1
  {
    ResolveLevelFuel(s, env, Braced, fuel, more);
    var first := ResolveLevel(s, env, Braced, fuel);
    if first.Resolved? {
      ResolveLevelFuel(first.key, env, Unbraced, fuel, more);
    }
  }

  /** With '$'-free values, a level that resolves returns no more '$' than it was given. */
  lemma {:induction false} ResolveLevelKeepsDollars(s: string, env: Env, syn: Syntax, fuel: nat)
    requires DollarFree(env) && ResolveLevel(s, env, syn, fuel).Resolved?
    ensures Dollars(ResolveLevel(s, env, syn, fuel).key) <= Dollars(s)
    decreases fuel, 0
  {
    var p := Pass(s, syn, env);
    assert p.PassDone?;
    PassDollars(s, syn, env);
    assert Dollars(p.text) <= Dollars(s);
    if p.changed {
      ResolveKeepsDollars(p.text, env, fuel - 1);
    }
  }

  /** With '$'-free values, a resolved key holds no more '$' than the input. */
  lemma {:induction false} ResolveKeepsDollars(s: string, env: Env, fuel: nat)
    requires DollarFree(env) && Resolve(s, env, fuel).Resolved?
    ensures Dollars(Resolve(s, env, fuel).key) <= Dollars(s)
    decreases fuel, 1
  {
    ResolveLevelKeepsDollars(s, env, Braced, fuel);
    var first := ResolveLevel(s, env, Braced, fuel);
    ResolveLevelKeepsDollars(first.key, env, Unbraced, fuel);
  }

  /** With '$'-free values, a level never runs out of fuel when the fuel covers every '$'. */
  lemma {:induction false} ResolveLevelTerminates(s: string, env: Env, syn: Syntax, fuel: nat)
    requires DollarFree(env) && Dollars(s) <= fuel
    ensures ResolveLevel(s, env, syn, fuel) != DepthExceeded
    decreases fuel, 0
  {
    var p := Pass(s, syn, env);
    if p.PassDone? && p.changed {
      PassDollars(s, syn, env);
      ResolveTerminates(p.text, env, fuel - 1);
    }
  }

  /**
   * When no value of the environment contains a '$', every replacement removes a '$', so
   * the restarts nest at most as deep as the key has '$' characters: with that much fuel
   * the resolution resolves or names a missing variable.
   */
  lemma {:induction false} ResolveTerminates(s: string, env: Env, fuel: nat)
    requires DollarFree(env) && Dollars(s) <= fuel
    ensures Resolve(s, env, fuel) != DepthExceeded
    decreases fuel, 1
  {
    ResolveLevelTerminates(s, env, Braced, fuel);
    var first := ResolveLevel(s, env, Braced, fuel);
    if first.Resolved? {
      ResolveLevelKeepsDollars(s, env, Braced, fuel);
      ResolveLevelTerminates(first.key, env, Unbraced, fuel);
    }
  }

  /** A key without '$' holds no match of either pattern, so it resolves to itself. */
  lemma NoSigilClean(s: string)
    requires '$' !in s
    ensures Clean(s)
  {
    forall i, e | 0 <= i < e <= |s|
      ensures s[i..e][0] != '$'
    {
      assert s[i..e][0] == s[i];
    }
  }
}
