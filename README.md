# Project-key placeholder resolution of the Quality Gates plugin

This is a Dafny model of `JobConfigurationService` from the Jenkins Quality Gates plugin.
The service turns the SonarQube project key of a job into a resolved key. It replaces
environment-variable placeholders, braced `${NAME}` and unbraced `$NAME` with `NAME` in
`[a-zA-Z_]+`, by the variables' values. It also builds the job's configuration record from
the submitted form.

How the model is laid out:

- `Patterns` (patterns.dfy) is a hand-written scanner for exactly the two regular
  expressions of the service. `MatchAt` finds the greedy match at one position,
  `FindFrom` models `Matcher.find()` (the leftmost match), and `Matches` lists the
  successive finds. Each is proved against the pattern's language `InPattern`.
- `Substitution` (substitution.dfy) holds one pass of `resolveEmbeddedEnvVariables`.
  - `PassFrom` / `Pass` replace the matches left to right and stop at the first
    undefined variable.
  - `Reference` states the same pass over the list of matches.
  - `BuilderPass` is the pass as the source performs it on its `StringBuilder`, where
    each replacement lands at the match's position shifted by `offset`.
  - The lemmas prove that all three agree. They also cover the unchanged case, the
    missing-variable case and how the count of `$` characters evolves.
- `Resolution` (resolution.dfy) holds `getProjectKey` and its restarts.
  - `Resolve` runs the braced level, then the unbraced level.
  - `ResolveLevel` runs one pass and, if it replaced anything, restarts the whole
    resolution on the result.
  - The recursion is bounded by `fuel` and yields `DepthExceeded` when the fuel runs out.
- `JobConfigurationService` (service.dfy) holds the imperative code.
  - `GetProjectKey` and `ResolveEmbeddedEnvVariables` are mutually recursive methods.
  - `ReplaceMatches` is the `while (matcher.find())` loop with its builder, `offset` and
    `matchesFound`.
  - `CreateJobConfigData`, `HasFormDataKey` and `CheckProjectKeyIfVariable` assemble the
    record.
  - Each method is proved against the functions above.
- `FormData` (form_data.dfy) models the form, which is a `JSONObject` in the source: a
  map with `getString` and `getBoolean`.
- `JobConfig` (job_config.dfy) models the `JobConfigData` bean as a class with setters.
- `ResolutionExamples` (examples_resolution.dfy) works through concrete resolutions,
  including a self-referencing variable that never resolves.
- `Wrappers` (wrappers.dfy) holds `Option` and `Result`.

The environment is a `map<string, string>`: a missing key is the source's `null` from
`EnvVars.get` (see "## Left out" for case-insensitive names). The URL decoder is a
function parameter, `string -> Option<string>`. `None` stands for the `IllegalArgumentException` that `URLDecoder.decode` throws on a
malformed escape. The configured SonarQube instances are given as the list of their names.

`resolveEmbeddedEnvVariables` restarts `getProjectKey` after any pass that replaced
something (lines 118-119). So a braced pass that replaced something resolves the key fully
before that level's unbraced pass runs, and `ResolveLevel` does the same.

## Model

| member | source | states |
|---|---|---|
| Patterns.MatchAtCorrect | QualityGatesPlugin/src/main/java/quality/gates/jenkins/plugin/JobConfigurationService.java:17-18 | a match at position i exists exactly when some s[i..e] is in the pattern's language, and its end is the largest such e (greedy name run) |
| Patterns.PatternShape | QualityGatesPlugin/src/main/java/quality/gates/jenkins/plugin/JobConfigurationService.java:17-18 | a string of either pattern is the sigil, a non-empty run of [a-zA-Z_] and, braced, the closing brace |
| Patterns.NameEndMaximal | QualityGatesPlugin/src/main/java/quality/gates/jenkins/plugin/JobConfigurationService.java:18 | the name run ends at the first character outside [a-zA-Z_] |
| Patterns.FindFromCorrect | QualityGatesPlugin/src/main/java/quality/gates/jenkins/plugin/JobConfigurationService.java:105 | Matcher.find() from a position returns a match at the first position from there that starts one, and nothing when no later position does |
| Patterns.MatchesScanned | QualityGatesPlugin/src/main/java/quality/gates/jenkins/plugin/JobConfigurationService.java:105 | the successive finds are leftmost and non-overlapping: each starts after the previous ends, no match starts in a gap, none after the last |
| Patterns.MatchesOrdered | QualityGatesPlugin/src/main/java/quality/gates/jenkins/plugin/JobConfigurationService.java:105 | the successive finds are spans inside the key, in increasing order and disjoint |
| Patterns.NameOfShape | QualityGatesPlugin/src/main/java/quality/gates/jenkins/plugin/JobConfigurationService.java:106 | the substring from start+braceOffset+1 to end-braceOffset is a non-empty [a-zA-Z_] name, and the match is exactly `${name}` or `$name` |
| Patterns.NoMatchesIffNoPlaceholder | QualityGatesPlugin/src/main/java/quality/gates/jenkins/plugin/JobConfigurationService.java:105 | find() never succeeds exactly when no substring of the key is in the pattern's language |
| Substitution.FirstMissing | QualityGatesPlugin/src/main/java/quality/gates/jenkins/plugin/JobConfigurationService.java:107-111 | the index of the first name in scan order the environment lacks, with all earlier names defined; none when all are defined |
| Substitution.PassFromIsReference | QualityGatesPlugin/src/main/java/quality/gates/jenkins/plugin/JobConfigurationService.java:105-116 | the pass from any position equals the reference: the first undefined name among the scan's matches, or the gaps kept verbatim with each match replaced by its value |
| Substitution.PassIsReference | QualityGatesPlugin/src/main/java/quality/gates/jenkins/plugin/JobConfigurationService.java:105-116 | a whole pass replaces the leftmost non-overlapping matches and keeps the text between them verbatim, or names the first undefined variable; it reports a change exactly when there was a match |
| Substitution.SpliceLength | QualityGatesPlugin/src/main/java/quality/gates/jenkins/plugin/JobConfigurationService.java:114 | the replaced text is as long as the key plus the sum of value length minus match length over the matches |
| Substitution.PassLength | QualityGatesPlugin/src/main/java/quality/gates/jenkins/plugin/JobConfigurationService.java:113-114 | a completed pass's text is as long as the key plus that sum, which is the final `offset` |
| Substitution.PassUnchangedIffNoPlaceholder | QualityGatesPlugin/src/main/java/quality/gates/jenkins/plugin/JobConfigurationService.java:102-122 | a pass returns its input unchanged with matchesFound false exactly when the pattern occurs nowhere in it |
| Substitution.PassMissingIsUndefined | QualityGatesPlugin/src/main/java/quality/gates/jenkins/plugin/JobConfigurationService.java:106-111 | a pass fails only on a non-empty [a-zA-Z_] name the environment does not define |
| Substitution.MatchHasOneDollar | QualityGatesPlugin/src/main/java/quality/gates/jenkins/plugin/JobConfigurationService.java:17-18 | every matched placeholder holds exactly one `$` |
| Substitution.PassDollars | QualityGatesPlugin/src/main/java/quality/gates/jenkins/plugin/JobConfigurationService.java:105-116 | with values free of `$`, a pass adds no `$`, and a pass that replaced something removed at least one |
| Substitution.BuilderReplaceInBounds | QualityGatesPlugin/src/main/java/quality/gates/jenkins/plugin/JobConfigurationService.java:113 | while the builder is `offset` longer than the key, the next match shifted by `offset` is a range of the builder, so `builder.replace` is never out of range |
| Substitution.BuilderPassIsPassFrom | QualityGatesPlugin/src/main/java/quality/gates/jenkins/plugin/JobConfigurationService.java:105-116 | on a builder holding the rewritten text followed by the rest of the key, the shifted replacements give the rest of the pass behind the rewritten text |
| Substitution.BuilderPassIsPass | QualityGatesPlugin/src/main/java/quality/gates/jenkins/plugin/JobConfigurationService.java:101-116 | replacing in a StringBuilder copy at offset-shifted positions yields exactly the pass |
| Resolution.ResolveLevelResolvedClean | QualityGatesPlugin/src/main/java/quality/gates/jenkins/plugin/JobConfigurationService.java:118-122 | a level's result holds no match of its pattern, and is its input or a key with no match of either pattern |
| Resolution.ResolveResolvedClean | QualityGatesPlugin/src/main/java/quality/gates/jenkins/plugin/JobConfigurationService.java:93-97 | a key that getProjectKey resolves holds no match of the braced or the unbraced pattern |
| Resolution.ResolveLevelIdentity | QualityGatesPlugin/src/main/java/quality/gates/jenkins/plugin/JobConfigurationService.java:99-122 | a level returns its input unchanged exactly when its pattern does not occur in it |
| Resolution.ResolveIdentity | QualityGatesPlugin/src/main/java/quality/gates/jenkins/plugin/JobConfigurationService.java:93-97 | getProjectKey returns the key unchanged exactly when neither pattern occurs in it, under every environment |
| Resolution.NoSigilClean | QualityGatesPlugin/src/main/java/quality/gates/jenkins/plugin/JobConfigurationService.java:17-18 | a key without `$` holds no match of either pattern |
| Resolution.ResolveLevelMissing | QualityGatesPlugin/src/main/java/quality/gates/jenkins/plugin/JobConfigurationService.java:107-111 | a level that fails names a non-empty [a-zA-Z_] variable the environment does not define |
| Resolution.ResolveMissing | QualityGatesPlugin/src/main/java/quality/gates/jenkins/plugin/JobConfigurationService.java:107-111 | getProjectKey fails only on a well-formed variable name the environment does not define |
| Resolution.ResolveLevelFuel | QualityGatesPlugin/src/main/java/quality/gates/jenkins/plugin/JobConfigurationService.java:118-119 | a level's outcome that did not run out of depth stays the same with more depth |
| Resolution.ResolveFuel | QualityGatesPlugin/src/main/java/quality/gates/jenkins/plugin/JobConfigurationService.java:93-97 | the bound on the restarts does not change any outcome reached within it |
| Resolution.ResolveLevelKeepsDollars | QualityGatesPlugin/src/main/java/quality/gates/jenkins/plugin/JobConfigurationService.java:118-122 | with values free of `$`, a level's result has no more `$` than its input |
| Resolution.ResolveKeepsDollars | QualityGatesPlugin/src/main/java/quality/gates/jenkins/plugin/JobConfigurationService.java:93-97 | with values free of `$`, a resolved key has no more `$` than the input |
| Resolution.ResolveLevelTerminates | QualityGatesPlugin/src/main/java/quality/gates/jenkins/plugin/JobConfigurationService.java:118-119 | with values free of `$`, a level restarts at most as deep as its input has `$` |
| Resolution.ResolveTerminates | QualityGatesPlugin/src/main/java/quality/gates/jenkins/plugin/JobConfigurationService.java:93-97 | with values free of `$`, getProjectKey resolves or names a missing variable once the depth covers every `$` of the key |
| JobConfigurationService.GetProjectKey | QualityGatesPlugin/src/main/java/quality/gates/jenkins/plugin/JobConfigurationService.java:93-97 | the braced level, then the unbraced level on its result, is the resolution `Resolve` |
| JobConfigurationService.ResolveEmbeddedEnvVariables | QualityGatesPlugin/src/main/java/quality/gates/jenkins/plugin/JobConfigurationService.java:99-123 | one pass, an undefined variable ending the resolution, and a restart when anything was replaced, is `ResolveLevel` |
| JobConfigurationService.ReplaceMatches | QualityGatesPlugin/src/main/java/quality/gates/jenkins/plugin/JobConfigurationService.java:100-116 | the find/replace loop on the StringBuilder with the running offset computes exactly the pass |
| JobConfigurationService.FormProjectKey | QualityGatesPlugin/src/main/java/quality/gates/jenkins/plugin/JobConfigurationService.java:30-38 | the key field is required; a key not starting with `$` becomes its URL-decoded form, and fails exactly when the decoder rejects it |
| JobConfigurationService.SigilKeyNotDecoded | QualityGatesPlugin/src/main/java/quality/gates/jenkins/plugin/JobConfigurationService.java:32-38 | a key starting with `$` is kept verbatim whatever the decoder does |
| JobConfigurationService.HasFormDataKey | QualityGatesPlugin/src/main/java/quality/gates/jenkins/plugin/JobConfigurationService.java:60-67 | the form's sonarInstancesName when present, else the first configured instance; fails only with neither |
| JobConfigurationService.FormInstanceName | QualityGatesPlugin/src/main/java/quality/gates/jenkins/plugin/JobConfigurationService.java:40-46 | never fails: "" without configured instances, else the form's name if present, else the first instance's |
| JobConfigurationService.FormIgnoreWarnings | QualityGatesPlugin/src/main/java/quality/gates/jenkins/plugin/JobConfigurationService.java:48-52 | false when the form lacks the field; true only when the form's field reads as true; fails only when the field is present and not a boolean |
| JobConfigurationService.CreateJobConfigData | QualityGatesPlugin/src/main/java/quality/gates/jenkins/plugin/JobConfigurationService.java:28-58 | a fresh record with the form's key (decoded unless a placeholder), the selected instance name and the ignoreWarnings flag, or the first error in the source's order |
| JobConfigurationService.CheckProjectKeyIfVariable | QualityGatesPlugin/src/main/java/quality/gates/jenkins/plugin/JobConfigurationService.java:69-91 | an empty key fails before any lookup; otherwise a fresh record with the resolved key, which holds no placeholder, and the given instance name and ignoreWarnings, or the resolver's error |
| FormData.GetString | QualityGatesPlugin/src/main/java/quality/gates/jenkins/plugin/JobConfigurationService.java:30 | a present field's text (a boolean written out); a missing field fails |
| FormData.GetBoolean | QualityGatesPlugin/src/main/java/quality/gates/jenkins/plugin/JobConfigurationService.java:51 | a boolean field, or text reading true or false in any case; anything else fails |
| FormData.BoolTextRoundTrip | QualityGatesPlugin/src/main/java/quality/gates/jenkins/plugin/JobConfigurationService.java:51 | the text getString gives for a boolean field is read back as the same boolean by getBoolean |
| ResolutionExamples.BracedThenUnbraced | QualityGatesPlugin/src/main/java/quality/gates/jenkins/plugin/JobConfigurationService.java:93-97 | `${A}$A` with A = x resolves to `xx` |
| ResolutionExamples.Chained | QualityGatesPlugin/src/main/java/quality/gates/jenkins/plugin/JobConfigurationService.java:118-119 | `${A}` with A = `${B}` and B = done resolves to `done` |
| ResolutionExamples.Missing | QualityGatesPlugin/src/main/java/quality/gates/jenkins/plugin/JobConfigurationService.java:107-111 | `${MISSING}` in an empty environment fails naming MISSING |
| ResolutionExamples.MissingAfterReplacement | QualityGatesPlugin/src/main/java/quality/gates/jenkins/plugin/JobConfigurationService.java:107-111 | `${A}${B}` with only A defined fails naming B; no partial key is returned |
| ResolutionExamples.TextAroundKept | QualityGatesPlugin/src/main/java/quality/gates/jenkins/plugin/JobConfigurationService.java:113 | `p-${A}-s` with A = 42 resolves to `p-42-s` |
| ResolutionExamples.NameRunStops | QualityGatesPlugin/src/main/java/quality/gates/jenkins/plugin/JobConfigurationService.java:18 | `$A1` with A = x resolves to `x1` |
| ResolutionExamples.DigitInBracesNoMatch | QualityGatesPlugin/src/main/java/quality/gates/jenkins/plugin/JobConfigurationService.java:17-18 | `${A1}` matches neither pattern and resolves to itself under every environment |
| ResolutionExamples.SelfReferenceNeverResolves | QualityGatesPlugin/src/main/java/quality/gates/jenkins/plugin/JobConfigurationService.java:118-119 | `$A` with A = `$A` restarts forever: no depth bound suffices |

## Left out

- JobConfigurationService.GetProjectKey: the source restarts without bound; the model stops after `fuel` nested restarts with `DepthExceeded`. On a cyclic environment that outcome stands for the JVM's `StackOverflowError`. `ResolveFuel` and `ResolveTerminates` show that the bound changes no outcome the source reaches.
- JobConfigurationService.ResolveEmbeddedEnvVariables: bounded by `fuel` in the same way.
- JobConfigurationService.CheckProjectKeyIfVariable: bounded by `fuel` in the same way; `DepthExceeded` becomes `ResolutionTooDeep`.
- Host environment access (`build.getEnvironment(listener)`, with `IOException` and `InterruptedException` wrapped at lines 81-87) is Jenkins I/O. The environment snapshot is a map parameter instead.
- `getListOfSonarInstanceNames` (lines 20-26) fills a UI list box. It is presentation code with no logic to prove.
- The JSON library is not modelled. The form is a map whose values are strings or booleans; JSON nulls, numbers, arrays and nested objects are not modelled.
- FormData.GetBoolean: compares with ASCII case folding only. Java's `equalsIgnoreCase` also folds a few non-ASCII characters (U+017F, long s, equals `s`).
- `URLDecoder.decode` is a JDK routine and is a function parameter here. Its `UnsupportedEncodingException` branch (lines 35-36) cannot occur for UTF-8 and is not modelled.
- The source of the `JobConfigData` bean is not available. The class in job_config.dfy takes its fields and setters from the calls the service makes, and assumes the defaults `""` and `false`. Every path sets all three fields before returning the bean. `GlobalConfig` is not part of this model: the global configuration is reduced to the list of instance names.
- Exception message texts are not modelled; each error is a `ServiceError` kind carrying the variable name where the source does.
- The regular-expression engine in general is not modelled. Only the two patterns of lines 17-18 are, by a dedicated scanner.
- Java strings are UTF-16 code units, while Dafny characters are Unicode scalar values. A key with characters outside the Basic Multilingual Plane has different lengths and offsets here, but the same substitutions.
- Jenkins' `EnvVars` compares variable names without regard to case, so `env.get("path")` finds `PATH`. The exact-key map here stands for `EnvVars` with every case variant of each defined name present. The proved properties hold for every map, so they still apply.
