/**
 * JobConfigurationService: the placeholder resolver (getProjectKey and
 * resolveEmbeddedEnvVariables) and the assembly of the per-job configuration record.
 */
module JobConfigurationService {
  import opened Wrappers
  import opened Patterns
  import opened Substitution
  import opened Resolution
  import opened FormData
  import opened JobConfig

  /** Why the service throws instead of returning a configuration. */
  datatype ServiceError =
    | EmptyProjectKey                   // QGException "Empty project key."
    | VariableNotFound(name: string)    // QGException naming the undefined variable
    | ResolutionTooDeep                 // the restarts nest deeper than the fuel (the source recurses without bound)
    | FormFieldError(cause: FormError)  // the form accessor's JSONException
    | MalformedProjectKey               // URLDecoder.decode rejects the key's escapes
    | NoSonarInstance                   // the first instance of an empty instance list

  /**
   * getProjectKey: resolve the braced placeholders, then the unbraced ones. `fuel` bounds
   * the nesting of the restarts that resolveEmbeddedEnvVariables makes.
   */
  method GetProjectKey(projectKey: string, env: Env, fuel: nat) returns (r: Resolution)
    ensures r == Resolve(projectKey, env, fuel)
    decreases fuel, 1
  {
    var afterFirstResolving := ResolveEmbeddedEnvVariables(projectKey, env, Braced, fuel);
    if afterFirstResolving.Resolved? {
      r := ResolveEmbeddedEnvVariables(afterFirstResolving.key, env, Unbraced, fuel);
    } else {
      r := afterFirstResolving;
    }
  }

  /**
   * resolveEmbeddedEnvVariables: one pass of ReplaceMatches over the key; an undefined
   * variable ends the resolution, and if anything was replaced the whole resolution
   * starts again on the new text.
   */
  method ResolveEmbeddedEnvVariables(projectKey: string, env: Env, syn: Syntax, fuel: nat)
    returns (r: Resolution)
    ensures r == ResolveLevel(projectKey, env, syn, fuel)
    decreases fuel, 0
  {
    var pass := ReplaceMatches(projectKey, env, syn);
    match pass
    case PassMissing(name) =>
      r := MissingVariable(name);
    case PassDone(builder, matchesFound) =>
      if matchesFound {
        if fuel == 0 {
          return DepthExceeded;
        }
        r := GetProjectKey(builder, env, fuel - 1);
        return;
      }
      r := Resolved(builder);
  }

  /**
   * The loop of resolveEmbeddedEnvVariables: every match of one pattern, found in the
   * original key, is replaced in a StringBuilder copy of it. Each replacement lands at the
   * match's position shifted by `offset`, the length change of the replacements made so
   * far. The first undefined variable ends the pass.
   */
  method ReplaceMatches(projectKey: string, env: Env, syn: Syntax) returns (r: PassResult)
    ensures r == Pass(projectKey, syn, env)
  {
    BuilderPassIsPass(projectKey, syn, env);
    var builder := projectKey;
    var matchesFound := false;
    var offset := 0;
    // Where the matcher resumes in projectKey.
    ghost var pos: nat := 0;
    var found := FindFrom(projectKey, 0, syn);
    while found.Some?
      invariant pos <= |projectKey| && |builder| == |projectKey| + offset && pos + offset >= 0
      invariant found == FindFrom(projectKey, pos, syn)
      invariant BuilderPass(projectKey, syn, env, pos, builder, offset, matchesFound) == Pass(projectKey, syn, env)
      decreases |projectKey| - pos
    {
      var m := found.value;
      var envVariable := NameOf(projectKey, m, syn);
      if envVariable !in env {
        return PassMissing(envVariable);
      }
      var envValue := env[envVariable];
      BuilderReplaceInBounds(projectKey, syn, pos, builder, offset, m);
      BuilderPassStep(projectKey, syn, env, pos, builder, offset, matchesFound, m, envValue,
                      builder[..m.start + offset] + envValue + builder[m.end + offset..], offset + |envValue| - (m.end - m.start));
      builder := builder[..m.start + offset] + envValue + builder[m.end + offset..];
      offset := offset + |envValue| - (m.end - m.start);
      matchesFound := true;
      pos := m.end;
      found := FindFrom(projectKey, m.end, syn);
    }
    r := PassDone(builder, matchesFound);
  }

  // ----- the configuration record -----

  /** A key that starts with '$' is taken to hold placeholders. */
  predicate StartsWithSigil(s: string) {
    |s| > 0 && s[0] == '$'
  }

  /**
   * The project key the form gives: URL-decoded, unless it starts with '$' (a placeholder,
   * which is left for the resolver).
   */
  function FormProjectKey(formData: Form, urlDecode: string -> Option<string>): (r: Result<string, ServiceError>)
    ensures GetString(formData, "projectKey").Failure? ==> r == Failure(FormFieldError(FieldNotFound("projectKey")))
    ensures r.Failure? ==> "projectKey" !in formData || r == Failure(MalformedProjectKey)
    ensures GetString(formData, "projectKey").Success? && !StartsWithSigil(GetString(formData, "projectKey").value) ==>
      r == (match urlDecode(GetString(formData, "projectKey").value)
            case Some(decoded) => Success(decoded)
            case None => Failure(MalformedProjectKey))
  {
    match GetString(formData, "projectKey")
    case Failure(e) => Failure(FormFieldError(e))
    case Success(raw) =>
      if StartsWithSigil(raw) then Success(raw)
      else
        match urlDecode(raw)
        case Some(decoded) => Success(decoded)
        case None => Failure(MalformedProjectKey)
  }

  /** A key that starts with '$' is kept verbatim, whatever the decoder does. */
  lemma SigilKeyNotDecoded(formData: Form, urlDecode: string -> Option<string>, raw: string)
    requires GetString(formData, "projectKey") == Success(raw) && StartsWithSigil(raw)
    ensures FormProjectKey(formData, urlDecode) == Success(raw)
  {
  }

  /** hasFormDataKey: the instance the form names, else the first configured instance. */
  function HasFormDataKey(formData: Form, instances: seq<string>): (r: Result<string, ServiceError>)
    ensures "sonarInstancesName" in formData ==> r == Success(GetString(formData, "sonarInstancesName").value)
    ensures r.Failure? <==> "sonarInstancesName" !in formData && instances == []
    ensures r.Failure? ==> r.error == NoSonarInstance
    ensures r.Success? && "sonarInstancesName" !in formData ==> r.value == instances[0]
  {
    if "sonarInstancesName" in formData then
      match GetString(formData, "sonarInstancesName")
      case Success(name) => Success(name)
      case Failure(e) => Failure(FormFieldError(e))
    else if instances == [] then Failure(NoSonarInstance)
    else Success(instances[0])
  }

  /**
   * The instance name of a new configuration: "" when no instance is configured, else the
   * one hasFormDataKey picks, which is then always defined.
   */
  function FormInstanceName(formData: Form, instances: seq<string>): (r: Result<string, ServiceError>)
    ensures r.Success?
    ensures instances == [] ==> r.value == ""
    ensures instances != [] && "sonarInstancesName" in formData ==> r.value == GetString(formData, "sonarInstancesName").value
    ensures instances != [] && "sonarInstancesName" !in formData ==> r.value == instances[0]
  {
    if instances != [] then HasFormDataKey(formData, instances) else Success("")
  }

  /** ignoreWarnings of a new configuration: false unless the form holds the field. */
  function FormIgnoreWarnings(formData: Form): (r: Result<bool, ServiceError>)
    ensures "ignoreWarnings" !in formData ==> r == Success(false)
    ensures r == Success(true) ==> "ignoreWarnings" in formData && GetBoolean(formData, "ignoreWarnings") == Success(true)
    ensures r.Failure? <==> GetBoolean(formData, "ignoreWarnings").Failure? && "ignoreWarnings" in formData
  {
    if "ignoreWarnings" in formData then
      match GetBoolean(formData, "ignoreWarnings")
      case Success(b) => Success(b)
      case Failure(e) => Failure(FormFieldError(e))
    else Success(false)
  }

  /**
   * createJobConfigData: a fresh configuration from the form and the configured instances'
   * names, or the first error the source throws.
   */
  method CreateJobConfigData(formData: Form, instances: seq<string>, urlDecode: string -> Option<string>)
    returns (r: Result<JobConfigData, ServiceError>)
    ensures FormProjectKey(formData, urlDecode).Failure? ==> r == Failure(FormProjectKey(formData, urlDecode).error)
    ensures FormProjectKey(formData, urlDecode).Success? && FormIgnoreWarnings(formData).Failure? ==>
      r == Failure(FormIgnoreWarnings(formData).error)
    ensures r.Success? <==> FormProjectKey(formData, urlDecode).Success? && FormIgnoreWarnings(formData).Success?
    ensures r.Success? ==> fresh(r.value)
    ensures r.Success? ==>
      && r.value.projectKey == FormProjectKey(formData, urlDecode).value
      && r.value.sonarInstanceName == FormInstanceName(formData, instances).value
      && r.value.ignoreWarnings == FormIgnoreWarnings(formData).value
  {
    var firstInstanceJobConfigData := new JobConfigData();
    var got := GetString(formData, "projectKey");
    if got.Failure? {
      return Failure(FormFieldError(got.error));
    }
    var projectKey := got.value;
    if !StartsWithSigil(projectKey) {
      var decoded := urlDecode(projectKey);
      if decoded.None? {
        return Failure(MalformedProjectKey);
      }
      projectKey := decoded.value;
    }

    var name: string;
    if instances != [] {
      var picked := HasFormDataKey(formData, instances);
      name := picked.value;
    } else {
      name := "";
    }

    var ignoreWarnings := false;
    if "ignoreWarnings" in formData {
      var flag := GetBoolean(formData, "ignoreWarnings");
      if flag.Failure? {
        return Failure(FormFieldError(flag.error));
      }
      ignoreWarnings := flag.value;
    }

    firstInstanceJobConfigData.SetProjectKey(projectKey);
    firstInstanceJobConfigData.SetSonarInstanceName(name);
    firstInstanceJobConfigData.SetIgnoreWarnings(ignoreWarnings);
    return Success(firstInstanceJobConfigData);
  }

  /**
   * checkProjectKeyIfVariable: reject an empty key before looking at the environment;
   * otherwise a fresh configuration with the resolved key, which holds no placeholder,
   * and the instance name and ignoreWarnings of the given one. The given configuration is
   * not changed.
   */
  method CheckProjectKeyIfVariable(jobConfigData: JobConfigData, env: Env, fuel: nat)
    returns (r: Result<JobConfigData, ServiceError>)
    ensures jobConfigData.projectKey == "" ==> r == Failure(EmptyProjectKey)
    ensures jobConfigData.projectKey != "" ==>
      match Resolve(jobConfigData.projectKey, env, fuel)
      case Resolved(key) => r.Success? && r.value.projectKey == key
      case MissingVariable(name) => r == Failure(VariableNotFound(name))
      case DepthExceeded => r == Failure(ResolutionTooDeep)
    ensures r.Success? ==>
      && fresh(r.value)
      && Clean(r.value.projectKey)
      && r.value.sonarInstanceName == jobConfigData.sonarInstanceName
      && r.value.ignoreWarnings == jobConfigData.ignoreWarnings
  {
    var projectKey := jobConfigData.projectKey;
    if projectKey == "" {
      return Failure(EmptyProjectKey);
    }

    var envVariableJobConfigData := new JobConfigData();
    envVariableJobConfigData.SetProjectKey(jobConfigData.projectKey);
    envVariableJobConfigData.SetSonarInstanceName(jobConfigData.sonarInstanceName);
    envVariableJobConfigData.SetIgnoreWarnings(jobConfigData.ignoreWarnings);

    var resolved := GetProjectKey(projectKey, env, fuel);
    match resolved {
      case MissingVariable(name) =>
        return Failure(VariableNotFound(name));
      case DepthExceeded =>
        return Failure(ResolutionTooDeep);
      case Resolved(key) =>
        ResolveResolvedClean(projectKey, env, fuel);
        envVariableJobConfigData.SetProjectKey(key);
    }

    envVariableJobConfigData.SetSonarInstanceName(jobConfigData.sonarInstanceName);
    return Success(envVariableJobConfigData);
  }
}
