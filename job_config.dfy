/** The per-job configuration bean that the service fills in through its setters. */
module JobConfig {
  class JobConfigData {
    /** The SonarQube project key, possibly holding environment-variable placeholders. */
    var projectKey: string
    /** The name of the SonarQube instance the job reports to. */
    var sonarInstanceName: string
    /** Whether a quality gate in the warning state lets the build pass. */
    var ignoreWarnings: bool

    /** `new JobConfigData()`: every field is set before the service hands a bean out. */
    constructor()
      ensures projectKey == "" && sonarInstanceName == "" && !ignoreWarnings
    {
      projectKey := "";
      sonarInstanceName := "";
      ignoreWarnings := false;
    }

    method SetProjectKey(key: string)
      modifies this
      ensures projectKey == key
      ensures sonarInstanceName == old(sonarInstanceName) && ignoreWarnings == old(ignoreWarnings)
    {
      projectKey := key;
    }

    method SetSonarInstanceName(name: string)
      modifies this
      ensures sonarInstanceName == name
      ensures projectKey == old(projectKey) && ignoreWarnings == old(ignoreWarnings)
    {
      sonarInstanceName := name;
    }

    method SetIgnoreWarnings(ignore: bool)
      modifies this
      ensures ignoreWarnings == ignore
      ensures projectKey == old(projectKey) && sonarInstanceName == old(sonarInstanceName)
    {
      ignoreWarnings := ignore;
    }
  }
}
