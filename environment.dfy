/**
 * The admin theme's environment label: classified from the settings module
 * named in the process environment, and a title prefix for each class.
 */
module Environment {
  import opened PyOps

  const SettingsVariable: string := "DJANGO_SETTINGS_MODULE"

  const Production: string := "production"
  const Local: string := "local"
  const Test: string := "test"
  const Development: string := "development"

  /** `os.environ.get("DJANGO_SETTINGS_MODULE", "")`, over the environment as a map. */
  function SettingsModule(environ: map<string, string>): string {
    if SettingsVariable in environ then environ[SettingsVariable] else ""
  }

  /**
   * `environment_callback`: "production" if the settings module mentions it,
   * otherwise "local", then "test", in that order, and "development" when
   * none is mentioned.
   */
  function EnvironmentName(environ: map<string, string>): (r: string)
    ensures r in {Production, Local, Test, Development}
    ensures var s := SettingsModule(environ);
      && (r == Production <==> Contains(s, Production))
      && (r == Local <==> !Contains(s, Production) && Contains(s, Local))
      && (r == Test <==> !Contains(s, Production) && !Contains(s, Local) && Contains(s, Test))
      && (r == Development <==> !Contains(s, Production) && !Contains(s, Local) && !Contains(s, Test))
  {
    var settingsModule := SettingsModule(environ);
    if Contains(settingsModule, Production) then Production
    else if Contains(settingsModule, Local) then Local
    else if Contains(settingsModule, Test) then Test
    else Development
  }

  const TitlePrefixes: map<string, string> :=
    map[Production := "PROD", Local := "DEV", Test := "TEST", Development := "DEV"]

  /** `environment_title_prefix_callback`: the prefix of the environment, or "" for one without a prefix. */
  function TitlePrefix(environ: map<string, string>): (r: string)
    ensures r != ""
    ensures EnvironmentName(environ) == Production ==> r == "PROD"
    ensures EnvironmentName(environ) == Test ==> r == "TEST"
    ensures EnvironmentName(environ) in {Local, Development} ==> r == "DEV"
  {
    var env := EnvironmentName(environ);
    if env in TitlePrefixes then TitlePrefixes[env] else ""
  }

  /** A settings module that names both production and local is production. */
  lemma ProductionTakesPrecedence(environ: map<string, string>, i: nat, j: nat)
    requires OccursAt(SettingsModule(environ), Production, i) && OccursAt(SettingsModule(environ), Local, j)
    ensures EnvironmentName(environ) == Production
  {
    ContainsAt(SettingsModule(environ), Production, i);
  }

  /** Without the variable the settings module is "", which is development. */
  lemma UnsetIsDevelopment(environ: map<string, string>)
    requires SettingsVariable !in environ
    ensures EnvironmentName(environ) == Development
  {
  }
}
