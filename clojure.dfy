/** The Clojure provider: Leiningen projects, built into an uberjar and started with
    `java`; the JDK is 8 unless version 11 is asked for. */
module ClojureProvider {
  import opened Wrappers
  import opened Strings
  import opened AppModel

  const DefaultJdkPkgName: string := "jdk8"
  const JdkVersionVariable: string := "JDK_VERSION"
  const JdkVersionFile: string := ".jdk-version"

  /** A Clojure project has a `project.clj`. */
  function Detect(app: App, env: Environment): (r: Result<bool>)
    ensures r == Ok(app.IncludesFile("project.clj"))
  {
    Ok(app.IncludesFile("project.clj"))
  }

  /** Leiningen and JDK 8, whatever the project. */
  function Setup(app: App, env: Environment): (r: Result<Option<SetupPhase>>)
    ensures r == Ok(Some(SetupPhase([Pkg("leiningen"), Pkg("jdk8")])))
  {
    Ok(Some(SetupPhase([Pkg("leiningen"), Pkg("jdk8")])))
  }

  function Build(app: App, env: Environment): (r: Result<Option<BuildPhase>>)
    ensures r == Ok(Some(BuildPhase("lein uberjar")))
  {
    Ok(Some(BuildPhase("lein uberjar")))
  }

  function Start(app: App, env: Environment): (r: Result<Option<StartPhase>>)
    ensures r == Ok(Some(StartPhase("java $JAVA_OPTS -jar target/uberjar/*standalone.jar")))
  {
    Ok(Some(StartPhase("java $JAVA_OPTS -jar target/uberjar/*standalone.jar")))
  }

  /** The phases do not depend on the project or its configuration: in particular the
      setup phase asks for `jdk8` whatever `GetNixJdkPackage` would choose. */
  lemma PhasesFixed(app1: App, env1: Environment, app2: App, env2: Environment)
    ensures Setup(app1, env1) == Setup(app2, env2)
    ensures Build(app1, env1) == Build(app2, env2)
    ensures Start(app1, env1) == Start(app2, env2)
  {
  }

  /** `^[0-9][0-9]?$`: one or two ASCII digits and nothing else. */
  predicate IsJdkVersion(s: string)
  {
    1 <= |s| <= 2 && AllAsciiDigits(s)
  }

  /** The requested JDK version text: the config variable, else the version file, else
      none. Only reading the version file can fail. */
  function CustomJdkVersion(app: App, env: Environment): (r: Result<Option<string>>)
    ensures env.GetConfigVariable(JdkVersionVariable).Some? ==> r == Ok(env.GetConfigVariable(JdkVersionVariable))
    ensures env.GetConfigVariable(JdkVersionVariable).None? && !app.IncludesFile(JdkVersionFile) ==> r == Ok(None)
    ensures env.GetConfigVariable(JdkVersionVariable).None? && app.IncludesFile(JdkVersionFile) ==>
              (r.Ok? <==> app.ReadFile(JdkVersionFile).Ok?) &&
              (r.Ok? ==> r.value == Some(app.ReadFile(JdkVersionFile).value)) &&
              (r.Err? ==> r.error == app.ReadFile(JdkVersionFile).error)
  {
    var custom := env.GetConfigVariable(JdkVersionVariable);
    if custom.None? && app.IncludesFile(JdkVersionFile) then
      var text :- app.ReadFile(JdkVersionFile);
      Ok(Some(text))
    else Ok(custom)
  }

  /** The JDK package: `jdk11` exactly when the trimmed version text is `11`, `jdk8`
      for every other text and when there is none. */
  function GetNixJdkPackage(app: App, env: Environment): (r: Result<Pkg>)
    ensures r.Err? <==> CustomJdkVersion(app, env).Err?
    ensures r.Err? ==> r.error == CustomJdkVersion(app, env).error
    ensures r.Ok? ==> r.value == Pkg("jdk8") || r.value == Pkg("jdk11")
    ensures r == Ok(Pkg("jdk11")) <==>
              CustomJdkVersion(app, env).Ok? && CustomJdkVersion(app, env).value.Some?
              && Trim(CustomJdkVersion(app, env).value.value) == "11"
  {
    var custom :- CustomJdkVersion(app, env);
    if custom.None? then Ok(Pkg(DefaultJdkPkgName))
    else
      var version := Trim(custom.value);
      if !IsJdkVersion(version) then Ok(Pkg(DefaultJdkPkgName))
      else if version == "8" then Ok(Pkg(DefaultJdkPkgName))
      else if version == "11" then Ok(Pkg("jdk11"))
      else Ok(Pkg(DefaultJdkPkgName))
  }

  /** The config variable wins over the version file: the project does not matter. */
  lemma ConfigVariableFirst(app1: App, app2: App, env: Environment)
    requires env.GetConfigVariable(JdkVersionVariable).Some?
    ensures GetNixJdkPackage(app1, env) == GetNixJdkPackage(app2, env)
    ensures GetNixJdkPackage(app1, env).Ok?
  {
  }

  /** Without either source the default JDK 8 is used. */
  lemma NoVersionIsDefault(app: App, env: Environment)
    requires env.GetConfigVariable(JdkVersionVariable).None? && !app.IncludesFile(JdkVersionFile)
    ensures GetNixJdkPackage(app, env) == Ok(Pkg("jdk8"))
  {
  }

  /** A version text that is not one or two digits after trimming falls back to JDK 8,
      never to an error. */
  lemma MalformedVersionIsDefault(app: App, env: Environment, version: string)
    requires env.GetConfigVariable(JdkVersionVariable) == Some(version)
    requires !IsJdkVersion(Trim(version))
    ensures GetNixJdkPackage(app, env) == Ok(Pkg("jdk8"))
  {
  }

  /** Version 11, with any surrounding whitespace, selects JDK 11 from the config
      variable or from the version file. */
  lemma Version11(app: App, env: Environment, pad1: string, pad2: string)
    requires forall i :: 0 <= i < |pad1| ==> IsWhitespace(pad1[i])
    requires forall i :: 0 <= i < |pad2| ==> IsWhitespace(pad2[i])
    requires env.GetConfigVariable(JdkVersionVariable) == Some(pad1 + "11" + pad2)
             || (env.GetConfigVariable(JdkVersionVariable).None? && app.IncludesFile(JdkVersionFile)
                 && app.ReadFile(JdkVersionFile) == Ok(pad1 + "11" + pad2))
    ensures GetNixJdkPackage(app, env) == Ok(Pkg("jdk11"))
  {
    TrimPadded(pad1, "11", pad2);
  }
}
