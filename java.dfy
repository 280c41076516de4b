/** The Java provider: Maven and Gradle detection, the Maven and Gradle build plans,
    the start command with its port flag, the JDK package chosen from the Gradle
    version, and the Gradle environment variables of Spring Boot apps.

    The two regular expressions that read a Gradle version, the one over the wrapper
    properties and the second pass over the version text, are not part of this model:
    each is a parameter giving the capture it would produce. */
module JavaProvider {
  import opened Wrappers
  import opened Strings
  import opened AppModel

  const DefaultJdkPkgName: string := "jdk"
  const GradleWrapperProperties: string := "gradle/wrapper/gradle-wrapper.properties"
  const GradleVersionFile: string := ".gradle-version"
  const GradleVersionVariable: string := "NIXPACKS_GRADLE_VERSION"
  const GradleFilesMessage: string := "Gradle project detected with invalid files, please make sure you have build.gradle or build.gradle.kts at the root of your project directory"
  const GradleWrapperMessage: string := "Gradle project detected with invalid files, please make sure you have gradle/wrapper/gradle-wrapper.properties in your project directory"
  const GradleOpts: string := "-Dorg.gradle.daemon=false -Dorg.gradle.internal.launcher.welcomeMessageEnabled=false"

  /** The Maven markers looked up as files, and those looked up as directories. */
  const MavenFileMarkers: set<string> := {"pom.xml", "pom.rb", "pom.scala", "pom.yaml", "pom.yml"}
  const MavenDirMarkers: set<string> := {"pom.atom", "pom.clj", "pom.groovy"}

  /** A plan of the provider: a setup phase, a build phase and the start command. */
  datatype JavaPlan = JavaPlan(setup: SetupPhase, build: BuildPhase, start: StartPhase)

  /** The two captures of the Gradle version. `WrapperVersion` is the version after
      `gradle-` in the wrapper's `distributionUrl`, if any; `SecondPass` is None when
      the trimmed version text does not match, else the major-version group, if it
      took part in the match. */
  datatype VersionExtractors = VersionExtractors(
    WrapperVersion: string -> Option<string>,
    SecondPass: string -> Option<Option<string>>)

  /** A Maven project: one of the file markers as a file, or one of the directory
      markers as a directory. */
  function IsMavenApp(app: App): (r: bool)
    ensures r <==> (exists f :: f in MavenFileMarkers && app.IncludesFile(f))
                   || (exists d :: d in MavenDirMarkers && app.IncludesDirectory(d))
  {
    app.IncludesFile("pom.xml")
    || app.IncludesDirectory("pom.atom")
    || app.IncludesDirectory("pom.clj")
    || app.IncludesDirectory("pom.groovy")
    || app.IncludesFile("pom.rb")
    || app.IncludesFile("pom.scala")
    || app.IncludesFile("pom.yaml")
    || app.IncludesFile("pom.yml")
  }

  /** `pom.atom`, `pom.clj` and `pom.groovy` count only as directories: a project whose
      only marker is a `pom.clj` file is not a Maven project. */
  lemma PomCljFileIsNotMaven(app: App)
    requires app.files == {"pom.clj"} && app.dirs == {}
    ensures !IsMavenApp(app)
  {
  }

  /** Gradle detection as written: the settings check tests `settings.gradle` twice,
      so a Kotlin build script with `settings.gradle.kts` alone is refused. */
  function IsGradleAppAsWritten(app: App): (r: Result<bool>)
    ensures r == Ok(false) <==> !app.IncludesFile("gradlew")
    ensures r == Ok(true) <==>
              app.IncludesFile("gradlew")
              && (app.IncludesFile("build.gradle") || app.IncludesFile("build.gradle.kts"))
              && app.IncludesFile("settings.gradle")
              && app.IncludesFile(GradleWrapperProperties)
    ensures app.IncludesFile("gradlew") && !app.IncludesFile("build.gradle") && !app.IncludesFile("build.gradle.kts") ==>
              r == Err(GradleFilesMessage)
    ensures app.IncludesFile("gradlew") && (app.IncludesFile("build.gradle") || app.IncludesFile("build.gradle.kts"))
            && !app.IncludesFile("settings.gradle") ==>
              r == Err(GradleFilesMessage)
    ensures app.IncludesFile("gradlew") && (app.IncludesFile("build.gradle") || app.IncludesFile("build.gradle.kts"))
            && app.IncludesFile("settings.gradle") && !app.IncludesFile(GradleWrapperProperties) ==>
              r == Err(GradleWrapperMessage)
  {
    if !app.IncludesFile("gradlew") then Ok(false)
    else if !(app.IncludesFile("build.gradle") || app.IncludesFile("build.gradle.kts")) then Err(GradleFilesMessage)
    else if !(app.IncludesFile("settings.gradle") || app.IncludesFile("settings.gradle")) then Err(GradleFilesMessage)
    else if !app.IncludesFile(GradleWrapperProperties) then Err(GradleWrapperMessage)
    else Ok(true)
  }

  /** A complete Kotlin-script Gradle project that detection as written refuses. */
  lemma KotlinGradleProjectRefused()
    ensures var app := App({"gradlew", "build.gradle.kts", "settings.gradle.kts", GradleWrapperProperties}, {}, map[]);
            IsGradleAppAsWritten(app) == Err(GradleFilesMessage)
  {
  }

  /** A Gradle project: none without the `gradlew` wrapper script; with it, an error
      unless a build script, a settings script (Groovy or Kotlin) and the wrapper
      properties are all present. */
  function IsGradleApp(app: App): (r: Result<bool>)
    ensures r == Ok(false) <==> !app.IncludesFile("gradlew")
    ensures r == Ok(true) <==>
              app.IncludesFile("gradlew")
              && (app.IncludesFile("build.gradle") || app.IncludesFile("build.gradle.kts"))
              && (app.IncludesFile("settings.gradle") || app.IncludesFile("settings.gradle.kts"))
              && app.IncludesFile(GradleWrapperProperties)
    ensures r.Err? ==> r.error == GradleFilesMessage || r.error == GradleWrapperMessage
    ensures app.IncludesFile("gradlew") && !app.IncludesFile("build.gradle") && !app.IncludesFile("build.gradle.kts") ==>
              r == Err(GradleFilesMessage)
    ensures app.IncludesFile("gradlew") && (app.IncludesFile("build.gradle") || app.IncludesFile("build.gradle.kts"))
            && !app.IncludesFile("settings.gradle") && !app.IncludesFile("settings.gradle.kts") ==>
              r == Err(GradleFilesMessage)
    ensures app.IncludesFile("gradlew") && (app.IncludesFile("build.gradle") || app.IncludesFile("build.gradle.kts"))
            && (app.IncludesFile("settings.gradle") || app.IncludesFile("settings.gradle.kts"))
            && !app.IncludesFile(GradleWrapperProperties) ==>
              r == Err(GradleWrapperMessage)
  {
    if !app.IncludesFile("gradlew") then Ok(false)
    else if !(app.IncludesFile("build.gradle") || app.IncludesFile("build.gradle.kts")) then Err(GradleFilesMessage)
    else if !(app.IncludesFile("settings.gradle") || app.IncludesFile("settings.gradle.kts")) then Err(GradleFilesMessage)
    else if !app.IncludesFile(GradleWrapperProperties) then Err(GradleWrapperMessage)
    else Ok(true)
  }

  /** The two agree on every project that has a `settings.gradle`, or no `gradlew`. */
  lemma IsGradleAppAgrees(app: App)
    requires app.IncludesFile("settings.gradle") || !app.IncludesFile("gradlew")
    ensures IsGradleAppAsWritten(app) == IsGradleApp(app)
  {
  }

  /** The Java provider applies to Maven projects, and otherwise to Gradle projects;
      a Gradle error surfaces only for a project that is not a Maven project. */
  function Detect(app: App, env: Environment): (r: Result<bool>)
    ensures IsMavenApp(app) ==> r == Ok(true)
    ensures !IsMavenApp(app) ==> r == IsGradleApp(app)
    ensures r == Ok(true) <==> IsMavenApp(app) || IsGradleApp(app) == Ok(true)
  {
    if IsMavenApp(app) then Ok(true)
    else
      var gradle :- IsGradleApp(app);
      Ok(gradle)
  }

  /** The Maven wrapper is used exactly when both its script and its properties exist. */
  function GetMavenExe(app: App): (r: string)
    ensures r == "./mvnw" <==> app.IncludesFile("mvnw") && app.IncludesFile(".mvn/wrapper/maven-wrapper.properties")
    ensures r == "./mvnw" || r == "mvn"
  {
    if app.IncludesFile("mvnw") && app.IncludesFile(".mvn/wrapper/maven-wrapper.properties") then "./mvnw"
    else "mvn"
  }

  /** The JVM flag that sets the HTTP port from `$PORT`, read from the pom: WildFly
      Swarm first, then Spring Boot (its group and a `spring-boot` artifact), else none.
      An unreadable pom counts as empty. */
  function GetPortConfig(app: App): (r: string)
    ensures var pom := app.ReadFile("pom.xml").UnwrapOr("");
            (r == "-Dswarm.http.port=$PORT" <==> Contains(pom, "<groupId>org.wildfly.swarm")) &&
            (r == "-Dserver.port=$PORT" <==>
               !Contains(pom, "<groupId>org.wildfly.swarm")
               && Contains(pom, "<groupId>org.springframework.boot")
               && Contains(pom, "<artifactId>spring-boot")) &&
            (r == "" || r == "-Dswarm.http.port=$PORT" || r == "-Dserver.port=$PORT")
  {
    var pom := app.ReadFile("pom.xml").UnwrapOr("");
    if Contains(pom, "<groupId>org.wildfly.swarm") then "-Dswarm.http.port=$PORT"
    else if Contains(pom, "<groupId>org.springframework.boot") && Contains(pom, "<artifactId>spring-boot") then "-Dserver.port=$PORT"
    else ""
  }

  /** The start command: the jar under `target/`, with the port flag between `java`
      and `$JAVA_OPTS` when there is a `pom.xml`. */
  function GetStartCmd(app: App): (r: string)
    ensures app.IncludesFile("pom.xml") ==> r == "java " + GetPortConfig(app) + " $JAVA_OPTS -jar target/*jar"
    ensures !app.IncludesFile("pom.xml") ==> r == "java $JAVA_OPTS -jar target/*jar"
  {
    if app.IncludesFile("pom.xml") then "java " + GetPortConfig(app) + " $JAVA_OPTS -jar target/*jar"
    else "java $JAVA_OPTS -jar target/*jar"
  }

  /** A pom without a recognised framework, or one that cannot be read, leaves two
      spaces after `java`. */
  lemma StartCmdWithoutFramework(app: App)
    requires app.IncludesFile("pom.xml")
    requires var pom := app.ReadFile("pom.xml").UnwrapOr("");
             !Contains(pom, "<groupId>org.wildfly.swarm")
             && !(Contains(pom, "<groupId>org.springframework.boot") && Contains(pom, "<artifactId>spring-boot"))
    ensures GetStartCmd(app) == "java  $JAVA_OPTS -jar target/*jar"
  {
    assert "java " + "" + " $JAVA_OPTS -jar target/*jar" == "java  $JAVA_OPTS -jar target/*jar";
  }

  /** An unreadable pom counts as empty, so it names no framework. */
  lemma UnreadablePomHasNoFramework(app: App)
    requires app.IncludesFile("pom.xml") && app.ReadFile("pom.xml").Err?
    ensures GetPortConfig(app) == ""
  {
    assert !Contains("", "<groupId>org.wildfly.swarm");
    assert !Contains("", "<groupId>org.springframework.boot");
  }

  function MavenBuildPlan(app: App): (r: JavaPlan)
    ensures r.setup.pkgs == [Pkg("maven"), Pkg("jdk")]
    ensures r.build.cmd == GetMavenExe(app) + " -DoutputFile=target/mvn-dependency-list.log -B -DskipTests clean dependency:list install"
    ensures r.start.cmd == GetStartCmd(app)
  {
    JavaPlan(SetupPhase([Pkg("maven"), Pkg("jdk")]),
             BuildPhase(GetMavenExe(app) + " -DoutputFile=target/mvn-dependency-list.log -B -DskipTests clean dependency:list install"),
             StartPhase(GetStartCmd(app)))
  }

  /** The Gradle plan: the JDK the Gradle version calls for, `./gradlew build`, and the
      built jar started on `$PORT`; fails only when the JDK cannot be chosen. */
  function GradleBuildPlan(app: App, env: Environment, x: VersionExtractors): (r: Result<JavaPlan>)
    ensures r.Ok? <==> GetJdkPkg(app, env, x).Ok?
    ensures r.Err? ==> r.error == GetJdkPkg(app, env, x).error
    ensures r.Ok? ==>
              r.value.setup.pkgs == [GetJdkPkg(app, env, x).value] &&
              r.value.build.cmd == "./gradlew build -x check" &&
              r.value.start.cmd == "bash -c \"java -Dserver.port=$PORT $JAVA_OPTS -jar ./build/libs/*.jar\""
  {
    var jdk :- GetJdkPkg(app, env, x);
    Ok(JavaPlan(SetupPhase([jdk]), BuildPhase("./gradlew build -x check"),
                StartPhase("bash -c \"java -Dserver.port=$PORT $JAVA_OPTS -jar ./build/libs/*.jar\"")))
  }

  /** Gradle projects get the Gradle plan and everything else the Maven plan; a Gradle
      error fails the plan even for a Maven project. */
  function GetBuildPlan(app: App, env: Environment, x: VersionExtractors): (r: Result<JavaPlan>)
    ensures IsGradleApp(app).Err? ==> r == Err(IsGradleApp(app).error)
    ensures IsGradleApp(app) == Ok(true) ==> r == GradleBuildPlan(app, env, x)
    ensures IsGradleApp(app) == Ok(false) ==> r == Ok(MavenBuildPlan(app))
  {
    var gradle :- IsGradleApp(app);
    if gradle then GradleBuildPlan(app, env, x) else Ok(MavenBuildPlan(app))
  }

  /** The JDK for a Gradle major version: Gradle 6 runs on JDK 11, older ones on JDK 8,
      newer ones on the default JDK. */
  function JdkForMajor(major: int): (r: Pkg)
    ensures major == 6 <==> r == Pkg("jdk11")
    ensures major < 6 <==> r == Pkg("jdk8")
    ensures major > 6 <==> r == Pkg(DefaultJdkPkgName)
  {
    if major == 6 then Pkg("jdk11") else if major < 6 then Pkg("jdk8") else Pkg(DefaultJdkPkgName)
  }

  /** Where the Gradle version comes from: the config variable, else the version file,
      else the wrapper properties (whose absence is an error). */
  function CustomGradleVersion(app: App, env: Environment, x: VersionExtractors): (r: Result<Option<string>>)
    ensures env.GetConfigVariable(GradleVersionVariable).Some? ==> r == Ok(env.GetConfigVariable(GradleVersionVariable))
    ensures env.GetConfigVariable(GradleVersionVariable).None? && app.IncludesFile(GradleVersionFile) ==>
              r == (if app.ReadFile(GradleVersionFile).Ok? then Ok(Some(app.ReadFile(GradleVersionFile).value))
                    else Err(app.ReadFile(GradleVersionFile).error))
    ensures env.GetConfigVariable(GradleVersionVariable).None? && !app.IncludesFile(GradleVersionFile) ==>
              r == (if app.ReadFile(GradleWrapperProperties).Ok?
                    then Ok(x.WrapperVersion(app.ReadFile(GradleWrapperProperties).value))
                    else Err(app.ReadFile(GradleWrapperProperties).error))
  {
    var custom := env.GetConfigVariable(GradleVersionVariable);
    if custom.Some? then Ok(custom)
    else if app.IncludesFile(GradleVersionFile) then
      var text :- app.ReadFile(GradleVersionFile);
      Ok(Some(text))
    else
      var content :- app.ReadFile(GradleWrapperProperties);
      Ok(x.WrapperVersion(content))
  }

  /** The major version read from a version text: None when there is none (no match,
      or the group did not take part), else the i32 value of the captured digits,
      0 when they do not parse. */
  function MajorVersion(version: string, x: VersionExtractors): (r: Option<int>)
    ensures x.SecondPass(Trim(version)).None? ==> r.None?
    ensures x.SecondPass(Trim(version)) == Some(None) ==> r.None?
    ensures x.SecondPass(Trim(version)) == Some(Some("_")) ==> r.None?
    ensures var c := x.SecondPass(Trim(version));
            c.Some? && c.value.Some? && c.value.value != "_" ==>
              r.Some? && (ParseI32(c.value.value).Some? ==> r.value == ParseI32(c.value.value).value)
              && (ParseI32(c.value.value).None? ==> r.value == 0)
    ensures r.Some? ==> I32Min <= r.value <= I32Max
  {
    match x.SecondPass(Trim(version))
    case None => None
    case Some(group) =>
      var parsed := group.UnwrapOr("_");
      if parsed == "_" then None else Some(ParseI32(parsed).UnwrapOr(0))
  }

  /** The JDK package for a Gradle project. */
  function GetJdkPkg(app: App, env: Environment, x: VersionExtractors): (r: Result<Pkg>)
    ensures r.Err? <==> CustomGradleVersion(app, env, x).Err?
    ensures r.Err? ==> r.error == CustomGradleVersion(app, env, x).error
    ensures r.Ok? ==> r.value in {Pkg("jdk"), Pkg("jdk8"), Pkg("jdk11")}
  {
    var custom :- CustomGradleVersion(app, env, x);
    match custom
    case None => Ok(Pkg(DefaultJdkPkgName))
    case Some(version) =>
      match MajorVersion(version, x)
      case None => Ok(Pkg(DefaultJdkPkgName))
      case Some(major) => Ok(JdkForMajor(major))
  }

  /** The config variable decides alone: neither files nor their contents matter. */
  lemma JdkPkgConfigFirst(app1: App, app2: App, env: Environment, x: VersionExtractors)
    requires env.GetConfigVariable(GradleVersionVariable).Some?
    ensures GetJdkPkg(app1, env, x) == GetJdkPkg(app2, env, x)
    ensures GetJdkPkg(app1, env, x).Ok?
  {
  }

  /** Without the config variable, a version file decides, whatever the wrapper
      properties say or whether they exist. */
  lemma JdkPkgVersionFileSecond(app1: App, app2: App, env: Environment, x: VersionExtractors)
    requires env.GetConfigVariable(GradleVersionVariable).None?
    requires app1.IncludesFile(GradleVersionFile) && app2.IncludesFile(GradleVersionFile)
    requires app1.ReadFile(GradleVersionFile) == app2.ReadFile(GradleVersionFile)
    ensures GetJdkPkg(app1, env, x) == GetJdkPkg(app2, env, x)
  {
  }

  /** A wrapper without a version, or a version the second pass rejects, gives the
      default JDK. */
  lemma JdkPkgDefaults(app: App, env: Environment, x: VersionExtractors)
    requires CustomGradleVersion(app, env, x) == Ok(None)
             || (CustomGradleVersion(app, env, x).Ok? && CustomGradleVersion(app, env, x).value.Some?
                 && x.SecondPass(Trim(CustomGradleVersion(app, env, x).value.value)).None?)
    ensures GetJdkPkg(app, env, x) == Ok(Pkg(DefaultJdkPkgName))
  {
  }

  /** A captured run of digits is its value when that fits in an i32, and 0 when it
      does not parse. */
  lemma MajorVersionOfDigits(version: string, x: VersionExtractors, n: nat)
    requires x.SecondPass(Trim(version)) == Some(Some(ToDecimal(n)))
    ensures n <= I32Max ==> MajorVersion(version, x) == Some(n)
    ensures n > I32Max ==> MajorVersion(version, x) == Some(0)
  {
    ParseI32ToDecimal(n);
    ToDecimalValue(n);
    assert ToDecimal(n) != "_" by {
      assert IsAsciiDigit(ToDecimal(n)[0]);
    }
  }

  /** With a version text, the package is the one its major version selects, or the
      default without one. */
  lemma JdkPkgOfVersion(app: App, env: Environment, x: VersionExtractors, version: string)
    requires CustomGradleVersion(app, env, x) == Ok(Some(version))
    ensures MajorVersion(version, x).None? ==> GetJdkPkg(app, env, x) == Ok(Pkg(DefaultJdkPkgName))
    ensures MajorVersion(version, x).Some? ==> GetJdkPkg(app, env, x) == Ok(JdkForMajor(MajorVersion(version, x).value))
  {
  }

  /** A captured major version too large for an i32 fails to parse, counts as 0, and
      so selects JDK 8. */
  lemma JdkPkgOverflowIsJdk8(app: App, env: Environment, x: VersionExtractors, version: string, n: nat)
    requires n > I32Max
    requires CustomGradleVersion(app, env, x) == Ok(Some(version))
    requires x.SecondPass(Trim(version)) == Some(Some(ToDecimal(n)))
    ensures GetJdkPkg(app, env, x) == Ok(Pkg("jdk8"))
  {
    MajorVersionOfDigits(version, x, n);
    JdkPkgOfVersion(app, env, x, version);
  }

  /** A captured major version in i32 range selects the JDK by its value. */
  lemma JdkPkgForVersion(app: App, env: Environment, x: VersionExtractors, version: string, n: nat)
    requires n <= I32Max
    requires CustomGradleVersion(app, env, x) == Ok(Some(version))
    requires x.SecondPass(Trim(version)) == Some(Some(ToDecimal(n)))
    ensures GetJdkPkg(app, env, x) == Ok(JdkForMajor(n))
  {
    MajorVersionOfDigits(version, x, n);
    JdkPkgOfVersion(app, env, x, version);
  }

  /** An empty capture, as for the version text `latest`, does not parse, counts as 0,
      and so selects JDK 8. */
  lemma JdkPkgEmptyCaptureIsJdk8(app: App, env: Environment, x: VersionExtractors, version: string)
    requires CustomGradleVersion(app, env, x) == Ok(Some(version))
    requires x.SecondPass(Trim(version)) == Some(Some(""))
    ensures GetJdkPkg(app, env, x) == Ok(Pkg("jdk8"))
  {
    assert ParseI32("").None?;
    JdkPkgOfVersion(app, env, x, version);
  }

  /** The Gradle build script as written: for a Kotlin script it reads `build.gradle`,
      which does not exist, and so fails. */
  function ReadGradleFileAsWritten(app: App): Result<string>
  {
    if app.IncludesFile("build.gradle") then app.ReadFile("build.gradle")
    else if app.IncludesFile("build.gradle.kts") then app.ReadFile("build.gradle")
    else Ok("")
  }

  /** A readable Kotlin build script with no Groovy one is reported unreadable. */
  lemma KotlinBuildScriptUnread()
    ensures var app := App({"build.gradle.kts"}, {}, map["build.gradle.kts" := "plugins {}"]);
            ReadGradleFileAsWritten(app).Err?
  {
  }

  /** The Gradle build script: `build.gradle`, else `build.gradle.kts`, else empty. */
  function ReadGradleFile(app: App): (r: Result<string>)
    ensures app.IncludesFile("build.gradle") ==> r == app.ReadFile("build.gradle")
    ensures !app.IncludesFile("build.gradle") && app.IncludesFile("build.gradle.kts") ==>
              r == app.ReadFile("build.gradle.kts")
    ensures !app.IncludesFile("build.gradle") && !app.IncludesFile("build.gradle.kts") ==> r == Ok("")
  {
    if app.IncludesFile("build.gradle") then app.ReadFile("build.gradle")
    else if app.IncludesFile("build.gradle.kts") then app.ReadFile("build.gradle.kts")
    else Ok("")
  }

  /** The two agree whenever there is a Groovy build script or no Kotlin one. */
  lemma ReadGradleFileAgrees(app: App)
    requires app.IncludesFile("build.gradle") || !app.IncludesFile("build.gradle.kts")
    ensures ReadGradleFileAsWritten(app) == ReadGradleFile(app)
  {
  }

  /** A Spring Boot (or Grails) build script mentions one of the framework's markers. */
  function IsSpringBoot(app: App): (r: Result<bool>)
    ensures r.Err? <==> ReadGradleFile(app).Err?
    ensures r.Err? ==> r.error == ReadGradleFile(app).error
  {
    var content :- ReadGradleFile(app);
    Ok(Contains(content, "org.springframework.boot:spring-boot")
       || Contains(content, "spring-boot-gradle-plugin")
       || Contains(content, "org.springframework.boot")
       || Contains(content, "org.grails:grails-"))
  }

  /** The first marker contains the third, so it never decides on its own. */
  lemma SpringBootMarkers(app: App)
    requires ReadGradleFile(app).Ok?
    ensures var content := ReadGradleFile(app).value;
            IsSpringBoot(app) == Ok(Contains(content, "spring-boot-gradle-plugin")
                                    || Contains(content, "org.springframework.boot")
                                    || Contains(content, "org.grails:grails-"))
  {
    var content := ReadGradleFile(app).value;
    if Contains(content, "org.springframework.boot:spring-boot") {
      assert "org.springframework.boot:spring-boot" == "org.springframework.boot" + ":spring-boot";
      ContainsPrefix(content, "org.springframework.boot", ":spring-boot");
    }
  }

  /** The application config of a Spring Boot app: the YAML file, else the properties
      file, else empty. */
  function AppConfigContent(app: App): (r: Result<string>)
    ensures app.IncludesFile("src/main/resources/config/application.yml") ==>
              r == app.ReadFile("src/main/resources/config/application.yml")
    ensures !app.IncludesFile("src/main/resources/config/application.yml") &&
            app.IncludesFile("src/main/resources/config/application.properties") ==>
              r == app.ReadFile("src/main/resources/config/application.properties")
    ensures (!app.IncludesFile("src/main/resources/config/application.yml") &&
             !app.IncludesFile("src/main/resources/config/application.properties")) ==> r == Ok("")
  {
    if app.IncludesFile("src/main/resources/config/application.yml") then
      app.ReadFile("src/main/resources/config/application.yml")
    else if app.IncludesFile("src/main/resources/config/application.properties") then
      app.ReadFile("src/main/resources/config/application.properties")
    else Ok("")
  }

  /** The word characters of the placeholder pattern (ASCII letters, digits and `_`). */
  predicate IsWordChar(c: char)
  {
    'a' <= c <= 'z' || 'A' <= c <= 'Z' || '0' <= c <= '9' || c == '_'
  }

  /** The longest prefix of word characters. */
  function WordRun(s: string): (r: string)
    ensures r <= s
    ensures forall i :: 0 <= i < |r| ==> IsWordChar(r[i])
    ensures |r| < |s| ==> !IsWordChar(s[|r|])
  {
    if s != [] && IsWordChar(s[0]) then [s[0]] + WordRun(s[1..]) else []
  }

  /** The names captured by `\$\{(\w+)` over the text: each `${` followed by a run of
      word characters, scanning left to right without overlap. */
  function Placeholders(s: string): (r: seq<string>)
    ensures forall i :: 0 <= i < |r| ==> r[i] != [] && forall j :: 0 <= j < |r[i]| ==> IsWordChar(r[i][j])
    decreases |s|
  {
    if s == [] then []
    else if |s| > 2 && s[0] == '$' && s[1] == '{' && IsWordChar(s[2]) then
      var name := WordRun(s[2..]);
      [name] + Placeholders(s[2 + |name|..])
    else Placeholders(s[1..])
  }

  /** A placeholder written out, followed by a non-word character, is captured first. */
  lemma {:induction false} PlaceholderCaptured(name: string, rest: string)
    requires name != [] && forall j :: 0 <= j < |name| ==> IsWordChar(name[j])
    requires rest == [] || !IsWordChar(rest[0])
    ensures var r := Placeholders("${" + name + rest);
            |r| >= 1 && r[0] == name && r[1..] == Placeholders(rest)
  {
    var s := "${" + name + rest;
    assert s[2..] == name + rest;
    WordRunPrefix(name, rest);
    assert s[2 + |name|..] == rest;
  }

  lemma {:induction false} WordRunPrefix(name: string, rest: string)
    requires forall j :: 0 <= j < |name| ==> IsWordChar(name[j])
    requires rest == [] || !IsWordChar(rest[0])
    ensures WordRun(name + rest) == name
  {
    if name != [] {
      assert (name + rest)[1..] == name[1..] + rest;
      WordRunPrefix(name[1..], rest);
      assert [name[0]] + name[1..] == name;
    } else {
      assert name + rest == rest;
    }
  }

  /** A `${` at position `i` of the text, followed by a word character. */
  predicate PlaceholderAt(s: string, i: int)
  {
    0 <= i && i + 2 < |s| && s[i] == '$' && s[i + 1] == '{' && IsWordChar(s[i + 2])
  }

  /** Every `${NAME` of the text, wherever it stands, contributes NAME. */
  lemma {:induction false} PlaceholdersComplete(s: string, i: int)
    requires PlaceholderAt(s, i)
    ensures WordRun(s[i + 2..]) in Placeholders(s)
    decreases |s|
  {
    if PlaceholderAt(s, 0) {
      var name := WordRun(s[2..]);
      if i != 0 {
        // the scan resumes after the first name, and `i` cannot fall inside it
        assert i >= 2 + |name|;
        var rest := s[2 + |name|..];
        var j := i - 2 - |name|;
        assert rest[j + 2..] == s[i + 2..];
        PlaceholdersComplete(rest, j);
      }
    } else {
      var rest := s[1..];
      assert rest[i - 1 + 2..] == s[i + 2..];
      PlaceholdersComplete(rest, i - 1);
    }
  }

  /** The name is the word run after some `${` of the text. */
  ghost predicate CapturedFrom(s: string, name: string)
  {
    exists i :: PlaceholderAt(s, i) && name == WordRun(s[i + 2..])
  }

  /** A capture in a suffix of the text is a capture in the text. */
  lemma CapturedFromSuffix(s: string, d: nat, name: string)
    requires d <= |s| && CapturedFrom(s[d..], name)
    ensures CapturedFrom(s, name)
  {
    var j :| PlaceholderAt(s[d..], j) && name == WordRun(s[d..][j + 2..]);
    assert s[d..][j + 2..] == s[d + j + 2..];
    assert PlaceholderAt(s, d + j);
  }

  /** Every captured name is the word run after some `${` of the text. */
  lemma {:induction false} PlaceholdersSound(s: string)
    ensures forall k :: 0 <= k < |Placeholders(s)| ==> CapturedFrom(s, Placeholders(s)[k])
    decreases |s|
  {
    var r := Placeholders(s);
    if s == [] {
    } else if PlaceholderAt(s, 0) {
      var name := WordRun(s[2..]);
      var d := 2 + |name|;
      PlaceholdersSound(s[d..]);
      assert r == [name] + Placeholders(s[d..]);
      forall k | 0 <= k < |r|
        ensures CapturedFrom(s, r[k])
      {
        if k == 0 {
          assert PlaceholderAt(s, 0) && r[0] == WordRun(s[0 + 2..]);
        } else {
          assert r[k] == Placeholders(s[d..])[k - 1];
          CapturedFromSuffix(s, d, r[k]);
        }
      }
    } else {
      PlaceholdersSound(s[1..]);
      assert r == Placeholders(s[1..]);
      forall k | 0 <= k < |r|
        ensures CapturedFrom(s, r[k])
      {
        CapturedFromSuffix(s, 1, r[k]);
      }
    }
  }

  /** The variables a list of placeholder names adds over the base: each name with
      an empty value. */
  function WithEmptyValues(base: map<string, string>, names: seq<string>): (r: map<string, string>)
    ensures r.Keys == base.Keys + set i | 0 <= i < |names| :: names[i]
    ensures forall i :: 0 <= i < |names| ==> r[names[i]] == ""
    ensures forall k :: k in base && k !in names ==> r[k] == base[k]
    decreases |names|
  {
    if names == [] then base
    else
      var r := WithEmptyValues(base[names[0] := ""], names[1..]);
      assert forall i :: 0 < i < |names| ==> names[i] == names[1..][i - 1];
      r
  }

  /** The environment variables of a Gradle build: `GRADLE_OPTS` turning off the
      daemon and the welcome message, and for Spring Boot apps every placeholder
      named in the application config, with an empty value. */
  method GradleEnvVars(app: App) returns (r: Result<map<string, string>>)
    ensures IsSpringBoot(app).Err? ==> r == Err(IsSpringBoot(app).error)
    ensures IsSpringBoot(app) == Ok(false) ==> r == Ok(map["GRADLE_OPTS" := GradleOpts])
    ensures IsSpringBoot(app) == Ok(true) ==>
              (AppConfigContent(app).Err? ==> r == Err(AppConfigContent(app).error)) &&
              (AppConfigContent(app).Ok? ==>
                 r == Ok(WithEmptyValues(map["GRADLE_OPTS" := GradleOpts], Placeholders(AppConfigContent(app).value))))
  {
    var vars := map["GRADLE_OPTS" := GradleOpts];
    var spring :- IsSpringBoot(app);
    if spring {
      var content :- AppConfigContent(app);
      if |content| > 0 {
        var names := Placeholders(content);
        var i := 0;
        while i < |names|
          invariant 0 <= i <= |names|
          invariant WithEmptyValues(vars, names[i..]) == WithEmptyValues(map["GRADLE_OPTS" := GradleOpts], names)
        {
          assert names[i..][1..] == names[i + 1..];
          vars := vars[names[i] := ""];
          i := i + 1;
        }
        assert names[i..] == [];
      }
    }
    return Ok(vars);
  }

  /** Whatever the config says, `GRADLE_OPTS` is set, and every placeholder becomes a
      variable with an empty value. */
  lemma GradleEnvVarsKeys(base: map<string, string>, names: seq<string>)
    requires "GRADLE_OPTS" in base
    ensures var r := WithEmptyValues(base, names);
            "GRADLE_OPTS" in r && (forall i :: 0 <= i < |names| ==> names[i] in r && r[names[i]] == "")
            && ("GRADLE_OPTS" !in names ==> r["GRADLE_OPTS"] == base["GRADLE_OPTS"])
  {
  }
}
