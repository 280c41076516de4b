# nixpacks: Dockerfile synthesis and provider decisions, in Dafny

This project models the deterministic core of nixpacks, which turns a source tree into
a container image:

- **Instruction helpers** (`DockerUtils`): cache-mount clauses, cache upload commands,
  `COPY` and `COPY --from` lines, and the exec-form `CMD` line. The cache-mount and
  `COPY` helpers in `docker.rs` (lines 427-465) have the same shape as those in
  `docker/utils.rs` (lines 6-71). Each file imports its own cache-key sanitizer, so
  the sanitizer is the parameter `sanitize`. The helpers are modelled once, and the
  table cites `docker/utils.rs`.
- **Dockerfile synthesis** (`DockerFile`): `create_dockerfile` lowers a build plan and
  the builder options into Dockerfile text. The text is a record of named slots laid
  out line by line in template order.
- **Providers**:
  - `JavaProvider`: Maven and Gradle detection, the build plans, the start command and
    its port flag, the JDK chosen from the Gradle version, and the Gradle environment
    variables.
  - `ClojureProvider`: detection, fixed phases and the JDK version lookup.
  - `FSharpProvider`: detection, fixed phases, the start command named after the
    project file, and the runtime variables.
- **Top level** (`Nixpacks`): the fixed provider order and the start-command guard.

Supporting modules:

- `Wrappers`: Option, Result and Outcome.
- `Strings`: the Rust string operations the code relies on (`join`,
  `replace`, `contains`, `trim`, `parse::<i32>`) on `seq<char>`. It also has `split`,
  which the code does not call; the lemmas use it to read generated lines back into
  words.
- `AppModel`: the source tree as sets of file and directory paths plus a map from
  path to contents, the configuration as a map, Nix packages and phases.

Each finding below has an as-written member and a corrected member. For the two Java
findings, the rest of the model uses the corrected version (see "## Left out"). The
as-written versions sit next to them with the inputs that tell them apart.

The exec-form `CMD` line is meant to read back as the command, as a JSON array
element. The code keeps this only for commands without backslashes or control
characters. `DockerUtils.ExecCommand` follows the code, and the gap is recorded as a
finding.

## Model

| member | source | states |
|---|---|---|
| DockerUtils.ExpandHome | src/nixpacks/builder/docker/utils.rs:14 | an expanded cache directory has no `~` left |
| DockerUtils.CacheMount | src/nixpacks/builder/docker/utils.rs:6-25 | the mount string is empty exactly when the key or the directory list is missing or the list is empty |
| DockerUtils.CacheMountClauses | src/nixpacks/builder/docker/utils.rs:10-22 | split at spaces, the mount string gives one clause per directory, in order; the id is the sanitized `key-dir` and the target is the dir, both with `~` expanded |
| DockerUtils.CacheMountTwoDirs | src/nixpacks/builder/docker/utils.rs:11-22 | two directories give their two clauses joined by one space |
| DockerUtils.CacheMountPlainDirs | src/nixpacks/builder/docker/utils.rs:83-103 | the tested shape: for plain directories each id is `sanitize(key-dir)` and each target is the directory, whatever the sanitizer does to spaces |
| DockerUtils.ExpandHomePlain | src/nixpacks/builder/docker/utils.rs:14 | a directory without `~` is left as it is |
| DockerUtils.MountClausePlain | src/nixpacks/builder/docker/utils.rs:14-19 | the clause that `MountClause` builds for a directory without `~` names it unchanged in the id and the target |
| DockerUtils.ArchiveName | src/nixpacks/builder/docker/utils.rs:35-36 | the archive name of a directory has no `/`, so it names a single file |
| DockerUtils.ArchiveNameRoundTrip | src/nixpacks/builder/docker/utils.rs:35-36 | writing `%2f` back as `/` recovers any directory free of `%` and `~` |
| DockerUtils.SendCommands | src/nixpacks/builder/docker/utils.rs:32-43 | exactly two commands per directory, in order: the tar command, then the upload |
| DockerUtils.SendCachedDirsCommand | src/nixpacks/builder/docker/utils.rs:27-46 | no commands without a directory list; otherwise `tar -cf <archive>.tar.gz <dir>` then `curl -v -F upload=@<archive>.tar.gz <url>` for every directory, in order |
| DockerUtils.CopyCommand | src/nixpacks/builder/docker/utils.rs:48-54 | empty exactly for no files; otherwise COPY, the files in order and the destination, space separated |
| DockerUtils.CopyCommandWords | src/nixpacks/builder/docker/utils.rs:105-115 | when no name contains a space, the COPY line splits back into COPY, the files and the destination |
| DockerUtils.CopyFromCommand | src/nixpacks/builder/docker/utils.rs:56-71 | with no files, the whole app directory of stage 0; otherwise stage `from`, the files with `./` rewritten to the app directory (`StageFile`), then the app directory |
| DockerUtils.CopyFromIgnoresStage | src/nixpacks/builder/docker/utils.rs:57-58 | with no files the stage argument makes no difference; the line is `COPY --from=0 <app> <app>` |
| DockerUtils.CopyFromPlainFiles | src/nixpacks/builder/docker/utils.rs:117-131 | files without `./` appear under their own names |
| DockerUtils.ExecCommandPlain | src/nixpacks/builder/docker/utils.rs:133-143 | a command without quotes is placed in the CMD array unchanged |
| DockerUtils.ExecCommandQuotedWord | src/nixpacks/builder/docker/utils.rs:145-148 | a quoted word in a command has both quotes written as `\"` |
| DockerUtils.EscapeQuotesLeavesNoBareQuote | src/nixpacks/builder/docker/utils.rs:74 | every `"` in the command as `EscapeQuotes` escapes it is preceded by a backslash |
| DockerUtils.EscapeQuotesRoundTrip | src/nixpacks/builder/docker/utils.rs:144-148 | for a backslash-free command, replacing `\"` by `"` recovers it |
| DockerUtils.ExecCommandReadsBack | src/nixpacks/builder/docker/utils.rs:73-77 | for a command without backslashes or control characters, the JSON element of the CMD line that `ExecCommand` writes decodes to the command |
| DockerUtils.ExecCommandBackslash | src/nixpacks/builder/docker/utils.rs:73-77 | the command `\` gives a CMD line whose element is not a valid JSON string |
| DockerUtils.ExecCommandBackslashLetter | src/nixpacks/builder/docker/utils.rs:73-77 | the command `\n` gives a CMD line that decodes to a newline |
| DockerUtils.EscapeJsonUnquote | src/nixpacks/builder/docker/utils.rs:73-77 | every command escaped as a JSON string decodes back to itself |
| DockerUtils.ExecCommandEscapedReadsBack | src/nixpacks/builder/docker/utils.rs:73-77 | the corrected CMD line reads back as the command for every command |
| DockerFile.EffectiveCacheKey | src/nixpacks/builder/docker.rs:250-254 | a cache key is used exactly when neither `no_cache` nor the `NO_CACHE` config is set and a key is configured, and it is that key |
| DockerFile.ArgsLines | src/nixpacks/builder/docker.rs:256-274 | the variables block is empty exactly when there are no variables; otherwise it is an ARG line and an ENV line |
| DockerFile.ArgsNameEveryVariable | src/nixpacks/builder/docker.rs:258-264 | the ARG line names every variable, in key order, when no name contains a space |
| DockerFile.ArgsExportEveryVariable | src/nixpacks/builder/docker.rs:266-271 | the ENV line exports each variable as `NAME=$NAME`, in key order |
| DockerFile.SetupFiles | src/nixpacks/builder/docker.rs:278-281 | the setup copy lists `.nixpacks/environment.nix` first, then the setup phase's files in order |
| DockerFile.InstallFiles | src/nixpacks/builder/docker.rs:330-335 | install copies `.` unless it lists its own files |
| DockerFile.BuildFiles | src/nixpacks/builder/docker.rs:348-355 | build copies its own files; otherwise nothing when install was unrestricted, and `.` when install was restricted |
| DockerFile.RunLines | src/nixpacks/builder/docker.rs:310-318 | one `RUN <mounts> <cmd>` line per command, in order |
| DockerFile.AssetLines | src/nixpacks/builder/docker.rs:298-307 | one `COPY assets/<name> <assets dir><name>` per static asset, in key order |
| DockerFile.StartSetup | src/nixpacks/builder/docker.rs:363-386 | with a run image: a second stage with the certificates, `RUN true` and `COPY --from=0` of the start files; without one: a COPY of the start files, `.` by default |
| DockerFile.CreateDockerfile | src/nixpacks/builder/docker.rs:234-424 | every slot of the file: base image, variables block, setup copy, apt line only for packages, setup commands, assets, install and build copies and commands with their cache mounts, PATH lines, start section, and `CMD <cmd>` or nothing |
| DockerFile.NoCacheNoMounts | src/nixpacks/builder/docker.rs:310-346 | with caching off, no install or build command carries a mount |
| DockerFile.WholeTreeCopiedOnce | src/nixpacks/builder/docker.rs:330-355 | with no build file list, install copies the tree and build nothing, or install is restricted and build copies the tree |
| DockerFile.SlotLines | src/nixpacks/builder/docker.rs:388-421 | a slot's lines join to the same text as the joined slot, an empty slot printing as one empty line |
| DockerFile.LinesFrame | src/nixpacks/builder/docker.rs:388-421 | the file as `Lines` lays it out opens with FROM, WORKDIR, the setup copy and the Nix install, and ends with the start line and a final newline |
| JavaProvider.IsMavenApp | src/providers/java.rs:54-63 | a Maven project has one of the file markers as a file or one of the directory markers as a directory |
| JavaProvider.PomCljFileIsNotMaven | src/providers/java.rs:56-58 | a `pom.clj` file, as opposed to a directory, does not make a Maven project |
| JavaProvider.IsGradleAppAsWritten | src/providers/java.rs:100-119 | as written: not Gradle without `gradlew`, Gradle exactly with a build script, `settings.gradle` and the wrapper properties; a missing build script or a missing `settings.gradle` gets the build-script message, missing wrapper properties the wrapper message |
| JavaProvider.KotlinGradleProjectRefused | src/providers/java.rs:110-112 | a complete Kotlin-script project is refused with the build-script message |
| JavaProvider.IsGradleApp | src/providers/java.rs:100-119 | not Gradle without `gradlew`; Gradle exactly with a build script, a settings script and the wrapper properties; a missing build script or settings script gets the build-script message, missing wrapper properties the wrapper message |
| JavaProvider.IsGradleAppAgrees | src/providers/java.rs:110 | as written and corrected agree on every project with `settings.gradle` or without `gradlew` |
| JavaProvider.Detect | src/providers/java.rs:25-27 | a Maven project is detected without looking at Gradle; otherwise the Gradle answer, errors included |
| JavaProvider.GetMavenExe | src/providers/java.rs:65-72 | `./mvnw` exactly when the wrapper script and its properties exist, else `mvn` |
| JavaProvider.GetPortConfig | src/providers/java.rs:84-95 | the WildFly Swarm flag exactly when the pom names its group; the Spring Boot flag exactly when it does not but names the Spring Boot group and a `spring-boot` artifact; otherwise none |
| JavaProvider.GetStartCmd | src/providers/java.rs:74-83 | the port flag sits between `java` and `$JAVA_OPTS` only when there is a `pom.xml` |
| JavaProvider.StartCmdWithoutFramework | src/providers/java.rs:74-95 | a pom that names no framework leaves two spaces after `java` |
| JavaProvider.UnreadablePomHasNoFramework | src/providers/java.rs:84-86 | an unreadable pom counts as empty and gives no port flag |
| JavaProvider.MavenBuildPlan | src/providers/java.rs:41-52 | maven and jdk, the Maven build with the chosen executable, and the start command |
| JavaProvider.GradleBuildPlan | src/providers/java.rs:121-136 | fails exactly when the JDK cannot be chosen, with that error; otherwise that JDK, `./gradlew build -x check` and the jar start command |
| JavaProvider.GetBuildPlan | src/providers/java.rs:29-37 | a Gradle error fails the plan with the Gradle message; otherwise the Gradle plan for Gradle projects and the Maven plan for the rest |
| JavaProvider.JdkForMajor | src/providers/java.rs:236-243 | Gradle 6 gives jdk11, below 6 jdk8, above 6 jdk |
| JavaProvider.CustomGradleVersion | src/providers/java.rs:203-215 | the config variable, else the `.gradle-version` file, else the wrapper capture; an unreadable file is an error |
| JavaProvider.MajorVersion | src/providers/java.rs:223-236 | no major version when the second pass fails or its group is absent; a captured group other than `_` gives its i32 value, or 0 when it does not parse; a captured `_` gives none |
| JavaProvider.GetJdkPkg | src/providers/java.rs:186-246 | fails exactly when the version text cannot be read, with the read error; the package is always jdk, jdk8 or jdk11 |
| JavaProvider.JdkPkgConfigFirst | src/providers/java.rs:205-207 | with the config variable set, files play no part and there is no error |
| JavaProvider.JdkPkgVersionFileSecond | src/providers/java.rs:208-209 | without the variable, the version file decides whatever the wrapper properties say |
| JavaProvider.JdkPkgDefaults | src/providers/java.rs:217-228 | no version, or a version the second pass rejects, gives jdk |
| JavaProvider.JdkPkgOfVersion | src/providers/java.rs:217-245 | with a version text, the package is the one its major version selects, or jdk without one |
| JavaProvider.MajorVersionOfDigits | src/providers/java.rs:236 | captured digits are their value within i32 range and 0 beyond it |
| JavaProvider.JdkPkgOverflowIsJdk8 | src/providers/java.rs:236-240 | a major version beyond i32 fails to parse, counts as 0 and gives jdk8 |
| JavaProvider.JdkPkgEmptyCaptureIsJdk8 | src/providers/java.rs:223-240 | an empty capture, as for the version `latest`, counts as 0 and gives jdk8 |
| JavaProvider.JdkPkgForVersion | src/providers/java.rs:236-243 | a major version within i32 range selects the JDK by its value |
| JavaProvider.KotlinBuildScriptUnread | src/providers/java.rs:138-146 | as written (`ReadGradleFileAsWritten`), a readable `build.gradle.kts` alone is reported unreadable |
| JavaProvider.ReadGradleFile | src/providers/java.rs:138-146 | `build.gradle`, else `build.gradle.kts`, else empty |
| JavaProvider.ReadGradleFileAgrees | src/providers/java.rs:138-146 | as written and corrected agree whenever there is a `build.gradle` or no Kotlin script |
| JavaProvider.IsSpringBoot | src/providers/java.rs:148-156 | fails exactly when the build script cannot be read, with the read error |
| JavaProvider.SpringBootMarkers | src/providers/java.rs:151-153 | the first marker contains the third, so three markers decide |
| JavaProvider.AppConfigContent | src/providers/java.rs:166-173 | the YAML config, else the properties file, else empty |
| JavaProvider.WordRun | src/providers/java.rs:176 | the longest run of word characters at the front |
| JavaProvider.Placeholders | src/providers/java.rs:176-179 | every captured name is a non-empty run of word characters |
| JavaProvider.PlaceholderCaptured | src/providers/java.rs:176-178 | `${NAME` followed by a non-word character is captured as NAME, and the scan goes on after it |
| JavaProvider.PlaceholdersComplete | src/providers/java.rs:176-178 | every `${NAME` of the text, wherever it stands, adds NAME |
| JavaProvider.PlaceholdersSound | src/providers/java.rs:176-178 | every captured name is the word run after some `${` of the text |
| JavaProvider.WithEmptyValues | src/providers/java.rs:175-180 | the keys are the base keys plus the names; each name maps to "" and other keys keep their values |
| JavaProvider.GradleEnvVars | src/providers/java.rs:158-184 | `GRADLE_OPTS` only for non-Spring apps; for Spring Boot apps, every placeholder of the config as an empty variable; the error of the build-script or config read is returned unchanged |
| JavaProvider.GradleEnvVarsKeys | src/providers/java.rs:159-180 | `GRADLE_OPTS` is always set and keeps its value unless a placeholder has its name |
| ClojureProvider.Detect | src/providers/clojure.rs:19-21 | Clojure exactly when `project.clj` exists |
| ClojureProvider.Setup | src/providers/clojure.rs:23-28 | leiningen and jdk8 |
| ClojureProvider.Build | src/providers/clojure.rs:30-32 | `lein uberjar` |
| ClojureProvider.Start | src/providers/clojure.rs:34-38 | the uberjar started with `java $JAVA_OPTS` |
| ClojureProvider.PhasesFixed | src/providers/clojure.rs:23-38 | the phases depend on neither the project nor the configuration |
| ClojureProvider.CustomJdkVersion | src/providers/clojure.rs:43-49 | the `JDK_VERSION` config, else the `.jdk-version` file, else none; only reading the file can fail, and then with the read error |
| ClojureProvider.GetNixJdkPackage | src/providers/clojure.rs:42-83 | fails only when the version file cannot be read, with the read error; jdk11 exactly when the trimmed version is `11`, else jdk8 |
| ClojureProvider.ConfigVariableFirst | src/providers/clojure.rs:44-49 | with the config variable set, the project plays no part and there is no error |
| ClojureProvider.NoVersionIsDefault | src/providers/clojure.rs:51-54 | with no variable and no version file, jdk8 |
| ClojureProvider.MalformedVersionIsDefault | src/providers/clojure.rs:58-66 | a version that `IsJdkVersion` (the pattern `^[0-9][0-9]?$`) rejects after trimming gives jdk8, never an error |
| ClojureProvider.Version11 | src/providers/clojure.rs:105-131 | `11` with surrounding whitespace, from the variable or the file, gives jdk11 |
| FSharpProvider.Detect | src/providers/fsharp.rs:21-27 | detected exactly when a project file is found, with no metadata; search errors propagate |
| FSharpProvider.Setup | src/providers/fsharp.rs:29-36 | dotnet-sdk |
| FSharpProvider.Install | src/providers/fsharp.rs:38-45 | `dotnet restore` |
| FSharpProvider.Build | src/providers/fsharp.rs:47-57 | `dotnet publish --no-restore -c Release -o out` |
| FSharpProvider.LastDot | src/providers/fsharp.rs:65 | the position of the last `.` of a name, or none |
| FSharpProvider.FileStem | src/providers/fsharp.rs:65 | the stem is a prefix of the name |
| FSharpProvider.FileStemOfProject | src/providers/fsharp.rs:65 | removing the extension of `<stem>.fsproj` gives the stem |
| FSharpProvider.Start | src/providers/fsharp.rs:59-75 | `./out/<stem of the first project file>`; a missing name is `Invalid file_name` and a non-text name is `Invalid project_name` |
| FSharpProvider.StartOfProject | src/providers/fsharp.rs:65-74 | for `<stem>.fsproj` the start command is `./out/<stem>` |
| FSharpProvider.EnvironmentVariables | src/providers/fsharp.rs:77-99 | exactly the three variables, with their fixed values |
| Nixpacks.GetProviders | src/lib.rs:48-69 | 18 providers, each once, all present, Crystal first and Zig last |
| Nixpacks.ProviderOrder | src/lib.rs:55-67 | F# and Clojure come before Java, and Staticfile before Zig, the last |
| Nixpacks.CheckStartCommand | src/lib.rs:97-101 | fails exactly when a start phase has no command and the builder requires one, with `No start command could be found` |
| Strings.ParseI32ToDecimal | src/providers/java.rs:236 | a decimal number parses as an i32 exactly when it fits |

## Left out

- The cache-key sanitizer is not part of this model. It is the parameter `sanitize`.
- The truthiness of the `NO_CACHE` config variable is a boolean parameter.
- `app::ASSETS_DIR` is not part of this model. It is the parameter `assetsDir`.
- The unit tests that compare literal Dockerfile strings are stated over their
  arguments. `CacheMountPlainDirs`, `CopyCommandWords`, `CopyFromIgnoresStage`,
  `CopyFromPlainFiles`, `ExecCommandPlain` and `ExecCommandQuotedWord` cover their shapes, and the sanitizer's
  own outputs stay abstract.
- The whitespace the Dockerfile template macro strips or keeps is not modelled.
  This includes the indentation kept in the run-image block. The file is a list of
  lines.
- `create_image`, `get_docker_build_cmd`, the `write_*` functions, `OutputDir` and
  `docker_image_builder.rs` are left out: they are file, process and network I/O.
- The Gradle version regular expressions are parameters (`VersionExtractors`): the
  `distributionUrl` capture and the second pass over the version text.
- `JavaProvider.Placeholders`: `\w` is taken as ASCII letters, digits and `_`.
  Non-ASCII word characters are left out.
- `JavaProvider.IsMavenApp` returns a plain boolean because the source's `Result` is
  always `Ok`.
- `get_gradle_env_vars` is modelled on its own. The source never calls it, since the
  call at src/providers/java.rs:133 is commented out. `GradleBuildPlan` therefore adds
  no variables.
- Configuration lookup is by the name a provider passes. How names map to
  `NIXPACKS_`-prefixed variables is not part of this model. The Clojure provider
  passes `JDK_VERSION` (src/providers/clojure.rs:44), and its test sets
  `NIXPACKS_JDK_VERSION` (src/providers/clojure.rs:118-131), so the lookup appears
  to add the prefix. The Java provider passes `NIXPACKS_GRADLE_VERSION` with the prefix
  already on it (src/providers/java.rs:189, 203). If the lookup adds the prefix, that
  variable would be read as `NIXPACKS_NIXPACKS_GRADLE_VERSION`. The lookup is not part
  of this model, so this stays unconfirmed and `JavaProvider.CustomGradleVersion` looks
  up the name as passed.
- Finding project files (`App::find_files`) is not modelled. Its outcome is the
  parameter `found`.
- `FSharpProvider.Start` requires a non-empty list of found files. The source indexes
  the first one and would panic on an empty list.
- `FSharpProvider.FileStem`: a stem that is not valid text is assumed to stay invalid.
- `FSharpProvider.FileStem`: a stem of `.` is taken as the project name, where a Rust
  path would fall back to the parent directory's name.
- `DockerUtils.JsonUnquote`: pairs of `\u` surrogate escapes are refused rather than
  combined.
- `BuildPlan.variables` and `BuildPlan.staticAssets` are sequences of entries. The
  source's maps keep their keys distinct and sorted. The model does not require this,
  so "in key order" means the order of the entries the caller passes.
- `JavaProvider.Detect` uses the corrected `IsGradleApp`. The source accepts
  `settings.gradle.kts` only when `settings.gradle` is present too (see "## Findings").
- `JavaProvider.GetBuildPlan` uses the corrected `IsGradleApp`, for the same reason.
- `DockerFile.CreateDockerfile`: a plan without a setup phase gets the setup phase's
  `Default`, which is not part of this model. It is taken as no packages, no
  commands, no file list and an empty base image.
- `ClojureProvider.GetNixJdkPackage` is modelled on its own. The source calls it only
  from its unit tests (src/providers/clojure.rs:95, 108, 121). The setup phase always
  asks for `jdk8` (`ClojureProvider.PhasesFixed`), so `JDK_VERSION` and `.jdk-version`
  never change the image.
- `JavaProvider.IsSpringBoot` uses the corrected `ReadGradleFile`. The source reads
  `build.gradle` for a Kotlin build script (see "## Findings").
- `generate_build_plan`, the plan generator and the commented-out cache upload code in
  `src/lib.rs` are not modelled.
- The providers' `name` strings are not modelled.

## Findings

| source | as written | input that shows it | evidently intended | confidence | as-written member | corrected member |
|---|---|---|---|---|---|---|
| src/nixpacks/builder/docker/utils.rs:73-77 | only `"` is escaped, so a backslash in the command starts a JSON escape or escapes the closing quote | command `\` (line `CMD ["\"]`, not valid JSON); command `\n` (reads back as a newline) | the CMD array element decodes to the command, so `\` and control characters are escaped too | medium, not executed | DockerUtils.ExecCommandBackslash | DockerUtils.ExecCommandEscapedReadsBack |
| src/providers/java.rs:110 | the settings check tests `settings.gradle` twice | files `gradlew`, `build.gradle.kts`, `settings.gradle.kts`, `gradle/wrapper/gradle-wrapper.properties` are refused | a Kotlin `settings.gradle.kts` is accepted like `build.gradle.kts` | medium, not executed | JavaProvider.KotlinGradleProjectRefused | JavaProvider.IsGradleApp |
| src/providers/java.rs:141-142 | the `build.gradle.kts` branch reads `build.gradle` | only `build.gradle.kts` present and readable: reading fails | read `build.gradle.kts` | high, not executed | JavaProvider.KotlinBuildScriptUnread | JavaProvider.ReadGradleFile |
