/** Lowering a build plan into Dockerfile text: the effective cache key, the variables
    block, the setup, install, build and start sections, and the order in which the
    template places them.

    The Dockerfile is a record of named slots; `Lines` lays the slots out in template
    order, one line per entry, an empty slot standing for the empty line the template
    leaves in its place. The indentation the template macro strips or keeps is not part
    of this model. */
module DockerFile {
  import opened Wrappers
  import opened Strings
  import opened DockerUtils

  const AppDir: string := "/app/"
  const EnvironmentNixPath: string := ".nixpacks/environment.nix"
  /** The whole-tree copy of the install and build sections. */
  const CopyAll: string := "COPY . /app/"

  datatype SetupPhase = SetupPhase(
    onlyIncludeFiles: Option<seq<string>>,
    aptPkgs: Option<seq<string>>,
    cmds: Option<seq<string>>,
    baseImage: string)

  datatype InstallPhase = InstallPhase(
    cmds: Option<seq<string>>,
    cacheDirectories: Option<seq<string>>,
    paths: Option<seq<string>>,
    onlyIncludeFiles: Option<seq<string>>)

  datatype BuildPhase = BuildPhase(
    cmds: Option<seq<string>>,
    cacheDirectories: Option<seq<string>>,
    onlyIncludeFiles: Option<seq<string>>)

  datatype StartPhase = StartPhase(
    cmd: Option<string>,
    onlyIncludeFiles: Option<seq<string>>,
    runImage: Option<string>)

  /** A build plan. `variables` and `staticAssets` are ordered maps, given as their
      entries in key order. */
  datatype BuildPlan = BuildPlan(
    setup: Option<SetupPhase>,
    install: Option<InstallPhase>,
    build: Option<BuildPhase>,
    start: Option<StartPhase>,
    variables: Option<seq<(string, string)>>,
    staticAssets: Option<seq<(string, string)>>)

  /** The builder options the Dockerfile depends on. */
  datatype DockerBuilderOptions = DockerBuilderOptions(cacheKey: Option<string>, noCache: bool)

  /** The generated file, slot by slot. Slots the source joins with newlines are lists
      of lines. */
  datatype Dockerfile = Dockerfile(
    baseImage: string,
    setupCopy: string,
    aptGet: string,
    setupCmds: seq<string>,
    assetsCopy: seq<string>,
    args: seq<string>,
    installCopy: string,
    installCmds: seq<string>,
    buildPath: string,
    runPath: string,
    buildCopy: string,
    buildCmds: seq<string>,
    startSetup: seq<string>,
    startCmd: string)

  /** A slot of joined lines as the template prints it: nothing joined is one empty line. */
  function SlotLines(lines: seq<string>): (r: seq<string>)
    ensures |r| >= 1
    ensures Join(r, "\n") == Join(lines, "\n")
  {
    if lines == [] then [""] else lines
  }

  /** The Dockerfile text, line by line, in template order. */
  function Lines(d: Dockerfile): seq<string>
  {
    ["FROM " + d.baseImage, "", "WORKDIR " + AppDir, "",
     "# Setup", d.setupCopy, "RUN nix-env -if environment.nix", d.aptGet]
    + SlotLines(d.setupCmds) + [""]
    + SlotLines(d.assetsCopy) + ["", "# Load environment variables"]
    + SlotLines(d.args) + ["", "# Install", d.installCopy]
    + SlotLines(d.installCmds) + ["", d.buildPath, d.runPath, "", "# Build", d.buildCopy]
    + SlotLines(d.buildCmds) + ["", "# Start"]
    + SlotLines(d.startSetup) + [d.startCmd, ""]
  }

  /** The file always opens with the base image, the working directory and the setup
      copy followed by the Nix environment install, and always closes with the start
      command and a final newline. */
  lemma LinesFrame(d: Dockerfile)
    ensures var ls := Lines(d);
            |ls| >= 30 &&
            ls[0] == "FROM " + d.baseImage && ls[2] == "WORKDIR /app/" &&
            ls[4] == "# Setup" && ls[5] == d.setupCopy &&
            ls[6] == "RUN nix-env -if environment.nix" &&
            ls[|ls| - 2] == d.startCmd && ls[|ls| - 1] == ""
  {
  }

  /** Caching applies only when neither the `no_cache` option nor the `NO_CACHE` config
      variable is set, and then it is the configured key. */
  function EffectiveCacheKey(options: DockerBuilderOptions, noCacheVariable: bool): (r: Option<string>)
    ensures r.Some? <==> !options.noCache && !noCacheVariable && options.cacheKey.Some?
    ensures r.Some? ==> r == options.cacheKey
  {
    if !options.noCache && !noCacheVariable then options.cacheKey else None
  }

  function VariableName(entry: (string, string)): string
  {
    entry.0
  }

  /** `NAME=$NAME`: the build argument passed on to the runtime environment. */
  function VariableExport(entry: (string, string)): string
  {
    entry.0 + "=$" + entry.0
  }

  /** The variables block: nothing without variables, otherwise an ARG line naming
      every variable and an ENV line exporting each under its own name. */
  function ArgsLines(variables: seq<(string, string)>): (r: seq<string>)
    ensures r == [] <==> variables == []
    ensures variables != [] ==> |r| == 2
  {
    if variables == [] then []
    else ["ARG " + Join(Map(VariableName, variables), " "),
          "ENV " + Join(Map(VariableExport, variables), " ")]
  }

  /** Read back at spaces, the ARG line names every variable, in key order, when no
      name contains a space. */
  lemma ArgsNameEveryVariable(variables: seq<(string, string)>)
    requires variables != []
    requires forall i :: 0 <= i < |variables| ==> ' ' !in variables[i].0
    ensures var words := Split(ArgsLines(variables)[0], ' ');
            |words| == |variables| + 1 && words[0] == "ARG" &&
            forall i :: 0 <= i < |variables| ==> words[i + 1] == variables[i].0
  {
    var names := Map(VariableName, variables);
    forall i | 0 <= i < |names| ensures ' ' !in names[i] {
      assert names[i] == variables[i].0;
    }
    var parts := ["ARG"] + names;
    assert parts[1..] == names;
    assert Join(parts, " ") == "ARG" + " " + Join(names, " ");
    assert ArgsLines(variables)[0] == Join(parts, " ");
    SplitJoin(parts, ' ');
  }

  /** Read back at spaces, the ENV line exports every variable under its own name, in
      key order, when no name contains a space. */
  lemma ArgsExportEveryVariable(variables: seq<(string, string)>)
    requires variables != []
    requires forall i :: 0 <= i < |variables| ==> ' ' !in variables[i].0
    ensures var words := Split(ArgsLines(variables)[1], ' ');
            |words| == |variables| + 1 && words[0] == "ENV" &&
            forall i :: 0 <= i < |variables| ==>
              words[i + 1] == variables[i].0 + "=$" + variables[i].0
  {
    var exports := Map(VariableExport, variables);
    forall i | 0 <= i < |exports| ensures ' ' !in exports[i] {
      assert exports[i] == variables[i].0 + "=$" + variables[i].0;
    }
    var parts := ["ENV"] + exports;
    assert parts[1..] == exports;
    assert Join(parts, " ") == "ENV" + " " + Join(exports, " ");
    assert ArgsLines(variables)[1] == Join(parts, " ");
    SplitJoin(parts, ' ');
  }

  /** The files the setup section copies: the Nix environment first, then the setup
      phase's own files in order. */
  function SetupFiles(setup: SetupPhase): (r: seq<string>)
    ensures r != [] && r[0] == EnvironmentNixPath
    ensures setup.onlyIncludeFiles.Some? ==> r[1..] == setup.onlyIncludeFiles.value
    ensures setup.onlyIncludeFiles.None? ==> |r| == 1
  {
    [EnvironmentNixPath] + setup.onlyIncludeFiles.UnwrapOr([])
  }

  /** The files the install section copies: the whole tree unless restricted. */
  function InstallFiles(install: InstallPhase): (r: seq<string>)
    ensures install.onlyIncludeFiles.None? ==> r == ["."]
    ensures install.onlyIncludeFiles.Some? ==> r == install.onlyIncludeFiles.value
  {
    install.onlyIncludeFiles.UnwrapOr(["."])
  }

  /** The files the build section copies: its own list when restricted; otherwise the
      whole tree exactly when install did not already copy it. */
  function BuildFiles(install: InstallPhase, build: BuildPhase): (r: seq<string>)
    ensures build.onlyIncludeFiles.Some? ==> r == build.onlyIncludeFiles.value
    ensures build.onlyIncludeFiles.None? && install.onlyIncludeFiles.None? ==> r == []
    ensures build.onlyIncludeFiles.None? && install.onlyIncludeFiles.Some? ==> r == ["."]
  {
    match build.onlyIncludeFiles
    case Some(files) => files
    case None => if install.onlyIncludeFiles.None? then [] else ["."]
  }

  /** Each command as a RUN line carrying the phase's cache mounts. */
  function RunLines(mount: string, cmds: seq<string>): (r: seq<string>)
    ensures |r| == |cmds|
    ensures forall i :: 0 <= i < |cmds| ==> r[i] == "RUN " + mount + " " + cmds[i]
  {
    Map(c => "RUN " + mount + " " + c, cmds)
  }

  /** One COPY line per static asset, from `assets/<name>` to the same name under the
      assets directory. */
  function AssetLines(assets: seq<(string, string)>, assetsDir: string): (r: seq<string>)
    ensures |r| == |assets|
    ensures forall i :: 0 <= i < |assets| ==>
              r[i] == "COPY assets/" + assets[i].0 + " " + assetsDir + assets[i].0
  {
    Map((a: (string, string)) => "COPY assets/" + a.0 + " " + assetsDir + a.0, assets)
  }

  lemma CopyAllCommand()
    ensures CopyCommand(["."], AppDir) == CopyAll
  {
    assert Join(["."], " ") == ".";
  }

  /** The start section: with a run image, a second stage that takes the certificates
      and the start files (all of the app directory when none are listed) from the
      first; without one, a plain copy of the start files, the whole tree by default. */
  function StartSetup(start: StartPhase): (r: seq<string>)
    ensures start.runImage.Some? ==>
              r == ["", "FROM " + start.runImage.value, "WORKDIR " + AppDir,
                    "COPY --from=0 /etc/ssl/certs /etc/ssl/certs", "RUN true",
                    CopyFromCommand("0", start.onlyIncludeFiles.UnwrapOr([]), AppDir), ""]
    ensures start.runImage.None? && start.onlyIncludeFiles.None? ==> r == [CopyAll]
    ensures start.runImage.None? && start.onlyIncludeFiles.Some? ==>
              r == [CopyCommand(start.onlyIncludeFiles.value, AppDir)]
  {
    match start.runImage
    case Some(image) =>
      ["", "FROM " + image, "WORKDIR " + AppDir,
       "COPY --from=0 /etc/ssl/certs /etc/ssl/certs", "RUN true",
       CopyFromCommand("0", start.onlyIncludeFiles.UnwrapOr([]), AppDir), ""]
    case None =>
      var files := start.onlyIncludeFiles.UnwrapOr(["."]);
      CopyAllCommand();
      [CopyCommand(files, AppDir)]
  }

  /** The Dockerfile for a plan. `noCacheVariable` is whether the `NO_CACHE` config
      variable is truthy and `assetsDir` the directory static assets are copied to. */
  method CreateDockerfile(options: DockerBuilderOptions, plan: BuildPlan, noCacheVariable: bool,
                          assetsDir: string, sanitize: string -> string)
    returns (d: Dockerfile)
    ensures d.baseImage == plan.setup.UnwrapOr(SetupPhase(None, None, None, "")).baseImage
    ensures var vars := plan.variables.UnwrapOr([]);
            d.args == ArgsLines(vars) && (d.args == [] <==> vars == [])
    ensures var setup := plan.setup.UnwrapOr(SetupPhase(None, None, None, ""));
            d.setupCopy == "COPY " + Join(SetupFiles(setup), " ") + " " + AppDir
    ensures var setup := plan.setup.UnwrapOr(SetupPhase(None, None, None, ""));
            var pkgs := setup.aptPkgs.UnwrapOr([]);
            (d.aptGet == "" <==> pkgs == []) &&
            (pkgs != [] ==> d.aptGet == "RUN apt-get update && apt-get install -y " + Join(pkgs, " "))
    ensures var setup := plan.setup.UnwrapOr(SetupPhase(None, None, None, ""));
            d.setupCmds == Map(c => "RUN " + c, setup.cmds.UnwrapOr([]))
    ensures d.assetsCopy == AssetLines(plan.staticAssets.UnwrapOr([]), assetsDir)
    ensures var key := EffectiveCacheKey(options, noCacheVariable);
            var install := plan.install.UnwrapOr(InstallPhase(None, None, None, None));
            d.installCopy == CopyCommand(InstallFiles(install), AppDir) &&
            d.installCmds == RunLines(CacheMount(key, install.cacheDirectories, sanitize), install.cmds.UnwrapOr([]))
    ensures var install := plan.install.UnwrapOr(InstallPhase(None, None, None, None));
            (install.paths.None? ==> d.buildPath == "" && d.runPath == "") &&
            (install.paths.Some? ==>
               d.buildPath == "ENV PATH " + Join(install.paths.value, ":") + ":$PATH" &&
               d.runPath == "RUN printf '\\nPATH=" + Join(install.paths.value, ":") + ":$PATH' >> /root/.profile")
    ensures var key := EffectiveCacheKey(options, noCacheVariable);
            var install := plan.install.UnwrapOr(InstallPhase(None, None, None, None));
            var build := plan.build.UnwrapOr(BuildPhase(None, None, None));
            d.buildCopy == CopyCommand(BuildFiles(install, build), AppDir) &&
            d.buildCmds == RunLines(CacheMount(key, build.cacheDirectories, sanitize), build.cmds.UnwrapOr([]))
    ensures var start := plan.start.UnwrapOr(StartPhase(None, None, None));
            d.startSetup == StartSetup(start) &&
            (start.cmd.None? ==> d.startCmd == "") &&
            (start.cmd.Some? ==> d.startCmd == "CMD " + start.cmd.value)
  {
    var setup := plan.setup.UnwrapOr(SetupPhase(None, None, None, ""));
    var install := plan.install.UnwrapOr(InstallPhase(None, None, None, None));
    var build := plan.build.UnwrapOr(BuildPhase(None, None, None));
    var start := plan.start.UnwrapOr(StartPhase(None, None, None));
    var variables := plan.variables.UnwrapOr([]);
    var staticAssets := plan.staticAssets.UnwrapOr([]);

    var cacheKey := EffectiveCacheKey(options, noCacheVariable);

    var args := ArgsLines(variables);

    var setupFiles := [EnvironmentNixPath];
    if setup.onlyIncludeFiles.Some? {
      setupFiles := setupFiles + setup.onlyIncludeFiles.value;
    }
    var setupCopy := "COPY " + Join(setupFiles, " ") + " " + AppDir;

    var aptGet := "";
    if setup.aptPkgs.UnwrapOr([]) != [] {
      aptGet := "RUN apt-get update && apt-get install -y " + Join(setup.aptPkgs.UnwrapOr([]), " ");
    }
    var setupCmds := Map(c => "RUN " + c, setup.cmds.UnwrapOr([]));

    var assetsCopy := AssetLines(staticAssets, assetsDir);

    var installMount := CacheMount(cacheKey, install.cacheDirectories, sanitize);
    var installCmds := RunLines(installMount, install.cmds.UnwrapOr([]));
    var buildPath, runPath := "", "";
    if install.paths.Some? {
      var joined := Join(install.paths.value, ":");
      buildPath := "ENV PATH " + joined + ":$PATH";
      runPath := "RUN printf '\\nPATH=" + joined + ":$PATH' >> /root/.profile";
    }
    var installFiles := InstallFiles(install);

    var buildMount := CacheMount(cacheKey, build.cacheDirectories, sanitize);
    var buildCmds := RunLines(buildMount, build.cmds.UnwrapOr([]));
    var buildFiles := BuildFiles(install, build);

    var startCmd := if start.cmd.Some? then "CMD " + start.cmd.value else "";
    var startSetup := StartSetup(start);

    d := Dockerfile(setup.baseImage, setupCopy, aptGet, setupCmds, assetsCopy, args,
                    CopyCommand(installFiles, AppDir), installCmds, buildPath, runPath,
                    CopyCommand(buildFiles, AppDir), buildCmds, startSetup, startCmd);
  }

  /** With caching switched off, no install or build command carries a mount: each is
      `RUN`, an empty mount and the command. */
  lemma NoCacheNoMounts(options: DockerBuilderOptions, noCacheVariable: bool, install: InstallPhase,
                        build: BuildPhase, sanitize: string -> string)
    requires options.noCache || noCacheVariable
    ensures var key := EffectiveCacheKey(options, noCacheVariable);
            var cmds := install.cmds.UnwrapOr([]);
            var lines := RunLines(CacheMount(key, install.cacheDirectories, sanitize), cmds);
            forall i :: 0 <= i < |cmds| ==> lines[i] == "RUN  " + cmds[i]
    ensures var key := EffectiveCacheKey(options, noCacheVariable);
            var cmds := build.cmds.UnwrapOr([]);
            var lines := RunLines(CacheMount(key, build.cacheDirectories, sanitize), cmds);
            forall i :: 0 <= i < |cmds| ==> lines[i] == "RUN  " + cmds[i]
  {
  }

  /** The whole tree is copied once between install and build when neither restricts
      its files: by install, and build copies nothing. When only install is restricted,
      build copies the whole tree instead. */
  lemma WholeTreeCopiedOnce(install: InstallPhase, build: BuildPhase)
    requires build.onlyIncludeFiles.None?
    ensures install.onlyIncludeFiles.None? ==>
              CopyCommand(InstallFiles(install), AppDir) == CopyAll &&
              CopyCommand(BuildFiles(install, build), AppDir) == ""
    ensures install.onlyIncludeFiles.Some? ==>
              CopyCommand(BuildFiles(install, build), AppDir) == CopyAll
  {
    CopyAllCommand();
  }
}
