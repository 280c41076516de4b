/** The F# provider: projects with an `.fsproj` file, restored and published with the
    .NET SDK into `out/`, and started from the published executable named after the
    first project file.

    Finding the project files (a glob over the source tree) is not part of this model:
    its outcome is the parameter `found`, the file names of the matches in the order
    the search returns them, or the error it reports. */
module FSharpProvider {
  import opened Wrappers
  import opened AppModel

  /** A file name as the operating system gives it: valid Unicode text or not. */
  datatype OsName = Utf8(text: string) | NotUtf8

  /** A path found by the search, by its last component; None when the path has no
      file name. */
  datatype FoundPath = FoundPath(fileName: Option<OsName>)

  /** The outcome of detection; this provider never attaches metadata. */
  datatype DetectResult = DetectResult(detected: bool, metadata: Option<seq<string>>)

  /** The provider applies exactly when at least one project file is found. */
  function Detect(found: Result<seq<FoundPath>>): (r: Result<DetectResult>)
    ensures r.Ok? <==> found.Ok?
    ensures r.Ok? ==> (r.value.detected <==> found.value != []) && r.value.metadata.None?
    ensures r.Err? ==> r.error == found.error
  {
    var files :- found;
    Ok(DetectResult(files != [], None))
  }

  function Setup(): (r: Result<Option<SetupPhase>>)
    ensures r == Ok(Some(SetupPhase([Pkg("dotnet-sdk")])))
  {
    Ok(Some(SetupPhase([Pkg("dotnet-sdk")])))
  }

  function Install(): (r: Result<Option<InstallPhase>>)
    ensures r == Ok(Some(InstallPhase("dotnet restore")))
  {
    Ok(Some(InstallPhase("dotnet restore")))
  }

  function Build(): (r: Result<Option<BuildPhase>>)
    ensures r == Ok(Some(BuildPhase("dotnet publish --no-restore -c Release -o out")))
  {
    Ok(Some(BuildPhase("dotnet publish --no-restore -c Release -o out")))
  }

  /** The position of the last `.` of a name, if it has one. */
  function LastDot(s: string): (r: Option<nat>)
    ensures r.None? ==> '.' !in s
    ensures r.Some? ==> r.value < |s| && s[r.value] == '.' && '.' !in s[r.value + 1..]
    decreases |s|
  {
    if s == [] then None
    else if s[|s| - 1] == '.' then Some(|s| - 1)
    else
      var k := LastDot(s[..|s| - 1]);
      assert s[..|s| - 1] + [s[|s| - 1]] == s;
      k
  }

  /** The file name without its extension, as a path's file stem: everything before the
      last `.`, unless there is no `.` or the only one leads the name. */
  function FileStem(name: string): (r: string)
    ensures r <= name
  {
    if name == ".." then name
    else match LastDot(name)
      case None => name
      case Some(k) => if k == 0 then name else name[..k]
  }

  /** Stripping a `.fsproj` extension gives back the project name. */
  lemma FileStemOfProject(stem: string)
    requires stem != []
    ensures FileStem(stem + ".fsproj") == stem
  {
    var name := stem + ".fsproj";
    assert name[|stem|] == '.';
    assert name[|stem| + 1..] == "fsproj";
    var k := LastDot(name);
    assert k.Some?;
    assert name[..|stem|] == stem;
  }

  /** The start command runs the published executable named after the first project
      file; a name that is missing or not valid text is an error, and so is a stem of
      `..`, which a path does not accept as a file name. */
  function Start(found: Result<seq<FoundPath>>): (r: Result<Option<StartPhase>>)
    requires found.Ok? ==> found.value != []
    ensures found.Err? ==> r == Err(found.error)
    ensures found.Ok? && found.value[0].fileName.None? ==> r == Err("Invalid file_name")
    ensures found.Ok? && found.value[0].fileName == Some(NotUtf8) ==> r == Err("Invalid project_name")
    ensures r.Ok? ==>
              found.Ok? && found.value[0].fileName.Some? && found.value[0].fileName.value.Utf8? &&
              r.value == Some(StartPhase("./out/" + FileStem(found.value[0].fileName.value.text)))
  {
    var files :- found;
    match files[0].fileName
    case None => Err("Invalid file_name")
    case Some(name) =>
      match name
      case NotUtf8 => Err("Invalid project_name")
      case Utf8(text) =>
        var project := FileStem(text);
        if project == ".." then Err("Invalid file_name")
        else Ok(Some(StartPhase("./out/" + project)))
  }

  /** For a project file `<stem>.fsproj` the start command is `./out/<stem>`. */
  lemma StartOfProject(found: seq<FoundPath>, stem: string)
    requires found != [] && found[0].fileName == Some(Utf8(stem + ".fsproj"))
    requires stem != [] && stem != ".."
    ensures Start(Ok(found)) == Ok(Some(StartPhase("./out/" + stem)))
  {
    FileStemOfProject(stem);
  }

  /** The runtime environment: production mode, listening on port 3000 of every
      interface, with the .NET root in the default Nix profile. */
  function EnvironmentVariables(): (r: Result<Option<map<string, string>>>)
    ensures r.Ok? && r.value.Some?
    ensures r.value.value.Keys == {"ASPNETCORE_ENVIRONMENT", "ASPNETCORE_URLS", "DOTNET_ROOT"}
    ensures r.value.value["ASPNETCORE_ENVIRONMENT"] == "Production"
    ensures r.value.value["ASPNETCORE_URLS"] == "http://0.0.0.0:3000"
    ensures r.value.value["DOTNET_ROOT"] == "/nix/var/nix/profiles/default/"
  {
    Ok(Some(map["ASPNETCORE_ENVIRONMENT" := "Production",
                "ASPNETCORE_URLS" := "http://0.0.0.0:3000",
                "DOTNET_ROOT" := "/nix/var/nix/profiles/default/"]))
  }
}
