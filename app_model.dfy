/** What providers see of a project: its source tree, its configuration, the Nix
    packages they ask for and the phases they contribute to a build plan. */
module AppModel {
  import opened Wrappers

  /** The source tree: the paths that are files, the paths that are directories, and
      the text of the files that can be read. A file that is listed but has no text
      stands for one whose read fails. Only values whose `contents` keys are among
      `files` stand for a real tree; a text for an unlisted path stands for nothing. */
  datatype App = App(files: set<string>, dirs: set<string>, contents: map<string, string>)
  {
    predicate IncludesFile(path: string)
    {
      path in files
    }

    predicate IncludesDirectory(path: string)
    {
      path in dirs
    }

    /** The file's text, or an error naming the path when it cannot be read. */
    function ReadFile(path: string): (r: Result<string>)
      ensures r.Ok? <==> path in contents
      ensures r.Ok? ==> r.value == contents[path]
    {
      if path in contents then Ok(contents[path]) else Err("Error reading " + path)
    }
  }

  /** The configuration variables, by the name a provider asks for. */
  datatype Environment = Environment(config: map<string, string>)
  {
    function GetConfigVariable(name: string): (r: Option<string>)
      ensures r.Some? <==> name in config
      ensures r.Some? ==> r.value == config[name]
    {
      if name in config then Some(config[name]) else None
    }
  }

  /** A Nix package, by attribute name. */
  datatype Pkg = Pkg(name: string)

  datatype SetupPhase = SetupPhase(pkgs: seq<Pkg>)
  datatype InstallPhase = InstallPhase(cmd: string)
  datatype BuildPhase = BuildPhase(cmd: string)
  datatype StartPhase = StartPhase(cmd: string)
}
