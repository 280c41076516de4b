/** The top level: the fixed order in which providers are consulted, and the check that
    a plan with a start phase has a start command before an image is built. */
module Nixpacks {
  import opened Wrappers

  datatype ProviderName =
    | Crystal | CSharp | Dart | Elixir | Deno | FSharp | Clojure | Golang | HaskellStack
    | Java | Php | Ruby | Node | Python | Rust | Swift | Staticfile | Zig

  const Registry: seq<ProviderName> :=
    [Crystal, CSharp, Dart, Elixir, Deno, FSharp, Clojure, Golang, HaskellStack,
     Java, Php, Ruby, Node, Python, Rust, Swift, Staticfile, Zig]

  lemma RegistryComplete(p: ProviderName)
    ensures p in Registry
  {
    var r := Registry;
    match p
    case Crystal => assert r[0] == p;
    case CSharp => assert r[1] == p;
    case Dart => assert r[2] == p;
    case Elixir => assert r[3] == p;
    case Deno => assert r[4] == p;
    case FSharp => assert r[5] == p;
    case Clojure => assert r[6] == p;
    case Golang => assert r[7] == p;
    case HaskellStack => assert r[8] == p;
    case Java => assert r[9] == p;
    case Php => assert r[10] == p;
    case Ruby => assert r[11] == p;
    case Node => assert r[12] == p;
    case Python => assert r[13] == p;
    case Rust => assert r[14] == p;
    case Swift => assert r[15] == p;
    case Staticfile => assert r[16] == p;
    case Zig => assert r[17] == p;
  }

  /** The providers, in the order they are consulted: every provider once, Crystal
      first and Zig last. */
  function GetProviders(): (r: seq<ProviderName>)
    ensures |r| == 18 && r[0] == Crystal && r[17] == Zig
    ensures forall i, j :: 0 <= i < j < |r| ==> r[i] != r[j]
    ensures forall p: ProviderName :: p in r
  {
    forall p: ProviderName ensures p in Registry {
      RegistryComplete(p);
    }
    Registry
  }

  /** The position of a provider in a list that holds it. */
  function IndexOf(providers: seq<ProviderName>, p: ProviderName): (i: nat)
    requires p in providers
    ensures i < |providers| && providers[i] == p
    ensures forall j :: 0 <= j < i ==> providers[j] != p
  {
    if providers[0] == p then 0 else 1 + IndexOf(providers[1..], p)
  }

  /** Clojure and F# are consulted before Java, and Staticfile before Zig, the last. */
  lemma ProviderOrder()
    ensures IndexOf(GetProviders(), FSharp) < IndexOf(GetProviders(), Java)
    ensures IndexOf(GetProviders(), Clojure) < IndexOf(GetProviders(), Java)
    ensures IndexOf(GetProviders(), Staticfile) < IndexOf(GetProviders(), Zig)
    ensures IndexOf(GetProviders(), Zig) == |GetProviders()| - 1
  {
    var ps := GetProviders();
    assert ps[5] == FSharp && ps[6] == Clojure && ps[9] == Java;
    assert ps[16] == Staticfile && ps[17] == Zig;
  }

  /** The start phase of a plan as this check sees it. */
  datatype StartPhase = StartPhase(cmd: Option<string>)

  /** A plan whose start phase has no command is refused unless the builder is told
      not to require one; a plan without a start phase passes. */
  function CheckStartCommand(startPhase: Option<StartPhase>, noErrorWithoutStart: bool): (r: Outcome)
    ensures r.Fail? <==> startPhase.Some? && startPhase.value.cmd.None? && !noErrorWithoutStart
    ensures r.Fail? ==> r.error == "No start command could be found"
  {
    match startPhase
    case Some(phase) =>
      if phase.cmd.None? && !noErrorWithoutStart then Fail("No start command could be found") else Pass
    case None => Pass
  }
}
