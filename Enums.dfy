/** The enums that name the systems a project may be, the directories files
    are copied into, the JSON files that may be patched and the env files
    that may be patched. */
module Enums {
  import opened Outcomes

  /** `KnownSystemsEnum`. */
  datatype KnownSystem = Symfony | Ddev | Git {

    function Value(): (v: string)
      ensures v != []
    {
      match this
      case Symfony => "symfony"
      case Ddev => "ddev"
      case Git => "git"
    }

    /** `getIndicatorFile`: the path, below the project directory, whose
        presence marks a project as one of this system. */
    function IndicatorFile(): (r: string)
      ensures |r| >= 2 && r[0] == '/' && r[1] != '/'
    {
      match this
      case Symfony => "/config/bundles.php"
      case Ddev => "/.ddev"
      case Git => "/.git"
    }
  }

  /** `KnownSystemsEnum::tryFrom`. */
  function SystemFrom(v: string): (r: Option<KnownSystem>)
    ensures r.Some? ==> r.value.Value() == v
  {
    if v == "symfony" then Some(Symfony)
    else if v == "ddev" then Some(Ddev)
    else if v == "git" then Some(Git)
    else None
  }

  /** Each system's value reads back as that system, so no two share one. */
  lemma SystemValueRoundTrip(s: KnownSystem)
    ensures SystemFrom(s.Value()) == Some(s)
  {
    match s
    case Symfony =>
    case Ddev =>
      assert "ddev" != "symfony" by {
        assert "ddev"[0] != "symfony"[0];
      }
    case Git =>
      assert "git" != "symfony" && "git" != "ddev" by {
        assert "git"[0] != "symfony"[0] && "git"[0] != "ddev"[0];
      }
  }

  /** No two systems share an indicator path. */
  lemma IndicatorsDistinct(a: KnownSystem, b: KnownSystem)
    requires a != b
    ensures a.IndicatorFile() != b.IndicatorFile()
  {
  }

  /** `CopyTargetEnum`. */
  datatype CopyTarget =
    | DdevCommandsWeb
    | DdevCommandsHost
    | SymfonyBin
    | SymfonyConfigPackages
    | SymfonyConfigRoutes
    | Public
    | CopycatConfig
  {

    /** The directory, relative to the project, files are copied into. */
    function Value(): (v: string)
      ensures v != [] && v[0] != '/' && v[|v| - 1] != '/'
    {
      match this
      case DdevCommandsWeb => ".ddev/commands/web"
      case DdevCommandsHost => ".ddev/commands/host"
      case SymfonyBin => "bin"
      case SymfonyConfigPackages => "config/packages"
      case SymfonyConfigRoutes => "config/routes"
      case Public => "public"
      case CopycatConfig => ".copycat"
    }

    /** `getSystem`: the system a project must be for this target. */
    function System(): (r: Option<KnownSystem>)
      ensures r == Some(Ddev) <==> this in {DdevCommandsWeb, DdevCommandsHost}
      ensures r == Some(Symfony) <==> this in {SymfonyBin, SymfonyConfigPackages, SymfonyConfigRoutes}
      ensures r.None? <==> this in {Public, CopycatConfig}
    {
      match this
      case DdevCommandsWeb | DdevCommandsHost => Some(Ddev)
      case SymfonyBin | SymfonyConfigPackages | SymfonyConfigRoutes => Some(Symfony)
      case _ => None
    }
  }

  /** `CopyTargetEnum::tryFrom`. */
  function CopyTargetFrom(v: string): (r: Option<CopyTarget>)
    ensures r.Some? ==> r.value.Value() == v
  {
    if v == ".ddev/commands/web" then Some(DdevCommandsWeb)
    else if v == ".ddev/commands/host" then Some(DdevCommandsHost)
    else if v == "bin" then Some(SymfonyBin)
    else if v == "config/packages" then Some(SymfonyConfigPackages)
    else if v == "config/routes" then Some(SymfonyConfigRoutes)
    else if v == "public" then Some(Public)
    else if v == ".copycat" then Some(CopycatConfig)
    else None
  }

  /** Each copy target's value reads back as that target: the values are
      distinct. */
  lemma CopyTargetRoundTrip(t: CopyTarget)
    ensures CopyTargetFrom(t.Value()) == Some(t)
  {
  }

  /** `JsonTargetEnum`. */
  datatype JsonTarget = ComposerJson {

    function Value(): string {
      "composer.json"
    }

    /** `getSystem`: the code names a `COMPOSER` case `KnownSystemsEnum`
        does not have, so PHP raises an error instead of returning. */
    function System(): (r: Result<Option<KnownSystem>>)
      ensures r.Err? && r.failure.EngineError?
    {
      Err(EngineError("Undefined constant Tbessenreither\\Copycat\\Enum\\KnownSystemsEnum::COMPOSER"))
    }

    /** `allowedPaths`: the top-level keys a patch may touch. */
    function AllowedPaths(): (r: Option<seq<string>>)
      ensures r == Some(["extra"])
    {
      match this
      case ComposerJson => Some(["extra"])
    }

    function CanRemoveValues(): (r: bool)
      ensures r
    {
      match this
      case ComposerJson => true
    }
  }

  /** `EnvTargetEnum`. */
  datatype EnvTarget = DotLocal | DotTest | DotExample {

    function Value(): (v: string)
      ensures |v| > 5 && v[..5] == ".env."
    {
      match this
      case DotLocal => ".env.local"
      case DotTest => ".env.test"
      case DotExample => ".env.example"
    }

    /** `getSystem`: env files need no particular system. */
    function System(): (r: Option<KnownSystem>)
      ensures r.None?
    {
      None
    }
  }
}
