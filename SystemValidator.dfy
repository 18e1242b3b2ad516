/** The gate run before a patch: a target that needs a particular system
    is refused unless the project shows that system's indicator path. */
module SystemValidator {
  import opened Outcomes
  import opened Host
  import opened Dto
  import opened Enums

  /** What PHP reports when `getIndicatorType()` is called but not defined. */
  const UndefinedIndicatorType: string :=
    "Call to undefined method Tbessenreither\\Copycat\\Enum\\KnownSystemsEnum::getIndicatorType()"

  /** `checkForSystem`. `indicatorType` is what `getIndicatorType()` gives
      for the system; `None` stands for that method being absent from
      `KnownSystemsEnum`, which PHP reports as an error. */
  function CheckForSystem(fs: FileSystem, info: PackageInfo, system: Option<KnownSystem>,
                          indicatorType: Option<string>): (r: Result<bool>)
    ensures system.None? ==> r == Ok(false)
    ensures system.Some? && indicatorType == Some("directory") ==>
      r == Ok(fs.IsDir(info.projectPath + system.value.IndicatorFile()))
    ensures system.Some? && indicatorType == Some("file") ==>
      r == Ok(fs.IsFile(info.projectPath + system.value.IndicatorFile()))
    ensures system.Some? && indicatorType.None? ==> r.Err? && r.failure.EngineError?
    ensures (system.Some? && indicatorType.Some? &&
             indicatorType.value != "directory" && indicatorType.value != "file") ==> r == Err(Runtime("Unknown indicator type: " + indicatorType.value))
  {
    match system
    case None => Ok(false)
    case Some(s) =>
      match indicatorType
      case None => Err(EngineError(UndefinedIndicatorType))
      case Some(t) =>
        var path := info.projectPath + s.IndicatorFile();
        if t == "directory" then Ok(fs.IsDir(path))
        else if t == "file" then Ok(fs.IsFile(path))
        else Err(Runtime("Unknown indicator type: " + t))
  }

  /** `validateSystem`. */
  function ValidateSystem(fs: FileSystem, info: PackageInfo, system: Option<KnownSystem>,
                          indicatorType: Option<string>): (r: Result<()>)
    ensures system.None? ==> r == Ok(())
    ensures system.Some? ==> (r.Ok? <==> CheckForSystem(fs, info, system, indicatorType) == Ok(true))
    ensures system.Some? && CheckForSystem(fs, info, system, indicatorType) == Ok(false) ==>
      r == Err(Runtime("The current project does not appear to be a " + system.value.Value() + " project. Aborting operation."))
  {
    match system
    case None => Ok(())
    case Some(s) =>
      var found :- CheckForSystem(fs, info, system, indicatorType);
      if !found then
        Err(Runtime("The current project does not appear to be a " + s.Value() + " project. Aborting operation."))
      else Ok(())
  }

  /** Env targets need no system, so validation never refuses them. */
  lemma EnvTargetsPass(fs: FileSystem, info: PackageInfo, t: EnvTarget, indicatorType: Option<string>)
    ensures ValidateSystem(fs, info, t.System(), indicatorType) == Ok(())
  {
  }

  /** A copy target for a system passes only when the project has that
      system's indicator path, of the kind the system names. */
  lemma CopyTargetGate(fs: FileSystem, info: PackageInfo, t: CopyTarget, indicatorType: string)
    requires t.System().Some?
    ensures var path := info.projectPath + t.System().value.IndicatorFile();
      ValidateSystem(fs, info, t.System(), Some(indicatorType)).Ok? <==>
        (indicatorType == "directory" && fs.IsDir(path)) || (indicatorType == "file" && fs.IsFile(path))
  {
  }

  /** JSON targets never reach validation: asking for their system fails
      first. */
  lemma JsonTargetsFail(t: JsonTarget)
    ensures t.System().Err?
  {
  }
}
