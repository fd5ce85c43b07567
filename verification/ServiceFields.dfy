/** The fields of a service and the checks validation makes of them, one by one. */
module ServiceFields {
  import opened Prelude
  import opened Reference

  // ---------- errors ----------

  datatype Problem =
    | InvalidName
    | BadRepo
    | NotOneSource
    | AbsolutePath
    | EscapingPath
    | BuildWithImage
    | PortRequired
    | PortZero
    | BadHealthcheckPath
    | ZeroHealthcheckTime
    | BadCron
    | SelfDependency
    | UnknownDependency(name: string)
    | RelativeMount(mount: string)
    | ReplicasAndAutoscale
    | ZeroReplicas
    | BadAutoscaleRange
    | BadAutoscaleTarget
    | ScaledVolumes
    | RollingVolumes
    | BadCpu
    | BadMemory
    | BadReference(reason: InvalidReference)
    | UnknownService(target: string)
    | PortNotDeclared(target: string)
    | ReferenceCycle(cycle: seq<string>)

  datatype ValidationError = ValidationError(path: string, problem: Problem)

  // ---------- fields ----------

  datatype Public = Toggle(enabled: bool) | Options

  datatype ServiceGithub = ServiceGithub(repo: string, path: Option<string>)

  datatype Healthcheck = Healthcheck(path: string, timeout: Option<nat>, interval: Option<nat>)

  datatype Strategy = Rolling | Recreate

  datatype Autoscale = Autoscale(min: nat, max: nat, targetCpuPercent: Option<nat>)

  datatype Scale = Scale(replicas: Option<nat>, autoscale: Option<Autoscale>)

  datatype Resources = Resources(cpu: Option<real>, memory: Option<string>)

  datatype Source = Path(path: string) | Image(image: string) | Github(github: ServiceGithub)

  /** `volumes` are the mount paths. */
  datatype Fields = Fields(
    path: Option<string>,
    image: Option<string>,
    github: Option<ServiceGithub>,
    hasBuild: bool,
    envFiles: seq<string>,
    port: Option<nat>,
    public: Option<Public>,
    healthcheck: Option<Healthcheck>,
    cron: Option<string>,
    volumes: seq<string>,
    scale: Option<Scale>,
    strategy: Option<Strategy>,
    resources: Option<Resources>)
  {
    predicate IsPublic() {
      public.Some? && (public.value.Toggle? ==> public.value.enabled)
    }

    function SourceOf(): Option<Source> {
      if path.Some? && image.None? && github.None? then Some(Path(path.value))
      else if path.None? && image.Some? && github.None? then Some(Image(image.value))
      else if path.None? && image.None? && github.Some? then Some(Github(github.value))
      else None
    }

    function SourceCount(): nat {
      (if path.Some? then 1 else 0) + (if image.Some? then 1 else 0) + (if github.Some? then 1 else 0)
    }

    function EffectiveStrategy(): Strategy {
      if volumes != [] then Recreate else strategy.UnwrapOr(Rolling)
    }

    /** The largest number of containers the scale settings allow at a time. */
    function MaxReplicas(): nat {
      if scale.None? then 1
      else
        var fixed := scale.value.replicas.UnwrapOr(1);
        if scale.value.autoscale.Some? && scale.value.autoscale.value.max > fixed then scale.value.autoscale.value.max
        else fixed
    }
  }

  function Root(name: string): string { "services." + name }

  function At(name: string, field: string): string { Root(name) + "." + field }

  // ---------- text forms ----------

  /** `str::split` at slashes. */
  function Components(path: string): seq<string>
    decreases |path|
  {
    match Find(path, "/")
    case None => [path]
    case Some(i) => [path[..i]] + Components(path[i + 1..])
  }

  /** An `owner/name` pair: two nonempty parts, one slash. */
  predicate IsValidRepo(repo: string) {
    match Find(repo, "/")
    case None => false
    case Some(i) => repo[..i] != "" && repo[i + 1..] != "" && Find(repo[i + 1..], "/").None?
  }

  predicate NotBlank(c: char) { !IsWhitespace(c) }

  predicate AllDigits(s: string) {
    s != "" && forall i | 0 <= i < |s| :: '0' <= s[i] <= '9'
  }

  function StripSuffix(s: string, suffix: string): Option<string> {
    if |suffix| <= |s| && s[|s| - |suffix|..] == suffix then Some(s[..|s| - |suffix|]) else None
  }

  predicate IsValidMemory(memory: string) {
    if StripSuffix(memory, "Mi").Some? then AllDigits(StripSuffix(memory, "Mi").value)
    else if StripSuffix(memory, "Gi").Some? then AllDigits(StripSuffix(memory, "Gi").value)
    else if StripSuffix(memory, "M").Some? then AllDigits(StripSuffix(memory, "M").value)
    else if StripSuffix(memory, "G").Some? then AllDigits(StripSuffix(memory, "G").value)
    else false
  }

  // ---------- checks ----------

  function When(broken: bool, path: string, problem: Problem): seq<ValidationError> {
    if broken then [ValidationError(path, problem)] else []
  }

  function CheckRepo(at: string, repo: string): seq<ValidationError> {
    When(!IsValidRepo(repo), at, BadRepo)
  }

  predicate StartsWithSlash(s: string) {
    s != "" && s[0] == '/'
  }

  function CheckRelativePath(at: string, path: string): seq<ValidationError> {
    if StartsWithSlash(path) then [ValidationError(at, AbsolutePath)]
    else When(".." in Components(path), at, EscapingPath)
  }

  function CheckRelativePaths(at: string, paths: seq<string>): seq<ValidationError> {
    if paths == [] then [] else CheckRelativePath(at, paths[0]) + CheckRelativePaths(at, paths[1..])
  }

  function CheckMounts(at: string, mounts: seq<string>): seq<ValidationError> {
    if mounts == [] then []
    else When(!StartsWithSlash(mounts[0]), at, RelativeMount(mounts[0])) + CheckMounts(at, mounts[1..])
  }

  function GithubErrors(name: string, github: ServiceGithub): seq<ValidationError> {
    CheckRepo(At(name, "github.repo"), github.repo)
    + if github.path.Some? then CheckRelativePath(At(name, "github.path"), github.path.value) else []
  }

  function SourceErrors(name: string, f: Fields): seq<ValidationError> {
    When(f.SourceCount() != 1, Root(name), NotOneSource)
    + (if f.path.Some? then CheckRelativePath(At(name, "path"), f.path.value) else [])
    + (if f.github.Some? then GithubErrors(name, f.github.value) else [])
    + When(f.hasBuild && f.image.Some?, At(name, "build"), BuildWithImage)
    + CheckRelativePaths(At(name, "envFiles"), f.envFiles)
  }

  function HealthcheckErrors(name: string, h: Healthcheck): seq<ValidationError> {
    When(!StartsWithSlash(h.path), At(name, "healthcheck.path"), BadHealthcheckPath)
    + When(h.timeout == Some(0) || h.interval == Some(0), At(name, "healthcheck"), ZeroHealthcheckTime)
  }

  function RuntimeErrors(name: string, f: Fields): seq<ValidationError> {
    When(f.IsPublic() && f.port.None?, At(name, "port"), PortRequired)
    + When(f.port == Some(0), At(name, "port"), PortZero)
    + (if f.healthcheck.Some? then HealthcheckErrors(name, f.healthcheck.value) else [])
    + When(f.cron.Some? && |Words(f.cron.value, NotBlank)| != 5, At(name, "cron"), BadCron)
  }

  function AutoscaleErrors(name: string, a: Autoscale): seq<ValidationError> {
    When(a.min < 1 || a.max < a.min, At(name, "scale.autoscale"), BadAutoscaleRange)
    + When(a.targetCpuPercent.Some? && !(1 <= a.targetCpuPercent.value <= 100),
           At(name, "scale.autoscale.targetCpuPercent"), BadAutoscaleTarget)
  }

  predicate ScaledOut(scale: Scale) {
    || (scale.replicas.Some? && scale.replicas.value > 1)
    || (scale.autoscale.Some? && scale.autoscale.value.max > 1)
  }

  function ScaleErrors(name: string, scale: Scale, stateful: bool): seq<ValidationError> {
    When(scale.replicas.Some? && scale.autoscale.Some?, At(name, "scale"), ReplicasAndAutoscale)
    + When(scale.replicas == Some(0), At(name, "scale.replicas"), ZeroReplicas)
    + (if scale.autoscale.Some? then AutoscaleErrors(name, scale.autoscale.value) else [])
    + When(ScaledOut(scale) && stateful, At(name, "scale"), ScaledVolumes)
  }

  function ResourcesErrors(name: string, r: Resources): seq<ValidationError> {
    When(r.cpu.Some? && r.cpu.value <= 0.0, At(name, "resources.cpu"), BadCpu)
    + When(r.memory.Some? && !IsValidMemory(r.memory.value), At(name, "resources.memory"), BadMemory)
  }

  function StateErrors(name: string, f: Fields): seq<ValidationError> {
    CheckMounts(At(name, "volumes"), f.volumes)
    + (if f.scale.Some? then ScaleErrors(name, f.scale.value, f.volumes != []) else [])
    + When(f.strategy == Some(Rolling) && f.volumes != [], At(name, "strategy"), RollingVolumes)
    + (if f.resources.Some? then ResourcesErrors(name, f.resources.value) else [])
  }

  function FieldErrors(name: string, f: Fields): seq<ValidationError> {
    SourceErrors(name, f) + RuntimeErrors(name, f) + StateErrors(name, f)
  }
}
