/** The rules for the fields of a service, apart from the checks, and that the checks enforce exactly these. */
module FieldRules {
  import opened Prelude
  import opened ServiceFields

  // ---------- paths ----------

  predicate Absolute(path: string) { "/" <= path }

  /** `part` stands in `path` at `i`, between slashes or the ends. */
  predicate StandsAt(path: string, part: string, i: int) {
    && OccursAt(path, part, i)
    && (i == 0 || path[i - 1] == '/')
    && (i + |part| == |path| || path[i + |part|] == '/')
  }

  ghost predicate Climbs(path: string) {
    exists i :: StandsAt(path, "..", i)
  }

  lemma SlashSplit(path: string, i: nat)
    requires Find(path, "/") == Some(i)
    ensures Components(path) == [path[..i]] + Components(path[i + 1..])
  {
  }

  lemma {:induction false} SomeComponent(path: string)
    ensures Components(path) != []
    ensures |Components(path)| == 1 <==> Find(path, "/").None?
    ensures Find(path, "/").None? ==> Components(path) == [path]
    decreases |path|
  {
    if Find(path, "/").Some? {
      SlashSplit(path, Find(path, "/").value);
      SomeComponent(path[Find(path, "/").value + 1..]);
    }
  }

  /** A repository is two nonempty parts around its only slash. */
  lemma ValidRepoComponents(repo: string)
    ensures IsValidRepo(repo) <==> |Components(repo)| == 2 && "" !in Components(repo)
  {
    SomeComponent(repo);
    if Find(repo, "/").Some? {
      var i := Find(repo, "/").value;
      SlashSplit(repo, i);
      SomeComponent(repo[i + 1..]);
    }
  }

  lemma SlashAt(path: string, i: int)
    ensures OccursAt(path, "/", i) <==> 0 <= i < |path| && path[i] == '/'
  {
    if 0 <= i < |path| {
      assert path[i..i + 1] == [path[i]];
    }
  }

  /** The part before the first slash. */
  lemma FirstStands(path: string, part: string, k: nat, i: int)
    requires Find(path, "/") == Some(k) && '/' !in part && i <= k
    ensures StandsAt(path, part, i) <==> i == 0 && part == path[..k]
  {
    SlashAt(path, k);
    forall j | 0 <= j < k
      ensures path[j] != '/'
    {
      SlashAt(path, j);
      assert !OccursAt(path, "/", j);
    }
    if StandsAt(path, part, i) {
      assert i == 0;
      assert part == path[..|part|];
      assert forall j | 0 <= j < |part| :: path[j] == part[j] && part[j] != '/';
    }
    if i == 0 && part == path[..k] {
      assert path[0..k] == path[..k];
    }
  }

  /** A part behind the first slash. */
  lemma LaterStands(path: string, part: string, k: nat, i: int)
    requires k < |path| && path[k] == '/' && i > k
    ensures StandsAt(path, part, i) <==> StandsAt(path[k + 1..], part, i - k - 1)
  {
    var rest := path[k + 1..];
    if i + |part| <= |path| {
      assert path[i..i + |part|] == rest[i - k - 1..i - k - 1 + |part|];
    }
  }

  lemma OnlyStands(path: string, part: string, i: int)
    requires Find(path, "/").None? && '/' !in part
    ensures StandsAt(path, part, i) <==> i == 0 && part == path
  {
    forall j | 0 <= j < |path|
      ensures path[j] != '/'
    {
      SlashAt(path, j);
      assert !OccursAt(path, "/", j);
    }
    if OccursAt(path, part, 0) && |part| == |path| {
      assert path[0..|part|] == path;
    }
    if part == path {
      assert path[0..|path|] == path;
    }
  }

  /** The components are what stands between slashes. */
  lemma {:induction false} ComponentStands(path: string, part: string)
    requires '/' !in part
    ensures part in Components(path) <==> exists i :: StandsAt(path, part, i)
    decreases |path|
  {
    match Find(path, "/")
    case None =>
      OnlyStands(path, part, 0);
      forall i | StandsAt(path, part, i)
        ensures part == path
      {
        OnlyStands(path, part, i);
      }
      assert Components(path) == [path];
    case Some(k) =>
      var rest := path[k + 1..];
      SlashAt(path, k);
      SlashSplit(path, k);
      ComponentStands(rest, part);
      FirstStands(path, part, k, 0);
      assert part in Components(path) <==> part == path[..k] || part in Components(rest);
      forall i | StandsAt(path, part, i)
        ensures part in Components(path)
      {
        if i <= k { FirstStands(path, part, k, i); } else { LaterStands(path, part, k, i); }
      }
      forall i | StandsAt(rest, part, i)
        ensures StandsAt(path, part, i + k + 1)
      {
        LaterStands(path, part, k, i + k + 1);
      }
  }

  /** A `..` between slashes or the ends is what the component check finds. */
  lemma ClimbsExactly(path: string)
    ensures ".." in Components(path) <==> Climbs(path)
  {
    ComponentStands(path, "..");
  }

  // ---------- repositories, memory sizes, cron lines ----------

  ghost predicate IsOwnerAndName(repo: string) {
    exists owner, name :: repo == owner + "/" + name && owner != "" && name != "" && '/' !in owner && '/' !in name
  }

  lemma RepoExactly(repo: string)
    ensures IsValidRepo(repo) <==> IsOwnerAndName(repo)
  {
    if IsValidRepo(repo) {
      var i := Find(repo, "/").value;
      var owner, name := repo[..i], repo[i + 1..];
      NoSlash(repo, i);
      NoSlash(name, |name|);
      SlashAt(repo, i);
      assert name == name[..|name|];
      assert repo == owner + "/" + name;
    }
    forall owner, name | repo == owner + "/" + name && '/' !in owner && '/' !in name && owner != "" && name != ""
      ensures IsValidRepo(repo)
    {
      OwnerAndName(owner, name);
    }
  }

  lemma OwnerAndName(owner: string, name: string)
    requires '/' !in owner && '/' !in name && owner != "" && name != ""
    ensures IsValidRepo(owner + "/" + name)
  {
    var repo := owner + "/" + name;
    SlashAt(repo, |owner|);
    var i := Find(repo, "/").value;
    SlashAt(repo, i);
    assert owner == repo[..|owner|];
    assert repo[..i] == owner && repo[i + 1..] == name;
    forall j
      ensures !OccursAt(name, "/", j)
    {
      SlashAt(name, j);
    }
  }

  lemma NoSlash(s: string, n: nat)
    requires n <= |s| && forall j | 0 <= j < n :: !OccursAt(s, "/", j)
    ensures '/' !in s[..n]
  {
    forall j | 0 <= j < n
      ensures s[j] != '/'
    {
      SlashAt(s, j);
    }
  }

  const UNITS := {"Mi", "Gi", "M", "G"}

  /** Digits and a unit. */
  ghost predicate IsMemorySize(memory: string) {
    exists digits, unit :: memory == digits + unit && unit in UNITS && AllDigits(digits)
  }

  lemma StripUnit(memory: string, unit: string)
    ensures StripSuffix(memory, unit).Some? ==> memory == StripSuffix(memory, unit).value + unit
    ensures forall digits | memory == digits + unit :: StripSuffix(memory, unit) == Some(digits)
  {
    forall digits | memory == digits + unit
      ensures StripSuffix(memory, unit) == Some(digits)
    {
      assert memory[|memory| - |unit|..] == unit;
    }
  }

  lemma MemoryMeansSize(memory: string)
    requires IsValidMemory(memory)
    ensures IsMemorySize(memory)
  {
    var unit := if StripSuffix(memory, "Mi").Some? then "Mi"
                else if StripSuffix(memory, "Gi").Some? then "Gi"
                else if StripSuffix(memory, "M").Some? then "M"
                else "G";
    StripUnit(memory, unit);
    assert memory == StripSuffix(memory, unit).value + unit && unit in UNITS;
  }

  /** No unit ends in another one, so the first that fits is the one. */
  lemma SizeMeansMemory(digits: string, unit: string)
    requires unit in UNITS && AllDigits(digits)
    ensures IsValidMemory(digits + unit)
  {
    var memory := digits + unit;
    StripUnit(memory, unit);
    var last := memory[|memory| - 1];
    assert last == unit[|unit| - 1];
    assert StripSuffix(memory, unit) == Some(digits);
    if unit == "M" || unit == "G" {
      NoUnit(memory, "Mi");
      NoUnit(memory, "Gi");
      NoUnit(memory, if unit == "M" then "G" else "M");
    } else {
      assert memory[|memory| - 2] == unit[0];
      NoUnit(memory, if unit == "Mi" then "Gi" else "Mi");
    }
  }

  lemma NoUnit(memory: string, unit: string)
    requires unit != "" && |memory| >= |unit|
    requires memory[|memory| - 1] != unit[|unit| - 1] || memory[|memory| - |unit|] != unit[0]
    ensures StripSuffix(memory, unit).None?
  {
    var end := memory[|memory| - |unit|..];
    assert end[|unit| - 1] == memory[|memory| - 1] && end[0] == memory[|memory| - |unit|];
  }

  lemma MemoryExactly(memory: string)
    ensures IsValidMemory(memory) <==> IsMemorySize(memory)
  {
    if IsValidMemory(memory) {
      MemoryMeansSize(memory);
    }
    forall digits, unit | memory == digits + unit && unit in UNITS && AllDigits(digits)
      ensures IsValidMemory(memory)
    {
      SizeMeansMemory(digits, unit);
    }
  }

  /** Five words between white space. */
  ghost predicate IsCronLine(cron: string) {
    exists gaps, words :: |words| == 5 && IsCut(gaps, words, NotBlank) && Weave(gaps, words) == cron
  }

  lemma CronExactly(cron: string)
    ensures |Words(cron, NotBlank)| == 5 <==> IsCronLine(cron)
  {
    WordsExactly(cron, Words(cron, NotBlank), NotBlank);
    forall gaps, words | IsCut(gaps, words, NotBlank) && Weave(gaps, words) == cron
      ensures Words(cron, NotBlank) == words
    {
      WordsOfCut(gaps, words, NotBlank);
    }
  }

  // ---------- what is reported, and where ----------

  ghost predicate OneSource(f: Fields) {
    || (f.path.Some? && f.image.None? && f.github.None?)
    || (f.path.None? && f.image.Some? && f.github.None?)
    || (f.path.None? && f.image.None? && f.github.Some?)
  }

  ghost predicate PathComplaint(at: string, path: string, e: ValidationError) {
    || (e == ValidationError(at, AbsolutePath) && Absolute(path))
    || (e == ValidationError(at, EscapingPath) && !Absolute(path) && Climbs(path))
  }

  ghost predicate AnyPathComplaint(at: string, paths: seq<string>, e: ValidationError) {
    exists path | path in paths :: PathComplaint(at, path, e)
  }

  ghost predicate SourceComplaint(name: string, f: Fields, e: ValidationError) {
    var root := "services." + name;
    || (e == ValidationError(root, NotOneSource) && !OneSource(f))
    || (f.path.Some? && PathComplaint(root + ".path", f.path.value, e))
    || (f.github.Some? && GithubComplaint(root, f.github.value, e))
    || (e == ValidationError(root + ".build", BuildWithImage) && f.hasBuild && f.image.Some?)
    || AnyPathComplaint(root + ".envFiles", f.envFiles, e)
  }

  ghost predicate GithubComplaint(root: string, github: ServiceGithub, e: ValidationError) {
    || (e == ValidationError(root + ".github.repo", BadRepo) && !IsOwnerAndName(github.repo))
    || (github.path.Some? && PathComplaint(root + ".github.path", github.path.value, e))
  }

  ghost predicate RuntimeComplaint(name: string, f: Fields, e: ValidationError) {
    var root := "services." + name;
    || (&& e == ValidationError(root + ".port", PortRequired)
        && f.port.None? && f.public in {Some(Toggle(true)), Some(Options)})
    || (e == ValidationError(root + ".port", PortZero) && f.port == Some(0))
    || (f.healthcheck.Some? && HealthcheckComplaint(root, f.healthcheck.value, e))
    || (e == ValidationError(root + ".cron", BadCron) && f.cron.Some? && !IsCronLine(f.cron.value))
  }

  ghost predicate HealthcheckComplaint(root: string, h: Healthcheck, e: ValidationError) {
    || (e == ValidationError(root + ".healthcheck.path", BadHealthcheckPath) && !Absolute(h.path))
    || (e == ValidationError(root + ".healthcheck", ZeroHealthcheckTime) && Some(0) in {h.timeout, h.interval})
  }

  ghost predicate MountComplaint(at: string, mounts: seq<string>, e: ValidationError) {
    exists mount | mount in mounts :: !Absolute(mount) && e == ValidationError(at, RelativeMount(mount))
  }

  ghost predicate StateComplaint(name: string, f: Fields, e: ValidationError) {
    var root := "services." + name;
    || MountComplaint(root + ".volumes", f.volumes, e)
    || (f.scale.Some? && ScaleComplaint(root, f.scale.value, f.volumes != [], e))
    || (e == ValidationError(root + ".strategy", RollingVolumes) && f.volumes != [] && f.strategy == Some(Rolling))
    || (f.resources.Some? && ResourcesComplaint(root, f.resources.value, e))
  }

  /** `stateful` says whether the service has volumes. */
  ghost predicate ScaleComplaint(root: string, scale: Scale, stateful: bool, e: ValidationError) {
    || (e == ValidationError(root + ".scale", ReplicasAndAutoscale) && scale.replicas.Some? && scale.autoscale.Some?)
    || (e == ValidationError(root + ".scale.replicas", ZeroReplicas) && scale.replicas == Some(0))
    || (scale.autoscale.Some? && AutoscaleComplaint(root, scale.autoscale.value, e))
    || (e == ValidationError(root + ".scale", ScaledVolumes) && stateful && MayRunTwice(scale))
  }

  ghost predicate MayRunTwice(scale: Scale) {
    scale.replicas.UnwrapOr(1) >= 2 || (scale.autoscale.Some? && scale.autoscale.value.max >= 2)
  }

  ghost predicate AutoscaleComplaint(root: string, a: Autoscale, e: ValidationError) {
    || (e == ValidationError(root + ".scale.autoscale", BadAutoscaleRange) && !(1 <= a.min <= a.max))
    || (&& e == ValidationError(root + ".scale.autoscale.targetCpuPercent", BadAutoscaleTarget)
        && a.targetCpuPercent.Some? && (a.targetCpuPercent.value == 0 || a.targetCpuPercent.value > 100))
  }

  ghost predicate ResourcesComplaint(root: string, r: Resources, e: ValidationError) {
    || (e == ValidationError(root + ".resources.cpu", BadCpu) && r.cpu.Some? && !(r.cpu.value > 0.0))
    || (&& e == ValidationError(root + ".resources.memory", BadMemory)
        && r.memory.Some? && !IsMemorySize(r.memory.value))
  }

  // ---------- the checks report exactly that ----------

  lemma ErrorPath(name: string, field: string, dotted: string)
    requires dotted == "." + field
    ensures At(name, field) == "services." + name + dotted
  {
  }

  lemma RelativePathExactly(at: string, path: string, e: ValidationError)
    ensures e in CheckRelativePath(at, path) <==> PathComplaint(at, path, e)
  {
    ClimbsExactly(path);
  }

  lemma {:induction false} RelativePathsExactly(at: string, paths: seq<string>, e: ValidationError)
    ensures e in CheckRelativePaths(at, paths) <==> AnyPathComplaint(at, paths, e)
  {
    if paths != [] {
      RelativePathExactly(at, paths[0], e);
      RelativePathsExactly(at, paths[1..], e);
    }
  }

  lemma {:induction false} MountsExactly(at: string, mounts: seq<string>, e: ValidationError)
    ensures e in CheckMounts(at, mounts) <==> MountComplaint(at, mounts, e)
  {
    if mounts != [] {
      MountsExactly(at, mounts[1..], e);
    }
  }

  lemma SourceExactly(name: string, f: Fields, e: ValidationError)
    ensures e in SourceErrors(name, f) <==> SourceComplaint(name, f, e)
  {
    ErrorPath(name, "path", ".path");
    ErrorPath(name, "build", ".build");
    ErrorPath(name, "envFiles", ".envFiles");
    if f.path.Some? {
      RelativePathExactly(At(name, "path"), f.path.value, e);
    }
    if f.github.Some? {
      GithubExactly(name, f.github.value, e);
    }
    RelativePathsExactly(At(name, "envFiles"), f.envFiles, e);
  }

  lemma GithubExactly(name: string, github: ServiceGithub, e: ValidationError)
    ensures e in GithubErrors(name, github) <==> GithubComplaint("services." + name, github, e)
  {
    ErrorPath(name, "github.repo", ".github.repo");
    ErrorPath(name, "github.path", ".github.path");
    RepoExactly(github.repo);
    if github.path.Some? {
      RelativePathExactly(At(name, "github.path"), github.path.value, e);
    }
  }

  lemma RuntimeExactly(name: string, f: Fields, e: ValidationError)
    ensures e in RuntimeErrors(name, f) <==> RuntimeComplaint(name, f, e)
  {
    ErrorPath(name, "port", ".port");
    ErrorPath(name, "cron", ".cron");
    assert f.public.Some? && f.public.value.Toggle? && f.public.value.enabled ==> f.public == Some(Toggle(true));
    if f.healthcheck.Some? {
      HealthcheckExactly(name, f.healthcheck.value, e);
    }
    if f.cron.Some? {
      CronExactly(f.cron.value);
    }
  }

  lemma HealthcheckExactly(name: string, h: Healthcheck, e: ValidationError)
    ensures e in HealthcheckErrors(name, h) <==> HealthcheckComplaint("services." + name, h, e)
  {
    ErrorPath(name, "healthcheck", ".healthcheck");
    ErrorPath(name, "healthcheck.path", ".healthcheck.path");
  }

  lemma StateExactly(name: string, f: Fields, e: ValidationError)
    ensures e in StateErrors(name, f) <==> StateComplaint(name, f, e)
  {
    ErrorPath(name, "volumes", ".volumes");
    ErrorPath(name, "strategy", ".strategy");
    MountsExactly(At(name, "volumes"), f.volumes, e);
    if f.scale.Some? {
      ScaleExactly(name, f.scale.value, f.volumes != [], e);
    }
    if f.resources.Some? {
      ResourcesExactly(name, f.resources.value, e);
    }
  }

  lemma ScaleExactly(name: string, scale: Scale, stateful: bool, e: ValidationError)
    ensures e in ScaleErrors(name, scale, stateful) <==> ScaleComplaint("services." + name, scale, stateful, e)
  {
    ErrorPath(name, "scale", ".scale");
    ErrorPath(name, "scale.replicas", ".scale.replicas");
    if scale.autoscale.Some? {
      AutoscaleExactly(name, scale.autoscale.value, e);
    }
  }

  lemma AutoscaleExactly(name: string, a: Autoscale, e: ValidationError)
    ensures e in AutoscaleErrors(name, a) <==> AutoscaleComplaint("services." + name, a, e)
  {
    ErrorPath(name, "scale.autoscale", ".scale.autoscale");
    ErrorPath(name, "scale.autoscale.targetCpuPercent", ".scale.autoscale.targetCpuPercent");
  }

  lemma ResourcesExactly(name: string, r: Resources, e: ValidationError)
    ensures e in ResourcesErrors(name, r) <==> ResourcesComplaint("services." + name, r, e)
  {
    ErrorPath(name, "resources.cpu", ".resources.cpu");
    ErrorPath(name, "resources.memory", ".resources.memory");
    if r.memory.Some? {
      MemoryExactly(r.memory.value);
    }
  }

  ghost predicate FieldComplaint(name: string, f: Fields, e: ValidationError) {
    SourceComplaint(name, f, e) || RuntimeComplaint(name, f, e) || StateComplaint(name, f, e)
  }

  /** Every error of the checks is a complaint of the rules, and conversely. */
  lemma FieldErrorsExactly(name: string, f: Fields, e: ValidationError)
    ensures e in FieldErrors(name, f) <==> FieldComplaint(name, f, e)
  {
    SourceExactly(name, f, e);
    RuntimeExactly(name, f, e);
    StateExactly(name, f, e);
  }

  // ---------- fields nothing is wrong with ----------

  ghost predicate StaysInside(path: string) {
    !Absolute(path) && !Climbs(path)
  }

  ghost predicate GoodSource(f: Fields) {
    && OneSource(f)
    && (f.path.Some? ==> StaysInside(f.path.value))
    && (f.github.Some? ==>
          && IsOwnerAndName(f.github.value.repo)
          && (f.github.value.path.Some? ==> StaysInside(f.github.value.path.value)))
    && (f.hasBuild ==> f.image.None?)
    && (forall path | path in f.envFiles :: StaysInside(path))
  }

  ghost predicate GoodRuntime(f: Fields) {
    && f.port != Some(0)
    && (f.public in {Some(Toggle(true)), Some(Options)} ==> f.port.Some?)
    && (f.healthcheck.Some? ==>
          Absolute(f.healthcheck.value.path) && Some(0) !in {f.healthcheck.value.timeout, f.healthcheck.value.interval})
    && (f.cron.Some? ==> IsCronLine(f.cron.value))
  }

  ghost predicate GoodScale(scale: Scale) {
    && (scale.replicas.None? || scale.autoscale.None?)
    && scale.replicas != Some(0)
    && (scale.autoscale.Some? ==>
          var a := scale.autoscale.value;
          1 <= a.min <= a.max && (a.targetCpuPercent.Some? ==> 0 < a.targetCpuPercent.value <= 100))
  }

  ghost predicate GoodState(f: Fields) {
    && (forall mount | mount in f.volumes :: Absolute(mount))
    && (f.scale.Some? ==> GoodScale(f.scale.value))
    && (f.volumes != [] ==> f.strategy != Some(Rolling) && (f.scale.Some? ==> !MayRunTwice(f.scale.value)))
    && (f.resources.Some? && f.resources.value.cpu.Some? ==> f.resources.value.cpu.value > 0.0)
    && (f.resources.Some? && f.resources.value.memory.Some? ==> IsMemorySize(f.resources.value.memory.value))
  }

  ghost predicate GoodFields(f: Fields) {
    GoodSource(f) && GoodRuntime(f) && GoodState(f)
  }

  lemma PathWithoutComplaint(at: string, path: string)
    ensures (forall e :: !PathComplaint(at, path, e)) <==> StaysInside(path)
  {
    assert Absolute(path) ==> PathComplaint(at, path, ValidationError(at, AbsolutePath));
    assert !Absolute(path) && Climbs(path) ==> PathComplaint(at, path, ValidationError(at, EscapingPath));
  }

  lemma PathsWithoutComplaint(at: string, paths: seq<string>)
    ensures (forall e :: !AnyPathComplaint(at, paths, e)) <==> forall path | path in paths :: StaysInside(path)
  {
    forall path | path in paths
      ensures (forall e :: !PathComplaint(at, path, e)) <==> StaysInside(path)
    {
      PathWithoutComplaint(at, path);
    }
    forall path, e | path in paths && PathComplaint(at, path, e)
      ensures AnyPathComplaint(at, paths, e)
    {
    }
  }

  lemma SourceWithoutComplaint(name: string, f: Fields)
    ensures (forall e :: !SourceComplaint(name, f, e)) <==> GoodSource(f)
  {
    var root := "services." + name;
    assert !OneSource(f) ==> SourceComplaint(name, f, ValidationError(root, NotOneSource));
    assert f.hasBuild && f.image.Some? ==> SourceComplaint(name, f, ValidationError(root + ".build", BuildWithImage));
    if f.path.Some? {
      PathWithoutComplaint(root + ".path", f.path.value);
      forall e | PathComplaint(root + ".path", f.path.value, e) ensures SourceComplaint(name, f, e) {
      }
    }
    if f.github.Some? {
      GithubWithoutComplaint(root, f.github.value);
      forall e | GithubComplaint(root, f.github.value, e) ensures SourceComplaint(name, f, e) {
      }
    }
    PathsWithoutComplaint(root + ".envFiles", f.envFiles);
    forall e | AnyPathComplaint(root + ".envFiles", f.envFiles, e) ensures SourceComplaint(name, f, e) {
    }
  }

  lemma GithubWithoutComplaint(root: string, github: ServiceGithub)
    ensures (forall e :: !GithubComplaint(root, github, e)) <==>
            && IsOwnerAndName(github.repo)
            && (github.path.Some? ==> StaysInside(github.path.value))
  {
    assert !IsOwnerAndName(github.repo) ==>
           GithubComplaint(root, github, ValidationError(root + ".github.repo", BadRepo));
    if github.path.Some? {
      PathWithoutComplaint(root + ".github.path", github.path.value);
      forall e | PathComplaint(root + ".github.path", github.path.value, e) ensures GithubComplaint(root, github, e) {
      }
    }
  }

  lemma RuntimeWithoutComplaint(name: string, f: Fields)
    ensures (forall e :: !RuntimeComplaint(name, f, e)) <==> GoodRuntime(f)
  {
    var root := "services." + name;
    assert f.port.None? && f.public in {Some(Toggle(true)), Some(Options)} ==>
           RuntimeComplaint(name, f, ValidationError(root + ".port", PortRequired));
    assert f.port == Some(0) ==> RuntimeComplaint(name, f, ValidationError(root + ".port", PortZero));
    assert f.cron.Some? && !IsCronLine(f.cron.value) ==>
           RuntimeComplaint(name, f, ValidationError(root + ".cron", BadCron));
    if f.healthcheck.Some? {
      var h := f.healthcheck.value;
      assert !Absolute(h.path) ==>
             RuntimeComplaint(name, f, ValidationError(root + ".healthcheck.path", BadHealthcheckPath));
      assert Some(0) in {h.timeout, h.interval} ==>
             RuntimeComplaint(name, f, ValidationError(root + ".healthcheck", ZeroHealthcheckTime));
    }
  }

  lemma ScaleWithoutComplaint(root: string, scale: Scale, stateful: bool)
    ensures (forall e :: !ScaleComplaint(root, scale, stateful, e)) <==>
            GoodScale(scale) && (stateful ==> !MayRunTwice(scale))
  {
    assert scale.replicas.Some? && scale.autoscale.Some? ==>
           ScaleComplaint(root, scale, stateful, ValidationError(root + ".scale", ReplicasAndAutoscale));
    assert stateful && MayRunTwice(scale) ==>
           ScaleComplaint(root, scale, stateful, ValidationError(root + ".scale", ScaledVolumes));
    assert scale.replicas == Some(0) ==>
           ScaleComplaint(root, scale, stateful, ValidationError(root + ".scale.replicas", ZeroReplicas));
    if scale.autoscale.Some? {
      var a := scale.autoscale.value;
      var range := ValidationError(root + ".scale.autoscale", BadAutoscaleRange);
      var target := ValidationError(root + ".scale.autoscale.targetCpuPercent", BadAutoscaleTarget);
      assert AutoscaleComplaint(root, a, range) ==> ScaleComplaint(root, scale, stateful, range);
      assert AutoscaleComplaint(root, a, target) ==> ScaleComplaint(root, scale, stateful, target);
    }
  }

  lemma MountsWithoutComplaint(at: string, mounts: seq<string>)
    ensures (forall e :: !MountComplaint(at, mounts, e)) <==> forall mount | mount in mounts :: Absolute(mount)
  {
    forall mount | mount in mounts && !Absolute(mount)
      ensures MountComplaint(at, mounts, ValidationError(at, RelativeMount(mount)))
    {
    }
  }

  lemma ResourcesWithoutComplaint(root: string, r: Resources)
    ensures (forall e :: !ResourcesComplaint(root, r, e)) <==>
            (r.cpu.Some? ==> r.cpu.value > 0.0) && (r.memory.Some? ==> IsMemorySize(r.memory.value))
  {
    assert r.cpu.Some? && r.cpu.value <= 0.0 ==>
           ResourcesComplaint(root, r, ValidationError(root + ".resources.cpu", BadCpu));
    assert r.memory.Some? && !IsMemorySize(r.memory.value) ==>
           ResourcesComplaint(root, r, ValidationError(root + ".resources.memory", BadMemory));
  }

  lemma StateWithoutComplaint(name: string, f: Fields)
    ensures (forall e :: !StateComplaint(name, f, e)) <==> GoodState(f)
  {
    var root, stateful := "services." + name, f.volumes != [];
    MountsWithoutComplaint(root + ".volumes", f.volumes);
    forall e | MountComplaint(root + ".volumes", f.volumes, e) ensures StateComplaint(name, f, e) {
    }
    assert stateful && f.strategy == Some(Rolling) ==>
           StateComplaint(name, f, ValidationError(root + ".strategy", RollingVolumes));
    if f.scale.Some? {
      ScaleWithoutComplaint(root, f.scale.value, stateful);
      forall e | ScaleComplaint(root, f.scale.value, stateful, e) ensures StateComplaint(name, f, e) {
      }
    }
    if f.resources.Some? {
      ResourcesWithoutComplaint(root, f.resources.value);
      forall e | ResourcesComplaint(root, f.resources.value, e) ensures StateComplaint(name, f, e) {
      }
    }
    forall e | GoodState(f)
      ensures !StateComplaint(name, f, e)
    {
      assert f.scale.Some? ==> !ScaleComplaint(root, f.scale.value, stateful, e);
    }
  }

  /** The checks pass exactly the fields the rules allow. */
  lemma GoodFieldsExactly(name: string, f: Fields)
    ensures (forall e :: !FieldComplaint(name, f, e)) <==> GoodFields(f)
  {
    SourceWithoutComplaint(name, f);
    RuntimeWithoutComplaint(name, f);
    StateWithoutComplaint(name, f);
    forall e | SourceComplaint(name, f, e) || RuntimeComplaint(name, f, e) || StateComplaint(name, f, e)
      ensures FieldComplaint(name, f, e)
    {
    }
  }

  /**
   Fields nothing is wrong with name one source; with volumes the service never runs twice and is
   recreated; the strategy it declares is the one in effect, and without any it rolls.
   */
  lemma SoundFields(f: Fields)
    requires GoodFields(f)
    ensures f.SourceOf().Some?
    ensures f.path.Some? ==> f.SourceOf() == Some(Path(f.path.value))
    ensures f.image.Some? ==> f.SourceOf() == Some(Image(f.image.value))
    ensures f.github.Some? ==> f.SourceOf() == Some(Github(f.github.value))
    ensures f.volumes != [] ==> f.MaxReplicas() == 1 && f.EffectiveStrategy() == Recreate
    ensures f.strategy.Some? ==> f.EffectiveStrategy() == f.strategy.value
    ensures f.strategy.None? && f.volumes == [] ==> f.EffectiveStrategy() == Rolling
    ensures f.MaxReplicas() >= 1
    ensures f.IsPublic() ==> f.port.Some? && f.port.value > 0
  {
    assert f.public.Some? && f.public.value.Toggle? && f.public.value.enabled ==> f.public == Some(Toggle(true));
  }
}
