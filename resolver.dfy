/** Resolution of a parsed manifest against one build target (`parse_config`). Each step is
    specified by a function of the manifest lists; the methods that carry out the steps with
    running values, as the resolver does, are proved equal to those functions. */
module Resolver {
  import opened Results
  import opened Strings
  import opened Layering
  import opened Manifest
  import opened Configuration

  // ---------------------------------------------------------------------------------------
  // Build settings

  /** The token in `build_path` that stands for the manifest's directory. */
  const OriginToken := "$ORIGIN"

  function ApplicationNameOf(b: ConfigBuild): Option<string> { b.applicationName }
  function BuildPathOf(b: ConfigBuild): Option<string> { b.buildPath }

  /** The build path for a declared `build_path` (with `$ORIGIN` expanded), or `build` under
      the manifest's directory when none was declared. */
  function BuildPathFor(declared: Option<string>, origin: string): string {
    match declared
    case None => JoinPath(origin, "build")
    case Some(p) => ReplaceAll(p, OriginToken, origin)
  }

  /** A declared build path that does not mention `$ORIGIN` is used as written. */
  lemma BuildPathWithoutOrigin(p: string, origin: string)
    requires forall i :: 0 <= i <= |p| ==> !OccursAt(p, OriginToken, i)
    ensures BuildPathFor(Some(p), origin) == p
  {
    ReplaceAbsent(p, OriginToken, origin);
  }

  /** A declared build path `$ORIGIN<rest>`, with no other `$ORIGIN` in it, is the
      manifest's directory followed by the rest as written. */
  lemma BuildPathUnderOrigin(rest: string, origin: string)
    requires forall i :: 0 <= i <= |rest| ==> !OccursAt(rest, OriginToken, i)
    ensures BuildPathFor(Some(OriginToken + rest), origin) == origin + rest
  {
    ReplaceLeading(OriginToken, rest, origin);
    ReplaceAbsent(rest, OriginToken, origin);
  }

  /** Name and path from the last applying `[[build]]` entries that set them; a missing name
      is an error. */
  function BuildSettings(builds: seq<ConfigBuild>, origin: string, target: string): Result<BuildConfig, ConfigError> {
    match LastSet(builds, BuildTargetOf, target, ApplicationNameOf)
    case None => Err(MissingApplicationName)
    case Some(name) => Ok(BuildConfig(name, BuildPathFor(LastSet(builds, BuildTargetOf, target, BuildPathOf), origin)))
  }

  /** The `[[build]]` loop: each applying entry overwrites the fields it sets. */
  method ResolveBuild(builds: seq<ConfigBuild>, origin: string, target: string) returns (r: Result<BuildConfig, ConfigError>)
    ensures r == BuildSettings(builds, origin, target)
  {
    var applicationName: Option<string> := None;
    var buildPath := JoinPath(origin, "build");
    for i := 0 to |builds|
      invariant applicationName == LastSet(builds[..i], BuildTargetOf, target, ApplicationNameOf)
      invariant buildPath == BuildPathFor(LastSet(builds[..i], BuildTargetOf, target, BuildPathOf), origin)
    {
      var b := builds[i];
      assert builds[..i + 1][..i] == builds[..i];
      if Matches(b.buildTarget, target) {
        if b.applicationName.Some? {
          applicationName := b.applicationName;
        }
        if b.buildPath.Some? {
          buildPath := ReplaceAll(b.buildPath.value, OriginToken, origin);
        }
      }
    }
    assert builds[..|builds|] == builds;
    if applicationName.None? {
      return Err(MissingApplicationName);
    }
    r := Ok(BuildConfig(applicationName.value, buildPath));
  }

  // ---------------------------------------------------------------------------------------
  // Python distribution

  function PythonDistributionOf(d: ConfigPythonDistribution): PythonDistribution {
    match d
    case Local(_, path, sha) => PythonDistribution.Local(path, sha)
    case Url(_, url, sha) => PythonDistribution.Url(url, sha)
  }

  /** The first entry declared for exactly `target` ("all" is not a wildcard here). */
  function FirstExactDistribution(ds: seq<ConfigPythonDistribution>, target: string): (r: Option<PythonDistribution>)
    ensures r.Some? ==> exists i :: 0 <= i < |ds| && ds[i].buildTarget == target && r.value == PythonDistributionOf(ds[i])
  {
    if ds == [] then None
    else if ds[0].buildTarget == target then Some(PythonDistributionOf(ds[0]))
    else FirstExactDistribution(ds[1..], target)
  }

  /** The `[[python_distribution]]` step: no sections at all, no section for the target, or
      the first one declared for it. */
  function SelectPythonDistribution(ds: seq<ConfigPythonDistribution>, target: string): (r: Result<PythonDistribution, ConfigError>)
    ensures ds == [] ==> r == Err(NoDistributionSections)
    ensures ds != [] && r.Err? ==> r == Err(NoMatchingDistribution(target))
    ensures r.Ok? ==> FirstExactDistribution(ds, target) == Some(r.value)
  {
    if ds == [] then Err(NoDistributionSections)
    else
      match FirstExactDistribution(ds, target)
      case None => Err(NoMatchingDistribution(target))
      case Some(d) => Ok(d)
  }

  /** The entry at `i` is chosen when it is the first one declared for the target. */
  lemma {:induction false} FirstExactIsFirst(ds: seq<ConfigPythonDistribution>, target: string, i: nat)
    requires i < |ds| && ds[i].buildTarget == target
    requires forall j :: 0 <= j < i ==> ds[j].buildTarget != target
    ensures FirstExactDistribution(ds, target) == Some(PythonDistributionOf(ds[i]))
  {
    if i > 0 {
      FirstExactIsFirst(ds[1..], target, i - 1);
    }
  }

  /** Nothing is chosen exactly when no entry is declared for the target. */
  lemma {:induction false} FirstExactNone(ds: seq<ConfigPythonDistribution>, target: string)
    ensures FirstExactDistribution(ds, target).None? <==> forall i :: 0 <= i < |ds| ==> ds[i].buildTarget != target
  {
    if ds != [] {
      FirstExactNone(ds[1..], target);
      assert forall i :: 1 <= i < |ds| ==> ds[i] == ds[1..][i - 1];
    }
  }

  // ---------------------------------------------------------------------------------------
  // Interpreter settings

  /** The target whose default allocator is the system one. */
  const WindowsMsvcTarget := "x86_64-pc-windows-msvc"

  function DefaultRawAllocator(target: string): RawAllocator {
    if target == WindowsMsvcTarget then System else Jemalloc
  }

  predicate ValidOptimizeLevel(level: int) {
    level == 0 || level == 1 || level == 2
  }

  /** The separator between the encoding name and the error handler in `stdio_encoding`. */
  const EncodingSeparator := ':'

  /** The running values of the `[[embedded_python_config]]` loop. */
  datatype InterpreterSettings = InterpreterSettings(
    dontWriteBytecode: bool,
    ignoreEnvironment: bool,
    noSite: bool,
    noUserSiteDirectory: bool,
    optimizeLevel: int,
    stdioEncodingName: Option<string>,
    stdioEncodingErrors: Option<string>,
    unbufferedStdio: bool,
    filesystemImporter: bool,
    sysFrozen: bool,
    sysMeipass: bool,
    sysPaths: seq<string>,
    rawAllocator: RawAllocator,
    terminfoResolution: TerminfoResolution,
    writeModulesDirectoryEnv: Option<string>)

  /** The settings before any entry is applied. */
  function DefaultInterpreter(target: string): InterpreterSettings {
    InterpreterSettings(true, true, true, true, 0, None, None, false, false, false, false, [],
                        DefaultRawAllocator(target), TerminfoResolution.Dynamic, None)
  }

  // What each entry says about each setting, as a field for LastSet.

  function DontWriteBytecodeOf(c: ConfigPython): Option<bool> { c.dontWriteBytecode }
  function IgnoreEnvironmentOf(c: ConfigPython): Option<bool> { c.ignoreEnvironment }
  function NoSiteOf(c: ConfigPython): Option<bool> { c.noSite }
  function NoUserSiteDirectoryOf(c: ConfigPython): Option<bool> { c.noUserSiteDirectory }
  function OptimizeLevelOf(c: ConfigPython): Option<int> { c.optimizeLevel }
  function UnbufferedStdioOf(c: ConfigPython): Option<bool> { c.unbufferedStdio }
  function FilesystemImporterOf(c: ConfigPython): Option<bool> { c.filesystemImporter }
  function SysFrozenOf(c: ConfigPython): Option<bool> { c.sysFrozen }
  function SysMeipassOf(c: ConfigPython): Option<bool> { c.sysMeipass }
  function SysPathsOf(c: ConfigPython): Option<seq<string>> { c.sysPaths }
  function RawAllocatorOf(c: ConfigPython): Option<RawAllocator> { c.rawAllocator }
  function WriteModulesDirectoryEnvOf(c: ConfigPython): Option<string> { c.writeModulesDirectoryEnv }

  /** The encoding name: the piece before the first separator. */
  function StdioEncodingNameOf(c: ConfigPython): Option<string> {
    match c.stdioEncoding
    case None => None
    case Some(v) => if EncodingSeparator in v then Some(Split(v, EncodingSeparator)[0]) else None
  }

  /** The error handler: the piece after the first separator, up to the next one if any. */
  function StdioEncodingErrorsOf(c: ConfigPython): Option<string> {
    match c.stdioEncoding
    case None => None
    case Some(v) => if EncodingSeparator in v then Some(Split(v, EncodingSeparator)[1]) else None
  }

  /** The source's reading of `stdio_encoding`: the first and second pieces between
      separators, the second taken without checking that it exists. */
  function StdioEncodingAsWritten(v: string): (r: (string, string))
    requires |Split(v, EncodingSeparator)| >= 2
    ensures EncodingSeparator !in r.0 && EncodingSeparator !in r.1
    ensures StartsWith(v, r.0 + [EncodingSeparator] + r.1)
    ensures |r.0| + 1 + |r.1| == |v| || v[|r.0| + 1 + |r.1|] == EncodingSeparator
  {
    var pieces := Split(v, EncodingSeparator);
    var k := IndexOf(v, EncodingSeparator);
    var rest := v[k + 1..];
    assert pieces == [v[..k]] + Split(rest, EncodingSeparator);
    assert pieces[1] == Split(rest, EncodingSeparator)[0];
    SplitFirst(rest, EncodingSeparator);
    assert v[..k + 1 + |pieces[1]|] == v[..k] + [EncodingSeparator] + rest[..|pieces[1]|];
    assert k + 1 + |pieces[1]| < |v| ==> v[k + 1 + |pieces[1]|] == rest[|pieces[1]|];
    (pieces[0], pieces[1])
  }

  /** An encoding without a separator, which the manifest accepts, has a single piece, so the
      source's unchecked second piece does not exist. */
  lemma StdioEncodingAsWrittenFails()
    ensures |Split("utf-8", EncodingSeparator)| == 1
  {
    assert EncodingSeparator !in "utf-8";
  }

  /** The terminfo mode; a static one takes its directories from the same entry. */
  function TerminfoOf(c: ConfigPython): Option<TerminfoResolution> {
    match c.terminfoResolution
    case None => None
    case Some(Dynamic) => Some(TerminfoResolution.Dynamic)
    case Some(NoResolution) => Some(TerminfoResolution.NoResolution)
    case Some(Static) =>
      match c.terminfoDirs
      case None => None
      case Some(dirs) => Some(TerminfoResolution.Static(dirs))
  }

  /** What is wrong with one applying entry, checked in the resolver's order: the optimize
      level, then the stdio encoding, then static terminfo without directories. */
  function EntryError(c: ConfigPython): (e: Option<ConfigError>)
    ensures e.None? <==>
      && (c.optimizeLevel.Some? ==> ValidOptimizeLevel(c.optimizeLevel.value))
      && (c.stdioEncoding.Some? ==> EncodingSeparator in c.stdioEncoding.value)
      && (c.terminfoResolution == Some(ConfigTerminfoResolution.Static) ==> c.terminfoDirs.Some?)
    ensures c.optimizeLevel.Some? && !ValidOptimizeLevel(c.optimizeLevel.value)
        ==> e == Some(InvalidOptimizeLevel(c.optimizeLevel.value))
  {
    if c.optimizeLevel.Some? && !ValidOptimizeLevel(c.optimizeLevel.value) then
      Some(InvalidOptimizeLevel(c.optimizeLevel.value))
    else if c.stdioEncoding.Some? && EncodingSeparator !in c.stdioEncoding.value then
      Some(InvalidStdioEncoding(c.stdioEncoding.value))
    else if c.terminfoResolution == Some(ConfigTerminfoResolution.Static) && c.terminfoDirs.None? then
      Some(TerminfoDirsRequired)
    else
      None
  }

  /** One entry on top of the running settings: every setting it gives replaces the running
      one and every setting it omits is kept. */
  function Overlay(s: InterpreterSettings, c: ConfigPython): InterpreterSettings {
    InterpreterSettings(
      c.dontWriteBytecode.GetOr(s.dontWriteBytecode),
      c.ignoreEnvironment.GetOr(s.ignoreEnvironment),
      c.noSite.GetOr(s.noSite),
      c.noUserSiteDirectory.GetOr(s.noUserSiteDirectory),
      c.optimizeLevel.GetOr(s.optimizeLevel),
      if StdioEncodingNameOf(c).Some? then StdioEncodingNameOf(c) else s.stdioEncodingName,
      if StdioEncodingErrorsOf(c).Some? then StdioEncodingErrorsOf(c) else s.stdioEncodingErrors,
      c.unbufferedStdio.GetOr(s.unbufferedStdio),
      c.filesystemImporter.GetOr(s.filesystemImporter),
      c.sysFrozen.GetOr(s.sysFrozen),
      c.sysMeipass.GetOr(s.sysMeipass),
      c.sysPaths.GetOr(s.sysPaths),
      c.rawAllocator.GetOr(s.rawAllocator),
      TerminfoOf(c).GetOr(s.terminfoResolution),
      if c.writeModulesDirectoryEnv.Some? then c.writeModulesDirectoryEnv else s.writeModulesDirectoryEnv)
  }

  /** One entry applied to the running settings: an entry for another target changes
      nothing, a bad applying entry is an error, any other is layered on top. */
  function ApplyEntry(s: InterpreterSettings, c: ConfigPython, target: string): Result<InterpreterSettings, ConfigError> {
    if !Matches(c.buildTarget, target) then Ok(s)
    else
      match EntryError(c)
      case Some(e) => Err(e)
      case None => Ok(Overlay(s, c))
  }

  /** The `[[embedded_python_config]]` step: the entries applied in declaration order to the
      defaults, stopping at the first error. */
  function InterpreterSettingsOf(cfgs: seq<ConfigPython>, target: string): Result<InterpreterSettings, ConfigError>
    decreases |cfgs|
  {
    if cfgs == [] then Ok(DefaultInterpreter(target))
    else
      var s :- InterpreterSettingsOf(cfgs[..|cfgs| - 1], target);
      ApplyEntry(s, cfgs[|cfgs| - 1], target)
  }

  /** The step on the first `i + 1` entries is entry `i` applied to the step on the first `i`. */
  lemma InterpreterSettingsPrefix(cfgs: seq<ConfigPython>, target: string, i: nat)
    requires i < |cfgs|
    ensures InterpreterSettingsOf(cfgs[..i], target).Err? ==>
              InterpreterSettingsOf(cfgs[..i + 1], target) == InterpreterSettingsOf(cfgs[..i], target)
    ensures InterpreterSettingsOf(cfgs[..i], target).Ok? ==>
              InterpreterSettingsOf(cfgs[..i + 1], target)
              == ApplyEntry(InterpreterSettingsOf(cfgs[..i], target).value, cfgs[i], target)
  {
    assert cfgs[..i + 1][..i] == cfgs[..i];
  }

  /** Once an entry has failed, later entries do not change the outcome. */
  lemma {:induction false} InterpreterErrorStays(cfgs: seq<ConfigPython>, target: string, k: nat)
    requires k <= |cfgs| && InterpreterSettingsOf(cfgs[..k], target).Err?
    ensures InterpreterSettingsOf(cfgs, target) == InterpreterSettingsOf(cfgs[..k], target)
    decreases |cfgs|
  {
    if k < |cfgs| {
      var init := cfgs[..|cfgs| - 1];
      assert init[..k] == cfgs[..k];
      InterpreterErrorStays(init, target, k);
    } else {
      assert cfgs[..k] == cfgs;
    }
  }

  /** A setting, read from the settings record, that each applying entry either gives or
      leaves alone: after the whole step it is whatever the last applying entry that gives
      it says, or its default. */
  lemma {:induction false} SettingIsLastSet<T>(cfgs: seq<ConfigPython>, target: string,
                                                 setting: InterpreterSettings -> T, field: ConfigPython -> Option<T>)
    requires forall s, c :: setting(Overlay(s, c)) == field(c).GetOr(setting(s))
    requires InterpreterSettingsOf(cfgs, target).Ok?
    ensures setting(InterpreterSettingsOf(cfgs, target).value)
         == LastSet(cfgs, PythonTargetOf, target, field).GetOr(setting(DefaultInterpreter(target)))
    decreases |cfgs|
  {
    if cfgs != [] {
      var init := cfgs[..|cfgs| - 1];
      assert InterpreterSettingsOf(init, target).Ok?;
      SettingIsLastSet(init, target, setting, field);
    }
  }

  /** The same for a setting that starts out unset and is replaced only by an entry that
      gives it: after the whole step it is exactly what the last applying entry giving it
      says. */
  lemma {:induction false} OptionalSettingIsLastSet<T>(cfgs: seq<ConfigPython>, target: string,
                                                         setting: InterpreterSettings -> Option<T>, field: ConfigPython -> Option<T>)
    requires forall s, c :: setting(Overlay(s, c)) == if field(c).Some? then field(c) else setting(s)
    requires setting(DefaultInterpreter(target)).None?
    requires InterpreterSettingsOf(cfgs, target).Ok?
    ensures setting(InterpreterSettingsOf(cfgs, target).value) == LastSet(cfgs, PythonTargetOf, target, field)
    decreases |cfgs|
  {
    if cfgs != [] {
      var init := cfgs[..|cfgs| - 1];
      assert InterpreterSettingsOf(init, target).Ok?;
      OptionalSettingIsLastSet(init, target, setting, field);
    }
  }

  /** The step succeeds exactly when no applying entry is bad. */
  lemma {:induction false} InterpreterOk(cfgs: seq<ConfigPython>, target: string)
    ensures InterpreterSettingsOf(cfgs, target).Ok?
        <==> forall i :: 0 <= i < |cfgs| && Matches(cfgs[i].buildTarget, target) ==> EntryError(cfgs[i]).None?
    decreases |cfgs|
  {
    if cfgs != [] {
      var init := cfgs[..|cfgs| - 1];
      InterpreterOk(init, target);
      assert forall i :: 0 <= i < |init| ==> init[i] == cfgs[i];
    }
  }

  /** The error reported is that of the first bad applying entry. */
  lemma {:induction false} InterpreterFirstBad(cfgs: seq<ConfigPython>, target: string, i: nat)
    requires i < |cfgs| && Matches(cfgs[i].buildTarget, target) && EntryError(cfgs[i]).Some?
    requires forall j :: 0 <= j < i && Matches(cfgs[j].buildTarget, target) ==> EntryError(cfgs[j]).None?
    ensures InterpreterSettingsOf(cfgs, target) == Err(EntryError(cfgs[i]).value)
    decreases |cfgs|
  {
    var init := cfgs[..|cfgs| - 1];
    if i < |cfgs| - 1 {
      InterpreterFirstBad(init, target, i);
    } else {
      InterpreterOk(init, target);
      assert forall j :: 0 <= j < |init| ==> init[j] == cfgs[j];
    }
  }

  /** A successful step that ends in static terminfo resolution got it, with its directories,
      from an applying entry after which no applying entry names a terminfo mode. */
  lemma InterpreterTerminfoStatic(cfgs: seq<ConfigPython>, target: string, d: string)
    requires InterpreterSettingsOf(cfgs, target).Ok?
    requires InterpreterSettingsOf(cfgs, target).value.terminfoResolution == TerminfoResolution.Static(d)
    ensures exists i :: (0 <= i < |cfgs| && Matches(cfgs[i].buildTarget, target)
      && cfgs[i].terminfoResolution == Some(ConfigTerminfoResolution.Static)
      && cfgs[i].terminfoDirs == Some(d)
      && forall j :: i < j < |cfgs| && Matches(cfgs[j].buildTarget, target) ==> cfgs[j].terminfoResolution.None?)
  {
    SettingIsLastSet(cfgs, target, (s: InterpreterSettings) => s.terminfoResolution, TerminfoOf);
    InterpreterOk(cfgs, target);
    LastStaticTerminfo(cfgs, target, d);
  }

  /** The entry that last names a terminfo mode, among entries none of which is bad. */
  lemma LastStaticTerminfo(cfgs: seq<ConfigPython>, target: string, d: string)
    requires LastSet(cfgs, PythonTargetOf, target, TerminfoOf) == Some(TerminfoResolution.Static(d))
    requires forall i :: 0 <= i < |cfgs| && Matches(cfgs[i].buildTarget, target) ==> EntryError(cfgs[i]).None?
    ensures exists i :: (0 <= i < |cfgs| && Matches(cfgs[i].buildTarget, target)
      && cfgs[i].terminfoResolution == Some(ConfigTerminfoResolution.Static)
      && cfgs[i].terminfoDirs == Some(d)
      && forall j :: i < j < |cfgs| && Matches(cfgs[j].buildTarget, target) ==> cfgs[j].terminfoResolution.None?)
  {
    LastSetWitness(cfgs, PythonTargetOf, target, TerminfoOf);
    var i :| 0 <= i < |cfgs| && Sets(cfgs[i], PythonTargetOf, target, TerminfoOf)
             && TerminfoOf(cfgs[i]) == LastSet(cfgs, PythonTargetOf, target, TerminfoOf)
             && forall j :: i < j < |cfgs| ==> !Sets(cfgs[j], PythonTargetOf, target, TerminfoOf);
    forall j | i < j < |cfgs| && Matches(cfgs[j].buildTarget, target)
      ensures cfgs[j].terminfoResolution.None?
    {
      NamesNoTerminfo(cfgs[j], target);
    }
  }

  /** An applying entry that is not bad and gives no terminfo mode names none. */
  lemma NamesNoTerminfo(c: ConfigPython, target: string)
    requires Matches(c.buildTarget, target) && EntryError(c).None?
    requires !Sets(c, PythonTargetOf, target, TerminfoOf)
    ensures c.terminfoResolution.None?
  {
  }

  /** A successful step always ends with a legal optimize level. */
  lemma {:induction false} InterpreterOptimizeLevel(cfgs: seq<ConfigPython>, target: string)
    requires InterpreterSettingsOf(cfgs, target).Ok?
    ensures ValidOptimizeLevel(InterpreterSettingsOf(cfgs, target).value.optimizeLevel)
    decreases |cfgs|
  {
    if cfgs != [] {
      var init := cfgs[..|cfgs| - 1];
      assert InterpreterSettingsOf(init, target).Ok?;
      InterpreterOptimizeLevel(init, target);
    }
  }

  /** The body of the `[[embedded_python_config]]` loop for one applying entry, on the running
      values `s`. The checks run in the resolver's order: a bad optimize level, then an
      encoding without a separator, then a static terminfo mode without directories ends the
      loop with its error. Otherwise every setting the entry gives replaces the running one
      (`if let Some(v) = field { running = v }`, which is `field.unwrap_or(running)`). */
  method ApplyInterpreterEntry(s: InterpreterSettings, c: ConfigPython, ghost target: string)
    returns (r: Result<InterpreterSettings, ConfigError>)
    requires Matches(c.buildTarget, target)
    ensures r == ApplyEntry(s, c, target)
  {
    if c.optimizeLevel.Some? && !ValidOptimizeLevel(c.optimizeLevel.value) {
      return Err(InvalidOptimizeLevel(c.optimizeLevel.value));
    }
    var stdioEncodingName := s.stdioEncodingName;
    var stdioEncodingErrors := s.stdioEncodingErrors;
    if c.stdioEncoding.Some? {
      var values := Split(c.stdioEncoding.value, EncodingSeparator);
      if |values| < 2 {
        return Err(InvalidStdioEncoding(c.stdioEncoding.value));
      }
      stdioEncodingName := Some(values[0]);
      stdioEncodingErrors := Some(values[1]);
    }
    var terminfoResolution := s.terminfoResolution;
    if c.terminfoResolution.Some? {
      match c.terminfoResolution.value
      case Dynamic =>
        terminfoResolution := TerminfoResolution.Dynamic;
      case NoResolution =>
        terminfoResolution := TerminfoResolution.NoResolution;
      case Static =>
        if c.terminfoDirs.None? {
          return Err(TerminfoDirsRequired);
        }
        terminfoResolution := TerminfoResolution.Static(c.terminfoDirs.value);
    }
    r := Ok(InterpreterSettings(
      c.dontWriteBytecode.GetOr(s.dontWriteBytecode),
      c.ignoreEnvironment.GetOr(s.ignoreEnvironment),
      c.noSite.GetOr(s.noSite),
      c.noUserSiteDirectory.GetOr(s.noUserSiteDirectory),
      c.optimizeLevel.GetOr(s.optimizeLevel),
      stdioEncodingName, stdioEncodingErrors,
      c.unbufferedStdio.GetOr(s.unbufferedStdio),
      c.filesystemImporter.GetOr(s.filesystemImporter),
      c.sysFrozen.GetOr(s.sysFrozen),
      c.sysMeipass.GetOr(s.sysMeipass),
      c.sysPaths.GetOr(s.sysPaths),
      c.rawAllocator.GetOr(s.rawAllocator),
      terminfoResolution,
      if c.writeModulesDirectoryEnv.Some? then c.writeModulesDirectoryEnv else s.writeModulesDirectoryEnv));
  }

  /** The `[[embedded_python_config]]` loop: running values seeded with the defaults, each
      overwritten by the applying entries that set it; the first bad entry stops the loop. */
  method ResolveInterpreter(cfgs: seq<ConfigPython>, target: string) returns (r: Result<InterpreterSettings, ConfigError>)
    ensures r == InterpreterSettingsOf(cfgs, target)
  {
    var running := InterpreterSettings(
      true, true, true, true, 0, None, None, false, false, false, false, [],
      if target == WindowsMsvcTarget then System else Jemalloc, TerminfoResolution.Dynamic, None);
    assert cfgs[..0] == [];
    for i := 0 to |cfgs|
      invariant InterpreterSettingsOf(cfgs[..i], target) == Ok(running)
    {
      InterpreterSettingsPrefix(cfgs, target, i);
      if Matches(cfgs[i].buildTarget, target) {
        var next := ApplyInterpreterEntry(running, cfgs[i], target);
        if next.Err? {
          InterpreterErrorStays(cfgs, target, i + 1);
          return Err(next.error);
        }
        running := next.value;
      }
    }
    assert cfgs[..|cfgs|] == cfgs;
    r := Ok(running);
  }
}
