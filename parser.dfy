/** `parse_config` on an already deserialised manifest: the resolution steps run in the
    resolver's order, each one able to end resolution with its error. */
module ConfigParser {
  import opened Results
  import opened Manifest
  import opened Configuration
  import opened Resolver
  import opened Rules

  /** The resolved configuration for `target`, or the first error met: application name,
      Python distribution, interpreter entries, install locations, then the
      `stdlib-extensions-policy` rule and last the `stdlib` rule. `origin` is the manifest's
      directory, already canonicalised. */
  function Resolve(parsed: ParsedConfig, configPath: string, origin: string, target: string): Result<Config, ConfigError> {
    var build :- BuildSettings(parsed.builds, origin, target);
    var distribution :- SelectPythonDistribution(parsed.pythonDistributions, target);
    var s :- InterpreterSettingsOf(parsed.pythonConfigs, target);
    var packaging :- ConvertRules(parsed.packagingRules, target);
    if !DeclaresExtensionsPolicy(parsed.packagingRules, target) then Err(MissingStdlibExtensionsPolicy)
    else if !DeclaresStdlib(parsed.packagingRules, target) then Err(MissingStdlibRule)
    else
      Ok(Config(
        configPath, build,
        s.dontWriteBytecode, s.ignoreEnvironment, s.noSite, s.noUserSiteDirectory, s.optimizeLevel,
        distribution,
        s.stdioEncodingName, s.stdioEncodingErrors, s.unbufferedStdio,
        packaging,
        RunFor(parsed.pythonRun, target),
        s.filesystemImporter || |s.sysPaths| > 0,
        s.sysFrozen, s.sysMeipass, s.sysPaths, s.rawAllocator, s.terminfoResolution,
        s.writeModulesDirectoryEnv,
        DistributionsFor(parsed.distributions, target)))
  }

  /** The resolver itself: the `[[build]]`, `[[embedded_python_config]]`, `[[packaging_rule]]`
      and `[[embedded_python_run]]` passes with their running values. */
  method ParseConfig(parsed: ParsedConfig, configPath: string, origin: string, target: string)
    returns (r: Result<Config, ConfigError>)
    ensures r == Resolve(parsed, configPath, origin, target)
  {
    var build := ResolveBuild(parsed.builds, origin, target);
    if build.Err? {
      return Err(build.error);
    }
    if |parsed.pythonDistributions| == 0 {
      return Err(NoDistributionSections);
    }
    var distribution := SelectPythonDistribution(parsed.pythonDistributions, target);
    if distribution.Err? {
      return Err(distribution.error);
    }
    var interpreter := ResolveInterpreter(parsed.pythonConfigs, target);
    if interpreter.Err? {
      return Err(interpreter.error);
    }
    var s := interpreter.value;
    var packaging, haveStdlibExtensionsPolicy, haveStdlib := CollectPackaging(parsed.packagingRules, target);
    if packaging.Err? {
      return Err(packaging.error);
    }
    if !haveStdlibExtensionsPolicy {
      return Err(MissingStdlibExtensionsPolicy);
    }
    if !haveStdlib {
      return Err(MissingStdlibRule);
    }
    var run := ResolveRun(parsed.pythonRun, target);
    var filesystemImporter := s.filesystemImporter || |s.sysPaths| > 0;
    var distributions := DistributionsFor(parsed.distributions, target);
    r := Ok(Config(
      configPath, build.value,
      s.dontWriteBytecode, s.ignoreEnvironment, s.noSite, s.noUserSiteDirectory, s.optimizeLevel,
      distribution.value,
      s.stdioEncodingName, s.stdioEncodingErrors, s.unbufferedStdio,
      packaging.value, run, filesystemImporter,
      s.sysFrozen, s.sysMeipass, s.sysPaths, s.rawAllocator, s.terminfoResolution,
      s.writeModulesDirectoryEnv, distributions));
  }
}
