/** The resolved, target-specific configuration and the install-location parser. */
module Configuration {
  import opened Results
  import opened Strings
  import Manifest

  /** Where packaged resources end up: inside the binary, or in a directory relative to it. */
  datatype InstallLocation = Embedded | AppRelative(path: string)

  const EmbeddedText := "embedded"
  const AppRelativePrefix := "app-relative:"

  /** The text that denotes a location in a manifest. */
  function InstallLocationText(loc: InstallLocation): string {
    match loc
    case Embedded => EmbeddedText
    case AppRelative(p) => AppRelativePrefix + p
  }

  /** Parses an `install_location` string: "embedded", or "app-relative:" followed by the
      path (possibly empty); anything else is rejected with a message naming the value. */
  function ResolveInstallLocation(value: string): (r: Result<InstallLocation, string>)
    ensures r.Ok? <==> value == EmbeddedText || StartsWith(value, AppRelativePrefix)
    ensures r.Ok? ==> InstallLocationText(r.value) == value
    ensures r.Err? ==> r.error == "invalid install_location: " + value
  {
    if value == EmbeddedText then Ok(Embedded)
    else if StartsWith(value, AppRelativePrefix) then
      Ok(AppRelative(value[|AppRelativePrefix|..]))
    else Err("invalid install_location: " + value)
  }

  /** Every location's text parses back to that location; in particular "embedded" gives
      Embedded and "app-relative:" + p gives AppRelative(p) for every p, empty included. */
  lemma ResolveInstallLocationText(loc: InstallLocation)
    ensures ResolveInstallLocation(InstallLocationText(loc)) == Ok(loc)
  {
    if loc.AppRelative? {
      var text := AppRelativePrefix + loc.path;
      assert text[..|AppRelativePrefix|] == AppRelativePrefix;
      assert text[|AppRelativePrefix|..] == loc.path;
      assert text != EmbeddedText by { assert text[0] != EmbeddedText[0]; }
    }
  }

  /** Why resolution failed: one constructor per failure the resolver reports. The one that
      carries the install-location parser's message keeps it verbatim. */
  datatype ConfigError =
    | MissingApplicationName
    | NoDistributionSections
    | NoMatchingDistribution(target: string)
    | InvalidOptimizeLevel(level: int)
    | InvalidStdioEncoding(encoding: string)
    | TerminfoDirsRequired
    | InvalidInstallLocation(message: string)
    | MissingStdlibExtensionsPolicy
    | MissingStdlibRule

  datatype BuildConfig = BuildConfig(applicationName: string, buildPath: string)

  datatype PythonDistribution =
    | Local(localPath: string, sha256: string)
    | Url(url: string, sha256: string)

  /** A packaging rule after resolution: the target is gone and the install location parsed. */
  datatype PythonPackaging =
    | SetupPyInstall(path: string, extraEnv: map<string, string>, extraGlobalArguments: seq<string>,
                     optimizeLevel: int, includeSource: bool, installLocation: InstallLocation)
    | StdlibExtensionsPolicy(policy: string)
    | StdlibExtensionsExplicitIncludes(includes: seq<string>)
    | StdlibExtensionsExplicitExcludes(excludes: seq<string>)
    | StdlibExtensionVariant(extension: string, variant: string)
    | Stdlib(optimizeLevel: int, excludeTestModules: bool, includeSource: bool,
             includeResources: bool, installLocation: InstallLocation)
    | Virtualenv(path: string, optimizeLevel: int, excludes: seq<string>, includeSource: bool,
                 installLocation: InstallLocation)
    | PackageRoot(path: string, packages: seq<string>, optimizeLevel: int, excludes: seq<string>,
                  includeSource: bool, installLocation: InstallLocation)
    | PipInstallSimple(package: string, optimizeLevel: int, excludes: seq<string>, includeSource: bool,
                       installLocation: InstallLocation, extraArgs: Option<seq<string>>)
    | PipRequirementsFile(requirementsPath: string, optimizeLevel: int, includeSource: bool,
                          installLocation: InstallLocation)
    | FilterInclude(files: seq<string>, globFiles: seq<string>)
    | WriteLicenseFiles(path: string)
  {
    /** The manifest `type` this rule was declared with. */
    function Tag(): string {
      match this
      case SetupPyInstall(_, _, _, _, _, _) => "setup-py-install"
      case StdlibExtensionsPolicy(_) => "stdlib-extensions-policy"
      case StdlibExtensionsExplicitIncludes(_) => "stdlib-extensions-explicit-includes"
      case StdlibExtensionsExplicitExcludes(_) => "stdlib-extensions-explicit-excludes"
      case StdlibExtensionVariant(_, _) => "stdlib-extension-variant"
      case Stdlib(_, _, _, _, _) => "stdlib"
      case Virtualenv(_, _, _, _, _) => "virtualenv"
      case PackageRoot(_, _, _, _, _, _) => "package-root"
      case PipInstallSimple(_, _, _, _, _, _) => "pip-install-simple"
      case PipRequirementsFile(_, _, _, _) => "pip-requirements-file"
      case FilterInclude(_, _) => "filter-include"
      case WriteLicenseFiles(_) => "write-license-files"
    }

    /** The kinds of rule that carry a parsed install location. */
    predicate HasInstallLocation() {
      SetupPyInstall? || Stdlib? || Virtualenv? || PackageRoot? || PipInstallSimple? || PipRequirementsFile?
    }
  }

  /** What the embedded interpreter runs at start-up. */
  datatype RunMode = Noop | Repl | Module(moduleName: string) | Eval(code: string)

  /** A distribution rule after resolution. */
  datatype Distribution =
    | Tarball(pathPrefix: Option<string>)
    | WixInstaller(msiUpgradeCodeX86: Option<string>, msiUpgradeCodeAmd64: Option<string>,
                   bundleUpgradeCode: Option<string>)

  /** How the terminfo database is found at run time. */
  datatype TerminfoResolution = Dynamic | NoResolution | Static(dirs: string)

  /** The resolved configuration for one target. */
  datatype Config = Config(
    configPath: string,
    buildConfig: BuildConfig,
    dontWriteBytecode: bool,
    ignoreEnvironment: bool,
    noSite: bool,
    noUserSiteDirectory: bool,
    optimizeLevel: int,
    pythonDistribution: PythonDistribution,
    stdioEncodingName: Option<string>,
    stdioEncodingErrors: Option<string>,
    unbufferedStdio: bool,
    pythonPackaging: seq<PythonPackaging>,
    run: RunMode,
    filesystemImporter: bool,
    sysFrozen: bool,
    sysMeipass: bool,
    sysPaths: seq<string>,
    rawAllocator: Manifest.RawAllocator,
    terminfoResolution: TerminfoResolution,
    writeModulesDirectoryEnv: Option<string>,
    distributions: seq<Distribution>)
}
