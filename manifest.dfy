/** The manifest as deserialised: one record per declared entry, each tagged with the build
    target it applies to. Every serde default is already applied (`build_target` is "all",
    flags are true, optimize levels are 0 and install locations are "embedded" unless the
    manifest says otherwise), so nothing here is optional that is not optional in the
    deserialised records. */
module Manifest {
  import opened Results

  /** The memory allocator the embedded interpreter uses (also part of the resolved
      configuration). */
  datatype RawAllocator = Jemalloc | Rust | System

  /** A `[[build]]` entry. */
  datatype ConfigBuild = ConfigBuild(
    buildTarget: string,
    applicationName: Option<string>,
    buildPath: Option<string>)

  /** A `[[python_distribution]]` entry: a local archive or one fetched from a URL. Its
      `build_target` has no "all" default. */
  datatype ConfigPythonDistribution =
    | Local(buildTarget: string, localPath: string, sha256: string)
    | Url(buildTarget: string, url: string, sha256: string)

  /** The `terminfo_resolution` values of an `[[embedded_python_config]]` entry ("dynamic",
      "none", "static"). */
  datatype ConfigTerminfoResolution = Dynamic | NoResolution | Static

  /** An `[[embedded_python_config]]` entry: every interpreter setting is optional. */
  datatype ConfigPython = ConfigPython(
    buildTarget: string,
    dontWriteBytecode: Option<bool>,
    ignoreEnvironment: Option<bool>,
    noSite: Option<bool>,
    noUserSiteDirectory: Option<bool>,
    optimizeLevel: Option<int>,
    stdioEncoding: Option<string>,
    unbufferedStdio: Option<bool>,
    filesystemImporter: Option<bool>,
    sysFrozen: Option<bool>,
    sysMeipass: Option<bool>,
    sysPaths: Option<seq<string>>,
    rawAllocator: Option<RawAllocator>,
    terminfoResolution: Option<ConfigTerminfoResolution>,
    terminfoDirs: Option<string>,
    writeModulesDirectoryEnv: Option<string>)

  /** A `[[packaging_rule]]` entry, one constructor per `type = "..."` value. */
  datatype ConfigPythonPackaging =
    | SetupPyInstall(buildTarget: string, packagePath: string, extraEnv: map<string, string>,
                     extraGlobalArguments: seq<string>, optimizeLevel: int, includeSource: bool,
                     installLocation: string)
    | StdlibExtensionsPolicy(buildTarget: string, policy: string)
    | StdlibExtensionsExplicitIncludes(buildTarget: string, includes: seq<string>)
    | StdlibExtensionsExplicitExcludes(buildTarget: string, excludes: seq<string>)
    | StdlibExtensionVariant(buildTarget: string, extension: string, variant: string)
    | Stdlib(buildTarget: string, optimizeLevel: int, excludeTestModules: bool, includeSource: bool,
             includeResources: bool, installLocation: string)
    | Virtualenv(buildTarget: string, path: string, optimizeLevel: int, excludes: seq<string>,
                 includeSource: bool, installLocation: string)
    | PackageRoot(buildTarget: string, path: string, packages: seq<string>, optimizeLevel: int,
                  excludes: seq<string>, includeSource: bool, installLocation: string)
    | PipInstallSimple(buildTarget: string, package: string, optimizeLevel: int, excludes: seq<string>,
                       includeSource: bool, installLocation: string, extraArgs: Option<seq<string>>)
    | PipRequirementsFile(buildTarget: string, requirementsPath: string, optimizeLevel: int,
                          includeSource: bool, installLocation: string)
    | FilterInclude(buildTarget: string, files: seq<string>, globFiles: seq<string>)
    | WriteLicenseFiles(buildTarget: string, path: string)
  {
    /** The `type` discriminator the manifest uses for this kind of rule. */
    function Tag(): string {
      match this
      case SetupPyInstall(_, _, _, _, _, _, _) => "setup-py-install"
      case StdlibExtensionsPolicy(_, _) => "stdlib-extensions-policy"
      case StdlibExtensionsExplicitIncludes(_, _) => "stdlib-extensions-explicit-includes"
      case StdlibExtensionsExplicitExcludes(_, _) => "stdlib-extensions-explicit-excludes"
      case StdlibExtensionVariant(_, _, _) => "stdlib-extension-variant"
      case Stdlib(_, _, _, _, _, _) => "stdlib"
      case Virtualenv(_, _, _, _, _, _) => "virtualenv"
      case PackageRoot(_, _, _, _, _, _, _) => "package-root"
      case PipInstallSimple(_, _, _, _, _, _, _) => "pip-install-simple"
      case PipRequirementsFile(_, _, _, _, _) => "pip-requirements-file"
      case FilterInclude(_, _, _) => "filter-include"
      case WriteLicenseFiles(_, _) => "write-license-files"
    }

    /** The kinds of rule that carry an `install_location` string. */
    predicate HasInstallLocation() {
      SetupPyInstall? || Stdlib? || Virtualenv? || PackageRoot? || PipInstallSimple? || PipRequirementsFile?
    }
  }

  /** An `[[embedded_python_run]]` entry, one constructor per `mode = "..."` value. */
  datatype ConfigRunMode =
    | Noop(buildTarget: string)
    | Repl(buildTarget: string)
    | Module(buildTarget: string, moduleName: string)
    | Eval(buildTarget: string, code: string)

  /** A `[[distribution]]` entry: a tarball or a WiX installer. */
  datatype ConfigDistribution =
    | Tarball(buildTarget: string, pathPrefix: Option<string>)
    | WixInstaller(buildTarget: string, msiUpgradeCodeX86: Option<string>,
                   msiUpgradeCodeAmd64: Option<string>, bundleUpgradeCode: Option<string>)

  /** The whole deserialised manifest, each list in declaration order. */
  datatype ParsedConfig = ParsedConfig(
    builds: seq<ConfigBuild>,
    pythonDistributions: seq<ConfigPythonDistribution>,
    pythonConfigs: seq<ConfigPython>,
    packagingRules: seq<ConfigPythonPackaging>,
    pythonRun: seq<ConfigRunMode>,
    distributions: seq<ConfigDistribution>)

  // The declared target of each kind of entry, as a function value for the target filter.

  function BuildTargetOf(b: ConfigBuild): string { b.buildTarget }
  function PythonTargetOf(c: ConfigPython): string { c.buildTarget }
  function RuleTargetOf(r: ConfigPythonPackaging): string { r.buildTarget }
  function RunTargetOf(r: ConfigRunMode): string { r.buildTarget }
  function DistributionTargetOf(d: ConfigDistribution): string { d.buildTarget }
}
