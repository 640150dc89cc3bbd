/**
  What presets inherit (cmCMakePresetsGraph): the fields of every kind of preset
  that can have parents, how each is filled in from one parent, and the laws of
  that merge.  Values that are only copied are numbers or kept whole.
 */
module PresetFields {
  import opened Options

  type FileId = nat

  datatype CacheVariable = CacheVariable(kind: string, value: string)

  datatype Configure = Configure(
    generator: string, architecture: string, architectureStrategy: Option<nat>, toolset: string,
    toolsetStrategy: Option<nat>, toolchainFile: string, graphVizFile: string, binaryDir: string,
    installDir: string, cacheVariables: map<string, Option<CacheVariable>>, warnDev: Option<bool>,
    errorDev: Option<bool>, warnDeprecated: Option<bool>, errorDeprecated: Option<bool>,
    warnUninitialized: Option<bool>, warnUnusedCli: Option<bool>, warnSystemVars: Option<bool>,
    debugOutput: Option<bool>, debugTryCompile: Option<bool>, debugFind: Option<bool>,
    traceMode: Option<nat>, traceFormat: Option<nat>, traceSource: seq<string>, traceRedirect: string)

  datatype Build = Build(
    configurePreset: string, inheritConfigureEnvironment: Option<bool>, jobs: Option<nat>,
    targets: seq<string>, configuration: string, cleanFirst: Option<bool>, verbose: Option<bool>,
    nativeToolOptions: seq<string>, resolvePackageReferences: Option<nat>)

  datatype Package = Package(
    configurePreset: string, inheritConfigureEnvironment: Option<bool>, generators: seq<string>,
    configurations: seq<string>, variables: map<string, string>, configFile: string, debugOutput: Option<bool>,
    verboseOutput: Option<bool>, packageName: string, packageVersion: string, packageDirectory: string,
    vendorName: string)

  // The options of test presets come in groups, each of which may be missing.

  datatype Output = Output(
    shortProgress: Option<bool>, verbosity: Option<nat>, debug: Option<bool>, outputOnFailure: Option<bool>,
    quiet: Option<bool>, outputLogFile: string, outputJUnitFile: string, labelSummary: Option<bool>,
    subprojectSummary: Option<bool>, maxPassedTestOutputSize: Option<int>, maxFailedTestOutputSize: Option<int>,
    testOutputTruncation: Option<nat>, maxTestNameWidth: Option<int>)

  datatype Index = Index(
    start: Option<int>, end: Option<int>, stride: Option<int>, specificTests: seq<int>, indexFile: string)

  datatype Include = Include(name: string, label_: string, index: Option<Index>, useUnion: Option<bool>)

  datatype Fixtures = Fixtures(any: string, setup: string, cleanup: string)

  datatype Exclude = Exclude(name: string, label_: string, fixtures: Option<Fixtures>)

  datatype Filter = Filter(include_: Option<Include>, exclude: Option<Exclude>)

  datatype Repeat = Repeat(mode: nat, count: int)

  datatype Execution = Execution(
    stopOnFailure: Option<bool>, enableFailover: Option<bool>, jobs: Option<Option<nat>>, resourceSpecFile: string,
    testLoad: Option<int>, showOnly: Option<nat>, repeat: Option<Repeat>, interactiveDebugging: Option<bool>,
    scheduleRandom: Option<bool>, timeout: Option<int>, noTestsAction: Option<nat>)

  datatype Test = Test(
    configurePreset: string, inheritConfigureEnvironment: Option<bool>, configuration: string,
    overwriteConfigurationFile: seq<string>, output: Option<Output>, filter: Option<Filter>,
    execution: Option<Execution>)

  datatype Fields =
    | ForConfigure(configure: Configure) | ForBuild(build: Build) | ForTest(test: Test) | ForPackage(package: Package)

  /** A preset's condition: null, which enables the preset, or something to be evaluated. */
  datatype Condition = Null | Given(expression: nat)

  /** The conditions of the presets that have one; apart from the fields, because a visit removes the null marker. */
  type Conditions = map<string, Condition>

  datatype Preset = Preset(
    name: string, inherits: seq<string>, hidden: bool, originFile: FileId,
    environment: map<string, Option<string>>, fields: Fields)

  // ------------------------------------------------------ inheriting a field

  function InheritString(child: string, parent: string): string {
    if child == "" then parent else child
  }

  function InheritOptionalValue<T>(child: Option<T>, parent: Option<T>): Option<T> {
    if child.None? then parent else child
  }

  function InheritVector<T>(child: seq<T>, parent: seq<T>): seq<T> {
    if |child| == 0 then parent else child
  }

  /** std::map::insert for every entry of the parent: present keys win. */
  function InheritEntries<V>(child: map<string, V>, parent: map<string, V>): map<string, V> {
    parent + child
  }

  function InheritConfigure(preset: Configure, parent: Configure): Configure {
    preset.(
      generator := InheritString(preset.generator, parent.generator),
      architecture := InheritString(preset.architecture, parent.architecture),
      architectureStrategy := InheritOptionalValue(preset.architectureStrategy, parent.architectureStrategy),
      toolset := InheritString(preset.toolset, parent.toolset),
      toolsetStrategy := InheritOptionalValue(preset.toolsetStrategy, parent.toolsetStrategy),
      toolchainFile := InheritString(preset.toolchainFile, parent.toolchainFile),
      graphVizFile := InheritString(preset.graphVizFile, parent.graphVizFile),
      binaryDir := InheritString(preset.binaryDir, parent.binaryDir),
      installDir := InheritString(preset.installDir, parent.installDir),
      cacheVariables := InheritEntries(preset.cacheVariables, parent.cacheVariables),
      warnDev := InheritOptionalValue(preset.warnDev, parent.warnDev),
      errorDev := InheritOptionalValue(preset.errorDev, parent.errorDev),
      warnDeprecated := InheritOptionalValue(preset.warnDeprecated, parent.warnDeprecated),
      errorDeprecated := InheritOptionalValue(preset.errorDeprecated, parent.errorDeprecated),
      warnUninitialized := InheritOptionalValue(preset.warnUninitialized, parent.warnUninitialized),
      warnUnusedCli := InheritOptionalValue(preset.warnUnusedCli, parent.warnUnusedCli),
      warnSystemVars := InheritOptionalValue(preset.warnSystemVars, parent.warnSystemVars))
  }

  function InheritBuild(preset: Build, parent: Build): Build {
    preset.(
      configurePreset := InheritString(preset.configurePreset, parent.configurePreset),
      inheritConfigureEnvironment :=
        InheritOptionalValue(preset.inheritConfigureEnvironment, parent.inheritConfigureEnvironment),
      jobs := InheritOptionalValue(preset.jobs, parent.jobs),
      targets := InheritVector(preset.targets, parent.targets),
      configuration := InheritString(preset.configuration, parent.configuration),
      cleanFirst := InheritOptionalValue(preset.cleanFirst, parent.cleanFirst),
      verbose := InheritOptionalValue(preset.verbose, parent.verbose),
      nativeToolOptions := InheritVector(preset.nativeToolOptions, parent.nativeToolOptions),
      resolvePackageReferences :=
        InheritOptionalValue(preset.resolvePackageReferences, parent.resolvePackageReferences))
  }

  /** A group that both have is inherited field by field, one that the child lacks as a whole. */
  function InheritGroup<T>(child: Option<T>, parent: Option<T>, inherit: (T, T) -> T): Option<T> {
    if child.Some? && parent.Some? then Some(inherit(child.value, parent.value)) else OrElse(child, parent)
  }

  function InheritOutput(output: Output, parent: Output): Output {
    output.(
      shortProgress := InheritOptionalValue(output.shortProgress, parent.shortProgress),
      verbosity := InheritOptionalValue(output.verbosity, parent.verbosity),
      debug := InheritOptionalValue(output.debug, parent.debug),
      outputOnFailure := InheritOptionalValue(output.outputOnFailure, parent.outputOnFailure),
      quiet := InheritOptionalValue(output.quiet, parent.quiet),
      outputLogFile := InheritString(output.outputLogFile, parent.outputLogFile),
      outputJUnitFile := InheritString(output.outputJUnitFile, parent.outputJUnitFile),
      labelSummary := InheritOptionalValue(output.labelSummary, parent.labelSummary),
      subprojectSummary := InheritOptionalValue(output.subprojectSummary, parent.subprojectSummary),
      maxPassedTestOutputSize := InheritOptionalValue(output.maxPassedTestOutputSize, parent.maxPassedTestOutputSize),
      maxFailedTestOutputSize := InheritOptionalValue(output.maxFailedTestOutputSize, parent.maxFailedTestOutputSize),
      testOutputTruncation := InheritOptionalValue(output.testOutputTruncation, parent.testOutputTruncation),
      maxTestNameWidth := InheritOptionalValue(output.maxTestNameWidth, parent.maxTestNameWidth))
  }

  /** useUnion is not mentioned: it stays with the child's group. */
  function InheritInclude(include_: Include, parent: Include): Include {
    include_.(
      name := InheritString(include_.name, parent.name),
      label_ := InheritString(include_.label_, parent.label_),
      index := InheritOptionalValue(include_.index, parent.index))
  }

  function InheritExclude(exclude: Exclude, parent: Exclude): Exclude {
    exclude.(
      name := InheritString(exclude.name, parent.name),
      label_ := InheritString(exclude.label_, parent.label_),
      fixtures := InheritOptionalValue(exclude.fixtures, parent.fixtures))
  }

  function IncludeOf(filter: Option<Filter>): Option<Include> {
    if filter.Some? then filter.value.include_ else None
  }

  function ExcludeOf(filter: Option<Filter>): Option<Exclude> {
    if filter.Some? then filter.value.exclude else None
  }

  /** A filter is made where there was none only to hold what the parent's filter has. */
  function InheritFilter(filter: Option<Filter>, parent: Option<Filter>): Option<Filter> {
    if IncludeOf(parent).None? && ExcludeOf(parent).None? then filter
    else Some(Filter(InheritGroup(IncludeOf(filter), IncludeOf(parent), InheritInclude),
                     InheritGroup(ExcludeOf(filter), ExcludeOf(parent), InheritExclude)))
  }

  function InheritExecution(execution: Execution, parent: Execution): Execution {
    execution.(
      stopOnFailure := InheritOptionalValue(execution.stopOnFailure, parent.stopOnFailure),
      enableFailover := InheritOptionalValue(execution.enableFailover, parent.enableFailover),
      jobs := InheritOptionalValue(execution.jobs, parent.jobs),
      resourceSpecFile := InheritString(execution.resourceSpecFile, parent.resourceSpecFile),
      testLoad := InheritOptionalValue(execution.testLoad, parent.testLoad),
      showOnly := InheritOptionalValue(execution.showOnly, parent.showOnly),
      repeat := InheritOptionalValue(execution.repeat, parent.repeat),
      interactiveDebugging := InheritOptionalValue(execution.interactiveDebugging, parent.interactiveDebugging),
      scheduleRandom := InheritOptionalValue(execution.scheduleRandom, parent.scheduleRandom),
      timeout := InheritOptionalValue(execution.timeout, parent.timeout),
      noTestsAction := InheritOptionalValue(execution.noTestsAction, parent.noTestsAction))
  }

  function InheritTest(preset: Test, parent: Test): Test {
    preset.(
      configurePreset := InheritString(preset.configurePreset, parent.configurePreset),
      inheritConfigureEnvironment :=
        InheritOptionalValue(preset.inheritConfigureEnvironment, parent.inheritConfigureEnvironment),
      configuration := InheritString(preset.configuration, parent.configuration),
      overwriteConfigurationFile := InheritVector(preset.overwriteConfigurationFile, parent.overwriteConfigurationFile),
      output := InheritGroup(preset.output, parent.output, InheritOutput),
      filter := InheritFilter(preset.filter, parent.filter),
      execution := InheritGroup(preset.execution, parent.execution, InheritExecution))
  }

  function InheritPackage(preset: Package, parent: Package): Package {
    preset.(
      configurePreset := InheritString(preset.configurePreset, parent.configurePreset),
      inheritConfigureEnvironment :=
        InheritOptionalValue(preset.inheritConfigureEnvironment, parent.inheritConfigureEnvironment),
      generators := InheritVector(preset.generators, parent.generators),
      configurations := InheritVector(preset.configurations, parent.configurations),
      variables := InheritEntries(preset.variables, parent.variables),
      debugOutput := InheritOptionalValue(preset.debugOutput, parent.debugOutput),
      verboseOutput := InheritOptionalValue(preset.verboseOutput, parent.verboseOutput),
      packageName := InheritString(preset.packageName, parent.packageName),
      packageVersion := InheritString(preset.packageVersion, parent.packageVersion),
      packageDirectory := InheritString(preset.packageDirectory, parent.packageDirectory),
      vendorName := InheritString(preset.vendorName, parent.vendorName))
  }

  /** VisitPresetInherit of the preset kind; a map holds presets of one kind only. */
  function VisitPresetInherit(preset: Fields, parent: Fields): Fields {
    match (preset, parent)
    case (ForConfigure(c), ForConfigure(p)) => ForConfigure(InheritConfigure(c, p))
    case (ForBuild(c), ForBuild(p)) => ForBuild(InheritBuild(c, p))
    case (ForTest(c), ForTest(p)) => ForTest(InheritTest(c, p))
    case (ForPackage(c), ForPackage(p)) => ForPackage(InheritPackage(c, p))
    case (_, _) => preset
  }

  /** One turn of the loop over the parents: the fields, then the environment. */
  function Merge(preset: Preset, parent: Preset): Preset {
    preset.(fields := VisitPresetInherit(preset.fields, parent.fields),
            environment := InheritEntries(preset.environment, parent.environment))
  }

  /** VisitPresetBeforeInherit and the same check just before it. */
  predicate BeforeInheritOk(preset: Preset) {
    "" !in preset.environment
  }

  /** VisitPresetAfterInherit of the preset kind. */
  predicate AfterInheritOk(preset: Preset, version: int) {
    preset.hidden ||
    match preset.fields
    case ForConfigure(c) =>
      && (version < 3 ==> c.generator != "" && c.binaryDir != "")
      && !(c.warnDev == Some(false) && c.errorDev == Some(true))
      && !(c.warnDeprecated == Some(false) && c.errorDeprecated == Some(true))
      && "" !in c.cacheVariables
    case ForBuild(b) => b.configurePreset != ""
    case ForTest(t) => t.configurePreset != ""
    case ForPackage(p) => p.configurePreset != ""
  }

  // --------------------------------------------------------- slots of a preset

  /** The names of everything a preset can inherit. */
  datatype Slot =
    | Generator | Architecture | ArchitectureStrategy | Toolset | ToolsetStrategy | ToolchainFile
    | GraphVizFile | BinaryDir | InstallDir | WarnDev | ErrorDev | WarnDeprecated | ErrorDeprecated
    | WarnUninitialized | WarnUnusedCli | WarnSystemVars | ConfigurePresetName
    | InheritConfigureEnvironment | Jobs | Targets | Configuration | CleanFirst | Verbose
    | NativeToolOptions | ResolvePackageReferences | Generators | Configurations | DebugOutput
    | VerboseOutput | PackageName | PackageVersion | PackageDirectory | VendorName
    | OverwriteConfigurationFile | ShortProgress | Verbosity | DebugTests | OutputOnFailure | Quiet | OutputLogFile
    | OutputJUnitFile | LabelSummary | SubprojectSummary | MaxPassedTestOutputSize | MaxFailedTestOutputSize
    | TestOutputTruncation | MaxTestNameWidth | IncludeName | IncludeLabel | IncludeIndex | IncludeUnion
    | ExcludeName | ExcludeLabel | ExcludeFixtures | StopOnFailure | EnableFailover | TestJobs | ResourceSpecFile
    | TestLoad | ShowOnly | RepeatTests | InteractiveDebugging | ScheduleRandom | Timeout | NoTestsAction
    | Environment(key: string) | Variable(key: string)

  datatype Value =
    | Text(text: string) | Flag(flag: bool) | Number(number: nat) | List(list: seq<string>)
    | Setting(setting: Option<string>) | Cache(cache: Option<CacheVariable>) | Integer(integer: int)
    | Indices(index: Index) | FixtureNames(fixtures: Fixtures)
    | Repetition(repeat: Repeat) | JobCount(jobs: Option<nat>)
    | Union(useUnion: Option<bool>)

  function TextOf(s: string): Option<Value> {
    if s == "" then None else Some(Text(s))
  }

  function FlagOf(o: Option<bool>): Option<Value> {
    if o.None? then None else Some(Flag(o.value))
  }

  function NumberOf(o: Option<nat>): Option<Value> {
    if o.None? then None else Some(Number(o.value))
  }

  function IntegerOf(o: Option<int>): Option<Value> {
    if o.None? then None else Some(Integer(o.value))
  }

  function ListOf(s: seq<string>): Option<Value> {
    if s == [] then None else Some(List(s))
  }

  function GetConfigure(p: Configure, s: Slot): Option<Value> {
    match s
    case Generator => TextOf(p.generator)
    case Architecture => TextOf(p.architecture)
    case ArchitectureStrategy => NumberOf(p.architectureStrategy)
    case Toolset => TextOf(p.toolset)
    case ToolsetStrategy => NumberOf(p.toolsetStrategy)
    case ToolchainFile => TextOf(p.toolchainFile)
    case GraphVizFile => TextOf(p.graphVizFile)
    case BinaryDir => TextOf(p.binaryDir)
    case InstallDir => TextOf(p.installDir)
    case Variable(k) => if k in p.cacheVariables then Some(Cache(p.cacheVariables[k])) else None
    case WarnDev => FlagOf(p.warnDev)
    case ErrorDev => FlagOf(p.errorDev)
    case WarnDeprecated => FlagOf(p.warnDeprecated)
    case ErrorDeprecated => FlagOf(p.errorDeprecated)
    case WarnUninitialized => FlagOf(p.warnUninitialized)
    case WarnUnusedCli => FlagOf(p.warnUnusedCli)
    case WarnSystemVars => FlagOf(p.warnSystemVars)
    case _ => None
  }

  function GetBuild(p: Build, s: Slot): Option<Value> {
    match s
    case ConfigurePresetName => TextOf(p.configurePreset)
    case InheritConfigureEnvironment => FlagOf(p.inheritConfigureEnvironment)
    case Jobs => NumberOf(p.jobs)
    case Targets => ListOf(p.targets)
    case Configuration => TextOf(p.configuration)
    case CleanFirst => FlagOf(p.cleanFirst)
    case Verbose => FlagOf(p.verbose)
    case NativeToolOptions => ListOf(p.nativeToolOptions)
    case ResolvePackageReferences => NumberOf(p.resolvePackageReferences)
    case _ => None
  }

  function GetOutput(p: Output, s: Slot): Option<Value> {
    match s
    case ShortProgress => FlagOf(p.shortProgress)
    case Verbosity => NumberOf(p.verbosity)
    case DebugTests => FlagOf(p.debug)
    case OutputOnFailure => FlagOf(p.outputOnFailure)
    case Quiet => FlagOf(p.quiet)
    case OutputLogFile => TextOf(p.outputLogFile)
    case OutputJUnitFile => TextOf(p.outputJUnitFile)
    case LabelSummary => FlagOf(p.labelSummary)
    case SubprojectSummary => FlagOf(p.subprojectSummary)
    case MaxPassedTestOutputSize => IntegerOf(p.maxPassedTestOutputSize)
    case MaxFailedTestOutputSize => IntegerOf(p.maxFailedTestOutputSize)
    case TestOutputTruncation => NumberOf(p.testOutputTruncation)
    case MaxTestNameWidth => IntegerOf(p.maxTestNameWidth)
    case _ => None
  }

  /** A group that is there says what its useUnion is, even if it is not set: no parent's is looked at. */
  function GetInclude(p: Include, s: Slot): Option<Value> {
    match s
    case IncludeName => TextOf(p.name)
    case IncludeLabel => TextOf(p.label_)
    case IncludeIndex => if p.index.None? then None else Some(Indices(p.index.value))
    case IncludeUnion => Some(Union(p.useUnion))
    case _ => None
  }

  function GetExclude(p: Exclude, s: Slot): Option<Value> {
    match s
    case ExcludeName => TextOf(p.name)
    case ExcludeLabel => TextOf(p.label_)
    case ExcludeFixtures => if p.fixtures.None? then None else Some(FixtureNames(p.fixtures.value))
    case _ => None
  }

  function GetExecution(p: Execution, s: Slot): Option<Value> {
    match s
    case StopOnFailure => FlagOf(p.stopOnFailure)
    case EnableFailover => FlagOf(p.enableFailover)
    case TestJobs => if p.jobs.None? then None else Some(JobCount(p.jobs.value))
    case ResourceSpecFile => TextOf(p.resourceSpecFile)
    case TestLoad => IntegerOf(p.testLoad)
    case ShowOnly => NumberOf(p.showOnly)
    case RepeatTests => if p.repeat.None? then None else Some(Repetition(p.repeat.value))
    case InteractiveDebugging => FlagOf(p.interactiveDebugging)
    case ScheduleRandom => FlagOf(p.scheduleRandom)
    case Timeout => IntegerOf(p.timeout)
    case NoTestsAction => NumberOf(p.noTestsAction)
    case _ => None
  }

  function GetGroup<T>(group: Option<T>, get: (T, Slot) -> Option<Value>, s: Slot): Option<Value> {
    if group.None? then None else get(group.value, s)
  }

  function GetTest(p: Test, s: Slot): Option<Value> {
    match s
    case ConfigurePresetName => TextOf(p.configurePreset)
    case InheritConfigureEnvironment => FlagOf(p.inheritConfigureEnvironment)
    case Configuration => TextOf(p.configuration)
    case OverwriteConfigurationFile => ListOf(p.overwriteConfigurationFile)
    case _ =>
      OrElse(OrElse(GetGroup(p.output, GetOutput, s), GetGroup(p.execution, GetExecution, s)),
             OrElse(GetGroup(IncludeOf(p.filter), GetInclude, s), GetGroup(ExcludeOf(p.filter), GetExclude, s)))
  }

  function GetPackage(p: Package, s: Slot): Option<Value> {
    match s
    case ConfigurePresetName => TextOf(p.configurePreset)
    case InheritConfigureEnvironment => FlagOf(p.inheritConfigureEnvironment)
    case Generators => ListOf(p.generators)
    case Configurations => ListOf(p.configurations)
    case Variable(k) => if k in p.variables then Some(Text(p.variables[k])) else None
    case DebugOutput => FlagOf(p.debugOutput)
    case VerboseOutput => FlagOf(p.verboseOutput)
    case PackageName => TextOf(p.packageName)
    case PackageVersion => TextOf(p.packageVersion)
    case PackageDirectory => TextOf(p.packageDirectory)
    case VendorName => TextOf(p.vendorName)
    case _ => None
  }

  function GetField(fields: Fields, s: Slot): Option<Value> {
    match fields
    case ForConfigure(c) => GetConfigure(c, s)
    case ForBuild(b) => GetBuild(b, s)
    case ForTest(t) => GetTest(t, s)
    case ForPackage(k) => GetPackage(k, s)
  }

  /** What a preset itself says about a slot: empty, absent and missing are None. */
  function Get(p: Preset, s: Slot): Option<Value> {
    if s.Environment? then
      if s.key in p.environment then Some(Setting(p.environment[s.key])) else None
    else
      GetField(p.fields, s)
  }

  ghost predicate SameKind(p: Preset, q: Preset) {
    && (p.fields.ForConfigure? <==> q.fields.ForConfigure?)
    && (p.fields.ForBuild? <==> q.fields.ForBuild?)
    && (p.fields.ForTest? <==> q.fields.ForTest?)
  }

  // ------------------------------------------------ presets that set nothing

  const BARE_CONFIGURE :=
    Configure("", "", None, "", None, "", "", "", "", map[], None, None, None, None, None, None, None,
              None, None, None, None, None, [], "")
  const BARE_PACKAGE := Package("", None, [], [], map[], "", None, None, "", "", "", "")
  const BARE_BUILD := Build("", None, None, [], "", None, None, [], None)
  const BARE_TEST := Test("", None, "", [], None, None, None)

  /** A preset that sets nothing gets everything its parent has, but for the debug and trace fields. */
  lemma BareConfigure(parent: Configure)
    ensures InheritConfigure(BARE_CONFIGURE, parent) ==
            parent.(debugOutput := None, debugTryCompile := None, debugFind := None, traceMode := None,
                    traceFormat := None, traceSource := [], traceRedirect := "")
  {
    assert InheritConfigure(BARE_CONFIGURE, parent).cacheVariables == parent.cacheVariables;
  }

  lemma BareBuild(parent: Build)
    ensures InheritBuild(BARE_BUILD, parent) == parent
  {
  }

  /** A filter group with nothing in it is no filter. */
  lemma BareTest(parent: Test)
    ensures InheritTest(BARE_TEST, parent) ==
            if parent.filter == Some(Filter(None, None)) then parent.(filter := None) else parent
  {
  }

  lemma BarePackage(parent: Package)
    ensures InheritPackage(BARE_PACKAGE, parent) == parent.(configFile := "")
  {
    assert InheritPackage(BARE_PACKAGE, parent).variables == parent.variables;
  }

  lemma ConfigureSlot(p: Configure, parent: Configure, s: Slot)
    ensures GetConfigure(InheritConfigure(p, parent), s) == OrElse(GetConfigure(p, s), GetConfigure(parent, s))
  {
  }

  lemma BuildSlot(p: Build, parent: Build, s: Slot)
    ensures GetBuild(InheritBuild(p, parent), s) == OrElse(GetBuild(p, s), GetBuild(parent, s))
  {
  }

  lemma OutputSlot(p: Output, parent: Output, s: Slot)
    ensures GetOutput(InheritOutput(p, parent), s) == OrElse(GetOutput(p, s), GetOutput(parent, s))
  {
  }

  lemma IncludeSlot(p: Include, parent: Include, s: Slot)
    ensures GetInclude(InheritInclude(p, parent), s) == OrElse(GetInclude(p, s), GetInclude(parent, s))
  {
  }

  lemma ExcludeSlot(p: Exclude, parent: Exclude, s: Slot)
    ensures GetExclude(InheritExclude(p, parent), s) == OrElse(GetExclude(p, s), GetExclude(parent, s))
  {
  }

  lemma ExecutionSlot(p: Execution, parent: Execution, s: Slot)
    ensures GetExecution(InheritExecution(p, parent), s) == OrElse(GetExecution(p, s), GetExecution(parent, s))
  {
  }

  // In every group: the field of the child's group, else that of the parent's.

  lemma OutputGroup(p: Option<Output>, parent: Option<Output>, s: Slot)
    ensures GetGroup(InheritGroup(p, parent, InheritOutput), GetOutput, s)
            == OrElse(GetGroup(p, GetOutput, s), GetGroup(parent, GetOutput, s))
  {
    if p.Some? && parent.Some? { OutputSlot(p.value, parent.value, s); }
  }

  lemma IncludeGroup(p: Option<Include>, parent: Option<Include>, s: Slot)
    ensures GetGroup(InheritGroup(p, parent, InheritInclude), GetInclude, s)
            == OrElse(GetGroup(p, GetInclude, s), GetGroup(parent, GetInclude, s))
  {
    if p.Some? && parent.Some? { IncludeSlot(p.value, parent.value, s); }
  }

  lemma ExcludeGroup(p: Option<Exclude>, parent: Option<Exclude>, s: Slot)
    ensures GetGroup(InheritGroup(p, parent, InheritExclude), GetExclude, s)
            == OrElse(GetGroup(p, GetExclude, s), GetGroup(parent, GetExclude, s))
  {
    if p.Some? && parent.Some? { ExcludeSlot(p.value, parent.value, s); }
  }

  lemma ExecutionGroup(p: Option<Execution>, parent: Option<Execution>, s: Slot)
    ensures GetGroup(InheritGroup(p, parent, InheritExecution), GetExecution, s)
            == OrElse(GetGroup(p, GetExecution, s), GetGroup(parent, GetExecution, s))
  {
    if p.Some? && parent.Some? { ExecutionSlot(p.value, parent.value, s); }
  }

  lemma FilterGroups(p: Option<Filter>, parent: Option<Filter>)
    ensures IncludeOf(InheritFilter(p, parent)) == InheritGroup(IncludeOf(p), IncludeOf(parent), InheritInclude)
    ensures ExcludeOf(InheritFilter(p, parent)) == InheritGroup(ExcludeOf(p), ExcludeOf(parent), InheritExclude)
  {
  }

  /** Every slot belongs to one group. */
  lemma OneGroup(p: Test, q: Test, s: Slot)
    ensures GetGroup(p.output, GetOutput, s).Some? ==>
              GetGroup(q.execution, GetExecution, s).None? && GetGroup(IncludeOf(q.filter), GetInclude, s).None?
              && GetGroup(ExcludeOf(q.filter), GetExclude, s).None?
    ensures GetGroup(p.execution, GetExecution, s).Some? ==>
              GetGroup(IncludeOf(q.filter), GetInclude, s).None? && GetGroup(ExcludeOf(q.filter), GetExclude, s).None?
    ensures GetGroup(IncludeOf(p.filter), GetInclude, s).Some? ==> GetGroup(ExcludeOf(q.filter), GetExclude, s).None?
  {
  }

  lemma TestSlot(p: Test, parent: Test, s: Slot)
    ensures GetTest(InheritTest(p, parent), s) == OrElse(GetTest(p, s), GetTest(parent, s))
  {
    OutputGroup(p.output, parent.output, s);
    ExecutionGroup(p.execution, parent.execution, s);
    FilterGroups(p.filter, parent.filter);
    IncludeGroup(IncludeOf(p.filter), IncludeOf(parent.filter), s);
    ExcludeGroup(ExcludeOf(p.filter), ExcludeOf(parent.filter), s);
    OneGroup(p, parent, s);
    OneGroup(parent, p, s);
  }

  lemma PackageSlot(p: Package, parent: Package, s: Slot)
    ensures GetPackage(InheritPackage(p, parent), s) == OrElse(GetPackage(p, s), GetPackage(parent, s))
  {
  }

  /** Merging one parent: in every slot the child's own value, else the parent's. */
  lemma MergeSlot(p: Preset, parent: Preset, s: Slot)
    requires SameKind(p, parent)
    ensures Get(Merge(p, parent), s) == OrElse(Get(p, s), Get(parent, s))
  {
    if !s.Environment? {
      FieldsSlot(p.fields, parent.fields, s);
    }
  }

  lemma FieldsSlot(p: Fields, parent: Fields, s: Slot)
    requires (p.ForConfigure? <==> parent.ForConfigure?) && (p.ForBuild? <==> parent.ForBuild?)
    requires p.ForTest? <==> parent.ForTest?
    ensures GetField(VisitPresetInherit(p, parent), s) == OrElse(GetField(p, s), GetField(parent, s))
  {
    match p
    case ForConfigure(c) => ConfigureSlot(c, parent.configure, s);
    case ForBuild(b) => BuildSlot(b, parent.build, s);
    case ForTest(t) => TestSlot(t, parent.test, s);
    case ForPackage(k) => PackageSlot(k, parent.package, s);
  }

  // Merging a parent twice, with anything merged in between, is merging it once.

  lemma ConfigureAbsorbs(p: Configure, parent: Configure)
    ensures InheritConfigure(InheritConfigure(p, parent), parent) == InheritConfigure(p, parent)
  {
  }

  lemma ConfigureStaysAbsorbed(p: Configure, parent: Configure, other: Configure)
    requires InheritConfigure(p, parent) == p
    ensures InheritConfigure(InheritConfigure(p, other), parent) == InheritConfigure(p, other)
  {
  }

  lemma BuildAbsorbs(p: Build, parent: Build)
    ensures InheritBuild(InheritBuild(p, parent), parent) == InheritBuild(p, parent)
  {
  }

  lemma BuildStaysAbsorbed(p: Build, parent: Build, other: Build)
    requires InheritBuild(p, parent) == p
    ensures InheritBuild(InheritBuild(p, other), parent) == InheritBuild(p, other)
  {
  }

  lemma TestAbsorbs(p: Test, parent: Test)
    ensures InheritTest(InheritTest(p, parent), parent) == InheritTest(p, parent)
  {
  }

  lemma TestStaysAbsorbed(p: Test, parent: Test, other: Test)
    requires InheritTest(p, parent) == p
    ensures InheritTest(InheritTest(p, other), parent) == InheritTest(p, other)
  {
    assert InheritGroup(p.output, parent.output, InheritOutput) == p.output;
    assert InheritGroup(p.execution, parent.execution, InheritExecution) == p.execution;
    assert InheritFilter(p.filter, parent.filter) == p.filter;
    FilterStaysAbsorbed(p.filter, parent.filter, other.filter);
  }

  lemma FilterStaysAbsorbed(p: Option<Filter>, parent: Option<Filter>, other: Option<Filter>)
    requires InheritFilter(p, parent) == p
    ensures InheritFilter(InheritFilter(p, other), parent) == InheritFilter(p, other)
  {
  }

  lemma PackageAbsorbs(p: Package, parent: Package)
    ensures InheritPackage(InheritPackage(p, parent), parent) == InheritPackage(p, parent)
  {
  }

  lemma PackageStaysAbsorbed(p: Package, parent: Package, other: Package)
    requires InheritPackage(p, parent) == p
    ensures InheritPackage(InheritPackage(p, other), parent) == InheritPackage(p, other)
  {
  }

  lemma MergeAbsorbs(p: Preset, parent: Preset)
    ensures Merge(Merge(p, parent), parent) == Merge(p, parent)
  {
    match (p.fields, parent.fields)
    case (ForConfigure(c), ForConfigure(q)) => ConfigureAbsorbs(c, q);
    case (ForBuild(c), ForBuild(q)) => BuildAbsorbs(c, q);
    case (ForTest(c), ForTest(q)) => TestAbsorbs(c, q);
    case (ForPackage(c), ForPackage(q)) => PackageAbsorbs(c, q);
    case (_, _) =>
  }

  lemma FieldsStayAbsorbed(p: Fields, parent: Fields, other: Fields)
    requires VisitPresetInherit(p, parent) == p
    ensures VisitPresetInherit(VisitPresetInherit(p, other), parent) == VisitPresetInherit(p, other)
  {
    match (p, parent, other)
    case (ForConfigure(c), ForConfigure(q), ForConfigure(o)) => ConfigureStaysAbsorbed(c, q, o);
    case (ForBuild(c), ForBuild(q), ForBuild(o)) => BuildStaysAbsorbed(c, q, o);
    case (ForTest(c), ForTest(q), ForTest(o)) => TestStaysAbsorbed(c, q, o);
    case (ForPackage(c), ForPackage(q), ForPackage(o)) => PackageStaysAbsorbed(c, q, o);
    case (_, _, _) =>
  }

  lemma EntriesStayAbsorbed<V>(p: map<string, V>, parent: map<string, V>, other: map<string, V>)
    requires InheritEntries(p, parent) == p
    ensures InheritEntries(InheritEntries(p, other), parent) == InheritEntries(p, other)
  {
    assert parent.Keys <= p.Keys;
  }

  lemma MergeStaysAbsorbed(p: Preset, parent: Preset, other: Preset)
    requires Merge(p, parent) == p
    ensures Merge(Merge(p, other), parent) == Merge(p, other)
  {
    EntriesStayAbsorbed(p.environment, parent.environment, other.environment);
    FieldsStayAbsorbed(p.fields, parent.fields, other.fields);
  }
}
